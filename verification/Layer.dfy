/** The size of a container's writable layer: a walk over its files, hard links counted once. */
module Layer {
  import opened Outcomes
  import opened Sums
  import opened Walk
  import opened Words

  datatype Inode = Inode(dev: nat, ino: nat)

  datatype Stat = Stat(inode: Inode, nlink: nat, size: nat)

  /** A regular file carries what `Info` returns, None when that fails. Whiteouts, links, sockets
      and directories are irregular. */
  datatype Meta = Regular(stat: Option<Stat>) | Irregular

  type Entry = Node<Meta>

  /** The captured variables, and how often the context has been asked so far. */
  datatype Tally = Tally(size: nat, files: nat, seen: set<Inode>, checks: nat)

  function Add64(a: nat, b: nat): nat {
    (a + b) % TWO64
  }

  /** Count a file unless it is another name of one already counted. */
  function CountFile(t: Tally, s: Stat): Tally {
    if s.nlink > 1 && s.inode in t.seen then t
    else t.(size := Add64(t.size, s.size), files := Add64(t.files, 1),
            seen := if s.nlink > 1 then t.seen + {s.inode} else t.seen)
  }

  /** The context is cancelled from its `cancelAt`-th check on, if ever. */
  predicate Cancelled(cancelAt: Option<nat>, check: nat) {
    cancelAt.Some? && check >= cancelAt.value
  }

  function LayerVisit(cancelAt: Option<nat>, t: Tally, visit: Visit<Meta>): Walked<Tally> {
    if visit.failed || visit.entry.None? then Walked(t, if visit.path == [] then Abort else Continue)
    else if Cancelled(cancelAt, t.checks) then Walked(t, Abort)
    else
      var t' := t.(checks := t.checks + 1);
      match visit.entry.value
      case Leaf(_, Regular(Some(s))) => Walked(CountFile(t', s), Continue)
      case _ => Walked(t', Continue)
  }

  function Visitor(cancelAt: Option<nat>): Callback<Tally, Meta> {
    (t, visit) => LayerVisit(cancelAt, t, visit)
  }

  // ---------- the files the walk meets ----------

  function StatOf(m: Meta): seq<Stat> {
    match m case Regular(Some(s)) => [s] case _ => []
  }

  /** The regular files below a node that can be looked at, in preorder. A subdirectory that cannot
      be read to its end still shows the part that could. */
  function Files(node: Entry): seq<Stat>
    decreases node, 1
  {
    if node.Leaf? then StatOf(node.meta) else FilesIn(node.children)
  }

  function FilesIn(cs: seq<Entry>): seq<Stat>
    decreases cs, 0
  {
    if cs == [] then [] else Files(cs[0]) + FilesIn(cs[1..])
  }

  /** How often the context is asked: once per entry. */
  function Checks(node: Entry): nat
    decreases node, 1
  {
    if node.Leaf? then 1 else 1 + ChecksIn(node.children)
  }

  function ChecksIn(cs: seq<Entry>): nat
    decreases cs, 0
  {
    if cs == [] then 0 else Checks(cs[0]) + ChecksIn(cs[1..])
  }

  function CountAll(t: Tally, ss: seq<Stat>): Tally
    decreases |ss|
  {
    if ss == [] then t else CountAll(CountFile(t, ss[0]), ss[1..])
  }

  lemma {:induction false} CountConcat(t: Tally, a: seq<Stat>, b: seq<Stat>)
    ensures CountAll(t, a + b) == CountAll(CountAll(t, a), b)
    decreases |a|
  {
    if a == [] {
      assert a + b == b;
    } else {
      assert (a + b)[1..] == a[1..] + b;
      CountConcat(CountFile(t, a[0]), a[1..], b);
    }
  }

  /** Checks are counted apart from everything else. */
  lemma {:induction false} ChecksApart(t: Tally, ss: seq<Stat>, n: nat)
    ensures CountAll(t.(checks := n), ss) == CountAll(t, ss).(checks := n)
    ensures CountAll(t, ss).checks == t.checks
    decreases |ss|
  {
    if ss == [] {
    } else {
      ChecksApart(CountFile(t, ss[0]), ss[1..], n);
    }
  }

  /** The tally after a subtree. */
  function After(t: Tally, ss: seq<Stat>, checks: nat): Tally {
    CountAll(t, ss).(checks := t.checks + checks)
  }

  lemma AfterBoth(t: Tally, a: seq<Stat>, n: nat, b: seq<Stat>, m: nat)
    ensures After(After(t, a, n), b, m) == After(t, a + b, n + m)
  {
    CountConcat(t, a, b);
    ChecksApart(CountAll(t, a), b, t.checks + n);
    ChecksApart(t, a, 0);
  }

  lemma OneLeaf(t: Tally, m: Meta)
    ensures After(t, StatOf(m), 1) ==
      match m
      case Regular(Some(s)) => CountFile(t.(checks := t.checks + 1), s)
      case _ => t.(checks := t.checks + 1)
  {
    match m
    case Regular(Some(s)) =>
      assert [s][1..] == [];
      assert CountAll(t, [s]) == CountFile(t, s);
    case _ =>
  }

  predicate InTime(cancelAt: Option<nat>, t: Tally, checks: nat) {
    cancelAt.None? || t.checks + checks <= cancelAt.value
  }

  /** Below the root a walk that is not cancelled counts every file of the subtree and goes on; one
      that is cancelled stops the whole walk. */
  lemma {:induction false} WalkCounts(cancelAt: Option<nat>, t: Tally, path: seq<string>, node: Entry)
    requires path != [] && InTime(cancelAt, t, 0)
    ensures var w := WalkNode(Visitor(cancelAt), t, path, node);
      if InTime(cancelAt, t, Checks(node)) then w == Walked(After(t, Files(node), Checks(node)), Continue)
      else w.verdict == Abort
    decreases node, 1
  {
    if node.Leaf? {
      OneLeaf(t, node.meta);
    } else if !Cancelled(cancelAt, t.checks) {
      WalkCountsIn(cancelAt, t.(checks := t.checks + 1), path, node.children);
      AfterBoth(t, [], 1, FilesIn(node.children), ChecksIn(node.children));
      assert [] + FilesIn(node.children) == FilesIn(node.children);
    }
  }

  lemma {:induction false} WalkCountsIn(cancelAt: Option<nat>, t: Tally, path: seq<string>, cs: seq<Entry>)
    requires InTime(cancelAt, t, 0)
    ensures var w := WalkChildren(Visitor(cancelAt), t, path, cs);
      if InTime(cancelAt, t, ChecksIn(cs)) then w == Walked(After(t, FilesIn(cs), ChecksIn(cs)), Continue)
      else w.verdict == Abort
    decreases cs, 0
  {
    if cs == [] {
    } else {
      WalkCounts(cancelAt, t, path + [cs[0].name], cs[0]);
      if InTime(cancelAt, t, Checks(cs[0])) {
        var t' := After(t, Files(cs[0]), Checks(cs[0]));
        WalkOneChild(Visitor(cancelAt), t, t', path, cs);
        WalkCountsIn(cancelAt, t', path, cs[1..]);
        AfterBoth(t, Files(cs[0]), Checks(cs[0]), FilesIn(cs[1..]), ChecksIn(cs[1..]));
      }
    }
  }

  const EMPTY := Tally(0, 0, {}, 0)

  /** The layer itself is there and can be read. */
  predicate Readable(root: Option<Entry>) {
    root.Some? && (root.value.Dir? ==> root.value.listed)
  }

  lemma RootCounts(cancelAt: Option<nat>, root: Option<Entry>)
    ensures var w := WalkRoot(Visitor(cancelAt), EMPTY, root);
      if Readable(root) && InTime(cancelAt, EMPTY, Checks(root.value))
      then w == Walked(After(EMPTY, Files(root.value), Checks(root.value)), Continue)
      else w.verdict == Abort
  {
    if root.Some? && root.value.Leaf? {
      OneLeaf(EMPTY, root.value.meta);
    } else if root.Some? && !Cancelled(cancelAt, 0) {
      WalkCountsIn(cancelAt, EMPTY.(checks := 1), [], root.value.children);
      AfterBoth(EMPTY, [], 1, FilesIn(root.value.children), ChecksIn(root.value.children));
      assert [] + FilesIn(root.value.children) == FilesIn(root.value.children);
    }
  }

  /** Succeeds unless the layer itself is unreadable or the context is cancelled during the walk;
      and then the figures are the sums over all its files. */
  method LayerSize(root: Option<Entry>, cancelAt: Option<nat>) returns (size: nat, files: nat, ok: bool)
    ensures ok <==> Readable(root) && InTime(cancelAt, EMPTY, Checks(root.value))
    ensures ok ==> size == CountAll(EMPTY, Files(root.value)).size && files == CountAll(EMPTY, Files(root.value)).files
  {
    var walker := new Walker(Visitor(cancelAt), EMPTY);
    var v := walker.Run(root);
    RootCounts(cancelAt, root);
    return walker.state.size, walker.state.files, v != Abort;
  }

  // ---------- the sums they are ----------

  /** One inode with its size. */
  datatype Sized = Sized(inode: Inode, size: nat)

  function Linked(ss: seq<Stat>): set<Sized> {
    set s | s in ss && s.nlink > 1 :: Sized(s.inode, s.size)
  }

  function SizeIfSingle(s: Stat): nat {
    if s.nlink > 1 then 0 else s.size
  }

  function OneIfSingle(s: Stat): nat {
    if s.nlink > 1 then 0 else 1
  }

  /** The sizes of the singly-linked files, added up, and how many there are. */
  function SingleSize(ss: seq<Stat>): nat {
    SumBy(SizeIfSingle, ss)
  }

  function SingleCount(ss: seq<Stat>): nat {
    SumBy(OneIfSingle, ss)
  }

  ghost function SetSum(ps: set<Sized>): nat {
    if ps == {} then 0
    else
      var p :| p in ps;
      p.size + SetSum(ps - {p})
  }

  /** All names of one inode report the same size. */
  ghost predicate Consistent(ss: seq<Stat>) {
    forall s, s' :: s in ss && s' in ss && s.nlink > 1 && s'.nlink > 1 && s.inode == s'.inode ==> s.size == s'.size
  }

  lemma {:induction false} SetSumRemove(ps: set<Sized>, p: Sized)
    requires p in ps
    ensures SetSum(ps) == p.size + SetSum(ps - {p})
  {
    var q :| q in ps && SetSum(ps) == q.size + SetSum(ps - {q});
    if q != p {
      SetSumRemove(ps - {q}, p);
      SetSumRemove(ps - {p}, q);
      assert ps - {q} - {p} == ps - {p} - {q};
    }
  }

  /** The files of a list not yet counted among `seen`. */
  function Unseen(ss: seq<Stat>, seen: set<Inode>): set<Sized> {
    set p | p in Linked(ss) && p.inode !in seen
  }

  lemma LinkedStep(ss: seq<Stat>, q: Sized)
    requires ss != []
    ensures q in Linked(ss) <==> q in Linked(ss[1..]) || (ss[0].nlink > 1 && q == Sized(ss[0].inode, ss[0].size))
  {
    assert ss == [ss[0]] + ss[1..];
    if q in Linked(ss[1..]) {
      var s :| s in ss[1..] && s.nlink > 1 && q == Sized(s.inode, s.size);
      assert s in ss;
    }
  }

  lemma UnseenStep(ss: seq<Stat>, seen: set<Inode>)
    requires ss != [] && Consistent(ss)
    ensures var s, p := ss[0], Sized(ss[0].inode, ss[0].size);
      if s.nlink > 1 && s.inode !in seen
      then p in Unseen(ss, seen) && Unseen(ss[1..], seen + {s.inode}) == Unseen(ss, seen) - {p}
      else Unseen(ss[1..], seen) == Unseen(ss, seen)
  {
    var s, p := ss[0], Sized(ss[0].inode, ss[0].size);
    forall q ensures q in Linked(ss) <==> q in Linked(ss[1..]) || (s.nlink > 1 && q == p) {
      LinkedStep(ss, q);
    }
    if s.nlink > 1 && s.inode !in seen {
      forall q | q in Linked(ss) && q.inode == s.inode ensures q == p {
      }
    }
  }

  /** What counting adds, before it wraps. */
  function AddedSize(seen: set<Inode>, ss: seq<Stat>): nat
    decreases |ss|
  {
    if ss == [] then 0
    else if ss[0].nlink > 1 && ss[0].inode in seen then AddedSize(seen, ss[1..])
    else ss[0].size + AddedSize(if ss[0].nlink > 1 then seen + {ss[0].inode} else seen, ss[1..])
  }

  function AddedFiles(seen: set<Inode>, ss: seq<Stat>): nat
    decreases |ss|
  {
    if ss == [] then 0
    else if ss[0].nlink > 1 && ss[0].inode in seen then AddedFiles(seen, ss[1..])
    else 1 + AddedFiles(if ss[0].nlink > 1 then seen + {ss[0].inode} else seen, ss[1..])
  }

  lemma AddTwice(t: nat, a: nat, b: nat)
    ensures Add64(Add64(t, a), b) == Add64(t, a + b)
    ensures t < TWO64 ==> Add64(t, 0) == t
  {
  }

  lemma {:induction false} CountAdds(t: Tally, ss: seq<Stat>)
    requires t.size < TWO64 && t.files < TWO64
    ensures CountAll(t, ss).size == Add64(t.size, AddedSize(t.seen, ss))
    ensures CountAll(t, ss).files == Add64(t.files, AddedFiles(t.seen, ss))
    decreases |ss|
  {
    if ss == [] {
      AddTwice(t.size, 0, 0);
      AddTwice(t.files, 0, 0);
    } else {
      var t' := CountFile(t, ss[0]);
      CountAdds(t', ss[1..]);
      AddTwice(t.size, ss[0].size, AddedSize(t'.seen, ss[1..]));
      AddTwice(t.files, 1, AddedFiles(t'.seen, ss[1..]));
    }
  }

  /** From any point on, counting adds the singly-linked files and the inodes not seen so far. */
  lemma {:induction false} AddedIsSum(seen: set<Inode>, ss: seq<Stat>)
    requires Consistent(ss)
    ensures AddedSize(seen, ss) == SingleSize(ss) + SetSum(Unseen(ss, seen))
    ensures AddedFiles(seen, ss) == SingleCount(ss) + |Unseen(ss, seen)|
    decreases |ss|
  {
    if ss == [] {
      assert Unseen(ss, seen) == {};
    } else {
      var s := ss[0];
      UnseenStep(ss, seen);
      AddedIsSum(if s.nlink > 1 then seen + {s.inode} else seen, ss[1..]);
      if s.nlink > 1 {
        if s.inode in seen {
          assert seen + {s.inode} == seen;
        } else {
          SetSumRemove(Unseen(ss, seen), Sized(s.inode, s.size));
        }
      }
    }
  }

  /** The layer's size is the sum over its distinct multiply-linked inodes and its singly-linked
      files, and its file count their number, modulo 2^64. */
  lemma LayerIsSum(ss: seq<Stat>)
    requires Consistent(ss)
    ensures CountAll(EMPTY, ss).size == (SingleSize(ss) + SetSum(Linked(ss))) % TWO64
    ensures CountAll(EMPTY, ss).files == (SingleCount(ss) + |Linked(ss)|) % TWO64
  {
    assert Unseen(ss, {}) == Linked(ss);
    AddedIsSum({}, ss);
    CountAdds(EMPTY, ss);
  }

  // ---------- the order of the walk ----------

  lemma SameFiles(a: seq<Stat>, b: seq<Stat>)
    requires multiset(a) == multiset(b)
    ensures forall s :: s in a <==> s in b
  {
    forall s ensures s in a <==> s in b {
      assert s in a <==> s in multiset(a);
      assert s in b <==> s in multiset(b);
    }
  }

  /** Visiting the same files in any other order gives the same figures. */
  lemma OrderDoesNotMatter(a: seq<Stat>, b: seq<Stat>)
    requires Consistent(a) && multiset(a) == multiset(b)
    ensures CountAll(EMPTY, a).size == CountAll(EMPTY, b).size
    ensures CountAll(EMPTY, a).files == CountAll(EMPTY, b).files
  {
    SameFiles(a, b);
    SameLinked(a, b);
    SumByPermuted(SizeIfSingle, a, b);
    SumByPermuted(OneIfSingle, a, b);
    SumsDecide(a, b);
  }

  lemma SumsDecide(a: seq<Stat>, b: seq<Stat>)
    requires Consistent(a) && Consistent(b) && Linked(a) == Linked(b)
    requires SingleSize(a) == SingleSize(b) && SingleCount(a) == SingleCount(b)
    ensures CountAll(EMPTY, a).size == CountAll(EMPTY, b).size
    ensures CountAll(EMPTY, a).files == CountAll(EMPTY, b).files
  {
    AddedSame(a, b);
    CountAdds(EMPTY, a);
    CountAdds(EMPTY, b);
  }

  lemma AddedSame(a: seq<Stat>, b: seq<Stat>)
    requires Consistent(a) && Consistent(b) && Linked(a) == Linked(b)
    requires SingleSize(a) == SingleSize(b) && SingleCount(a) == SingleCount(b)
    ensures AddedSize({}, a) == AddedSize({}, b) && AddedFiles({}, a) == AddedFiles({}, b)
  {
    AddedIsSum({}, a);
    AddedIsSum({}, b);
    assert Unseen(a, {}) == Linked(a) && Unseen(b, {}) == Linked(b);
  }

  lemma SameLinked(a: seq<Stat>, b: seq<Stat>)
    requires forall s :: s in a <==> s in b
    ensures Linked(a) == Linked(b) && (Consistent(a) ==> Consistent(b))
  {
  }
}
