/** `filepath.WalkDir` over a finite, unchanging directory tree. */
module Walk {
  import opened Outcomes

  /** A directory entry. `meta` is what reading below or about the entry yields; `listed` is
      false when `ReadDir` fails, and `children` is then the part it returned all the same. */
  datatype Node<M> =
    | Dir(name: string, meta: M, listed: bool, children: seq<Node<M>>)
    | Leaf(name: string, meta: M)

  /** One call of the callback: where, on what, and whether it reports a failure. The path is
      the list of names below the walk root; there is no entry when the root does not exist. */
  datatype Visit<M> = Visit(path: seq<string>, entry: Option<Node<M>>, failed: bool)

  datatype Verdict = Continue | SkipDir | Abort

  datatype Walked<S> = Walked(state: S, verdict: Verdict)

  /** What a callback does to the variables it captures, and what it returns. */
  type Callback<!S, !M> = (S, Visit<M>) -> Walked<S>

  /** SkipDir on a directory skips it and is then spent. */
  function Skipped<S>(w: Walked<S>): Walked<S> {
    if w.verdict == SkipDir then w.(verdict := Continue) else w
  }

  function WalkNode<S, M>(fn: Callback<S, M>, s: S, path: seq<string>, node: Node<M>): Walked<S>
    decreases node, 1
  {
    var first := fn(s, Visit(path, Some(node), false));
    if node.Leaf? then first
    else if first.verdict != Continue then Skipped(first)
    else if node.listed then WalkChildren(fn, first.state, path, node.children)
    else
      var second := fn(first.state, Visit(path, Some(node), true));
      if second.verdict != Continue then Skipped(second)
      else WalkChildren(fn, second.state, path, node.children)
  }

  /** SkipDir coming back from a child, necessarily not a directory, abandons its siblings. */
  function WalkChildren<S, M>(fn: Callback<S, M>, s: S, path: seq<string>, cs: seq<Node<M>>): Walked<S>
    decreases cs, 0
  {
    if cs == [] then Walked(s, Continue)
    else
      var w := WalkNode(fn, s, path + [cs[0].name], cs[0]);
      if w.verdict != Continue then Skipped(w)
      else WalkChildren(fn, w.state, path, cs[1..])
  }

  lemma WalkOneChild<S, M>(fn: Callback<S, M>, s: S, s': S, path: seq<string>, cs: seq<Node<M>>)
    requires cs != [] && WalkNode(fn, s, path + [cs[0].name], cs[0]) == Walked(s', Continue)
    ensures WalkChildren(fn, s, path, cs) == WalkChildren(fn, s', path, cs[1..])
  {
  }

  function WalkRoot<S, M>(fn: Callback<S, M>, s: S, root: Option<Node<M>>): Walked<S> {
    match root
    case None => Skipped(fn(s, Visit([], None, true)))
    case Some(node) => Skipped(WalkNode(fn, s, [], node))
  }

  // ---------- what the rules come to ----------

  /** Every call a walk makes when no callback skips anything: each entry before what is below it,
      siblings in order, and a directory that cannot be listed twice. */
  function Visits<M>(path: seq<string>, node: Node<M>): seq<Visit<M>>
    decreases node, 1
  {
    [Visit(path, Some(node), false)]
    + if node.Leaf? then []
      else (if node.listed then [] else [Visit(path, Some(node), true)]) + VisitsIn(path, node.children)
  }

  function VisitsIn<M>(path: seq<string>, cs: seq<Node<M>>): seq<Visit<M>>
    decreases cs, 0
  {
    if cs == [] then [] else Visits(path + [cs[0].name], cs[0]) + VisitsIn(path, cs[1..])
  }

  function FoldVisits<S, M>(fn: Callback<S, M>, s: S, vs: seq<Visit<M>>): S
    decreases |vs|
  {
    if vs == [] then s else FoldVisits(fn, fn(s, vs[0]).state, vs[1..])
  }

  lemma {:induction false} FoldConcat<S, M>(fn: Callback<S, M>, s: S, a: seq<Visit<M>>, b: seq<Visit<M>>)
    ensures FoldVisits(fn, s, a + b) == FoldVisits(fn, FoldVisits(fn, s, a), b)
    decreases |a|
  {
    if a == [] {
      assert a + b == b;
    } else {
      assert (a + b)[1..] == a[1..] + b;
      FoldConcat(fn, fn(s, a[0]).state, a[1..], b);
    }
  }

  /** A callback that never skips sees every entry, in preorder. */
  lemma {:induction false} ContinuingWalk<S, M>(fn: Callback<S, M>, s: S, path: seq<string>, node: Node<M>)
    requires forall t, v :: fn(t, v).verdict == Continue
    ensures WalkNode(fn, s, path, node) == Walked(FoldVisits(fn, s, Visits(path, node)), Continue)
    decreases node, 1
  {
    var first, again := Visit(path, Some(node), false), Visit(path, Some(node), true);
    var s1 := fn(s, first).state;
    assert [first][1..] == [] && [again][1..] == [];
    if node.Leaf? {
      assert Visits(path, node) == [first];
    } else {
      var below := VisitsIn(path, node.children);
      if node.listed {
        assert Visits(path, node) == [first] + below;
        ContinuingWalkIn(fn, s1, path, node.children);
      } else {
        assert Visits(path, node) == [first] + ([again] + below);
        FoldConcat(fn, s1, [again], below);
        ContinuingWalkIn(fn, fn(s1, again).state, path, node.children);
      }
      FoldConcat(fn, s, [first], Visits(path, node)[1..]);
      assert Visits(path, node) == [first] + Visits(path, node)[1..];
    }
  }

  lemma {:induction false} ContinuingWalkIn<S, M>(fn: Callback<S, M>, s: S, path: seq<string>, cs: seq<Node<M>>)
    requires forall t, v :: fn(t, v).verdict == Continue
    ensures WalkChildren(fn, s, path, cs) == Walked(FoldVisits(fn, s, VisitsIn(path, cs)), Continue)
    decreases cs, 0
  {
    if cs == [] {
    } else {
      var p0 := path + [cs[0].name];
      ContinuingWalk(fn, s, p0, cs[0]);
      ContinuingWalkIn(fn, FoldVisits(fn, s, Visits(p0, cs[0])), path, cs[1..]);
      FoldConcat(fn, s, Visits(p0, cs[0]), VisitsIn(path, cs[1..]));
    }
  }

  /** SkipDir on a directory skips what is below it and no more; on anything else it skips the rest
      of the parent, whatever that is; any other error ends the walk. */
  lemma SkipRules<S, M>(fn: Callback<S, M>, s: S, path: seq<string>, node: Node<M>, rest: seq<Node<M>>)
    ensures
      var here := path + [node.name];
      var w := fn(s, Visit(here, Some(node), false));
      && (w.verdict == SkipDir && node.Dir? ==>
            WalkChildren(fn, s, path, [node] + rest) == WalkChildren(fn, w.state, path, rest))
      && (w.verdict == SkipDir && node.Leaf? ==>
            WalkChildren(fn, s, path, [node] + rest) == Walked(w.state, Continue))
      && (w.verdict == Abort ==> WalkChildren(fn, s, path, [node] + rest) == w)
  {
    assert ([node] + rest)[1..] == rest;
  }

  /** The walk as it runs: callbacks update one captured variable in place. */
  class Walker<S, M> {
    const fn: Callback<S, M>
    var state: S

    constructor (fn: Callback<S, M>, state: S)
      ensures this.fn == fn && this.state == state
    {
      this.fn := fn;
      this.state := state;
    }

    method Call(visit: Visit<M>) returns (v: Verdict)
      modifies this
      ensures Walked(state, v) == fn(old(state), visit)
    {
      var w := fn(state, visit);
      state := w.state;
      v := w.verdict;
    }

    method WalkDir(path: seq<string>, node: Node<M>) returns (v: Verdict)
      modifies this
      ensures Walked(state, v) == WalkNode(fn, old(state), path, node)
      decreases node
    {
      v := Call(Visit(path, Some(node), false));
      if v != Continue || node.Leaf? {
        if v == SkipDir && node.Dir? {
          v := Continue;
        }
        return;
      }
      if !node.listed {
        v := Call(Visit(path, Some(node), true));
        if v != Continue {
          if v == SkipDir {
            v := Continue;
          }
          return;
        }
      }
      var cs := node.children;
      ghost var s0 := state;
      for i := 0 to |cs|
        invariant WalkChildren(fn, s0, path, cs) == WalkChildren(fn, state, path, cs[i..])
      {
        assert cs[i..][0] == cs[i] && cs[i..][1..] == cs[i + 1..];
        v := WalkDir(path + [cs[i].name], cs[i]);
        if v != Continue {
          if v == SkipDir {
            v := Continue;
          }
          return;
        }
      }
      v := Continue;
    }

    method Run(root: Option<Node<M>>) returns (v: Verdict)
      modifies this
      ensures Walked(state, v) == WalkRoot(fn, old(state), root)
    {
      if root.None? {
        v := Call(Visit([], None, true));
      } else {
        v := WalkDir([], root.value);
      }
      if v == SkipDir {
        v := Continue;
      }
    }
  }

  // ---------- positions in a tree ----------

  /** A position below a node: the child indices to follow. */
  type Address = seq<nat>

  ghost predicate Exists<M>(node: Node<M>, a: Address) {
    a == [] || (node.Dir? && a[0] < |node.children| && Exists(node.children[a[0]], a[1..]))
  }

  ghost function At<M>(node: Node<M>, a: Address): Node<M>
    requires Exists(node, a)
  {
    if a == [] then node else At(node.children[a[0]], a[1..])
  }

  /** The names on the way from a node down to an address below it. */
  ghost function NamesTo<M>(node: Node<M>, a: Address): (names: seq<string>)
    requires Exists(node, a)
    ensures |names| == |a|
  {
    if a == [] then []
    else [node.children[a[0]].name] + NamesTo(node.children[a[0]], a[1..])
  }

  /** Preorder: an ancestor before its descendants, earlier siblings' subtrees before later. */
  ghost predicate Before(a: Address, b: Address) {
    b != [] && (a == [] || a[0] < b[0] || (a[0] == b[0] && Before(a[1..], b[1..])))
  }

  lemma {:induction false} PrefixesExist<M>(node: Node<M>, a: Address, k: nat)
    requires Exists(node, a) && k <= |a|
    ensures Exists(node, a[..k])
    ensures NamesTo(node, a[..k]) == NamesTo(node, a)[..k]
    ensures k < |a| ==> At(node, a[..k]).Dir?
  {
    if k == 0 {
    } else {
      PrefixesExist(node.children[a[0]], a[1..], k - 1);
      assert a[..k][1..] == a[1..][..k - 1];
    }
  }

  /** Preorder is irreflexive and transitive, so a list sorted by it repeats nothing. */
  lemma {:induction false} BeforeIsStrictOrder(a: Address, b: Address, c: Address)
    ensures !Before(a, a)
    ensures Before(a, b) && Before(b, c) ==> Before(a, c)
  {
    if a == [] {
    } else {
      BeforeIsStrictOrder(a[1..], if b == [] then [] else b[1..], if c == [] then [] else c[1..]);
    }
  }
}
