/** Logical CPUs, physical cores and sockets from /proc/cpuinfo. */
module CpuTopology {
  import opened Outcomes
  import opened Text
  import opened CpuUsage

  datatype Topology = Topology(logical: nat, physicalCores: nat, sockets: nat)

  datatype Core = Core(pkg: string, core: string)

  /** What a line contributes. */
  datatype Item = Processor | Package(v: string) | CoreId(v: string) | Other

  function PairItem(key: string, v: string): Item {
    if key == "processor" then Processor
    else if key == "physical id" then Package(v)
    else if key == "core id" then CoreId(v)
    else Other
  }

  function ItemOf(line: string): Item {
    var h := Cut(line, ':');
    if !h.found then Other else PairItem(TrimSpace(h.before), TrimSpace(h.after))
  }

  function Items(lines: seq<string>): seq<Item> {
    seq(|lines|, i requires 0 <= i < |lines| => ItemOf(lines[i]))
  }

  // ---------- block by block ----------

  /** The last package a block names, and the last core. */
  function PackageIn(block: seq<Item>): Option<string> {
    if block == [] then None
    else match block[|block| - 1] case Package(v) => Some(v) case _ => PackageIn(block[..|block| - 1])
  }

  function CoreIn(block: seq<Item>): Option<string> {
    if block == [] then None
    else match block[|block| - 1] case CoreId(v) => Some(v) case _ => CoreIn(block[..|block| - 1])
  }

  /** A block that names a package and a core is a core; the core alone says nothing. */
  function CoreOf(block: seq<Item>): Option<Core> {
    match (PackageIn(block), CoreIn(block))
    case (Some(p), Some(c)) => Some(Core(p, c))
    case _ => None
  }

  function Packages(blocks: set<seq<Item>>): set<string> {
    set b | b in blocks && PackageIn(b).Some? :: PackageIn(b).value
  }

  function Cores(blocks: set<seq<Item>>): set<Core> {
    set b | b in blocks && CoreOf(b).Some? :: CoreOf(b).value
  }

  /** Each block but the first starts at a "processor" line; the first is whatever precedes it. */
  function Blocks(items: seq<Item>): (bs: seq<seq<Item>>)
    ensures |bs| >= 1
  {
    if items == [] then [[]]
    else
      var n := |items| - 1;
      var before := Blocks(items[..n]);
      if items[n].Processor? then before + [[items[n]]]
      else Extend(before, [items[n]])
  }

  /** More items for the last block. */
  function Extend(blocks: seq<seq<Item>>, more: seq<Item>): (r: seq<seq<Item>>)
    requires |blocks| >= 1
    ensures |r| == |blocks|
  {
    blocks[..|blocks| - 1] + [blocks[|blocks| - 1] + more]
  }

  function AsSet<T>(s: seq<T>): set<T> {
    set x | x in s
  }

  /** No topology at all makes every logical CPU a core of its own on one socket. */
  function Counts(logical: nat, cores: nat, sockets: nat): Topology {
    Topology(logical, if cores == 0 then logical else cores,
             if sockets == 0 && logical > 0 then 1 else sockets)
  }

  /** The block-wise count. */
  function TopologyOf(blocks: seq<seq<Item>>): Topology
    requires |blocks| >= 1
  {
    Counts(|blocks| - 1, |Cores(AsSet(blocks))|, |Packages(AsSet(blocks))|)
  }

  /** What flushing a block adds to the sets. */
  function PackagesOf(block: seq<Item>): set<string> {
    match PackageIn(block) case Some(p) => {p} case None => {}
  }

  function CoresOf(block: seq<Item>): set<Core> {
    match CoreOf(block) case Some(c) => {c} case None => {}
  }

  lemma OneMoreBlock(blocks: seq<seq<Item>>, b: seq<Item>)
    ensures Packages(AsSet(blocks + [b])) == Packages(AsSet(blocks)) + PackagesOf(b)
    ensures Cores(AsSet(blocks + [b])) == Cores(AsSet(blocks)) + CoresOf(b)
  {
    var all, some := AsSet(blocks + [b]), AsSet(blocks);
    assert forall x :: x in all <==> x in some || x == b;
    forall p ensures p in Packages(all) <==> p in Packages(some) || p in PackagesOf(b) {
      if p in Packages(some) {
        var x :| x in some && PackageIn(x) == Some(p);
        assert x in all;
      }
      if p in PackagesOf(b) {
        assert b in all;
      }
    }
    forall c ensures c in Cores(all) <==> c in Cores(some) || c in CoresOf(b) {
      if c in Cores(some) {
        var x :| x in some && CoreOf(x) == Some(c);
        assert x in all;
      }
      if c in CoresOf(b) {
        assert b in all;
      }
    }
  }

  // ---------- as the loop counts ----------

  /** The maps `seenPkgs` and `seenCores`, and the block being read. */
  class Counter {
    var seenCores: set<Core>
    var seenPkgs: set<string>
    var pkg: Option<string>
    var core: Option<string>
    var logical: nat
    ghost var closed: seq<seq<Item>>
    ghost var open: seq<Item>

    ghost predicate Valid()
      reads this
    {
      && seenPkgs == Packages(AsSet(closed)) && seenCores == Cores(AsSet(closed))
      && pkg == PackageIn(open) && core == CoreIn(open)
    }

    constructor ()
      ensures Valid() && closed == [] && open == [] && logical == 0
    {
      seenCores, seenPkgs, pkg, core, logical, closed, open := {}, {}, None, None, 0, [], [];
    }

    /** Close the block: enter what it names, forget what it said. */
    method Flush()
      requires Valid()
      modifies this
      ensures Valid() && closed == old(closed) + [old(open)] && open == [] && logical == old(logical)
    {
      OneMoreBlock(closed, open);
      if pkg.Some? {
        seenPkgs := seenPkgs + {pkg.value};
        if core.Some? {
          seenCores := seenCores + {Core(pkg.value, core.value)};
        }
      }
      closed := closed + [open];
      open := [];
      pkg, core := None, None;
    }

    /** One "key : value" line. */
    method ReadPair(key: string, v: string)
      requires Valid()
      modifies this
      ensures Valid()
      ensures PairItem(key, v).Processor? ==>
        closed == old(closed) + [old(open)] && open == [Processor] && logical == old(logical) + 1
      ensures !PairItem(key, v).Processor? ==>
        closed == old(closed) && open == old(open) + [PairItem(key, v)] && logical == old(logical)
    {
      ghost var item := PairItem(key, v);
      OneMoreItem(open, item);
      OneMoreItem([], Processor);
      match key {
        case "processor" =>
          Flush();
          logical := logical + 1;
        case "physical id" =>
          pkg := Some(v);
        case "core id" =>
          core := Some(v);
        case _ =>
      }
      open := open + [item];
    }

    method ReadLine(line: string)
      requires Valid()
      modifies this
      ensures Valid()
      ensures ItemOf(line).Processor? ==>
        closed == old(closed) + [old(open)] && open == [Processor] && logical == old(logical) + 1
      ensures !ItemOf(line).Processor? ==>
        closed == old(closed) && open == old(open) + [ItemOf(line)] && logical == old(logical)
    {
      var h := Cut(line, ':');
      if h.found {
        ReadPair(TrimSpace(h.before), TrimSpace(h.after));
      } else {
        OneMoreItem(open, Other);
        open := open + [Other];
      }
    }

    /** The counter has read `items` and nothing else. */
    ghost predicate HasRead(items: seq<Item>)
      reads this
    {
      Valid() && closed + [open] == Blocks(items) && logical == |closed|
    }

    method Advance(line: string, ghost items: seq<Item>)
      requires HasRead(items)
      modifies this
      ensures HasRead(items + [ItemOf(line)])
    {
      OneMoreLine(closed, open, items, ItemOf(line));
      ReadLine(line);
    }

    /** There is no "processor" line after the last block to close it. */
    method Finish(ghost items: seq<Item>) returns (t: Topology)
      requires HasRead(items)
      modifies this
      ensures t == TopologyOf(Blocks(items))
    {
      Flush();
      t := Result();
    }

    method Result() returns (t: Topology)
      ensures t == Counts(logical, |seenCores|, |seenPkgs|)
    {
      t := Topology(logical, |seenCores|, |seenPkgs|);
      if t.physicalCores == 0 {
        t := t.(physicalCores := t.logical);
      }
      if t.sockets == 0 && t.logical > 0 {
        t := t.(sockets := 1);
      }
    }
  }

  lemma OneMoreItem(block: seq<Item>, item: Item)
    ensures PackageIn(block + [item]) == if item.Package? then Some(item.v) else PackageIn(block)
    ensures CoreIn(block + [item]) == if item.CoreId? then Some(item.v) else CoreIn(block)
    ensures [] + [item] == [item]
  {
    assert (block + [item])[..|block|] == block;
  }

  lemma OneMoreLine(closed: seq<seq<Item>>, open: seq<Item>, items: seq<Item>, item: Item)
    requires closed + [open] == Blocks(items)
    ensures item.Processor? ==> closed + [open] + [[item]] == Blocks(items + [item])
    ensures !item.Processor? ==> closed + [open + [item]] == Blocks(items + [item])
  {
    OneMoreInBlock(items, item);
    ExtendLast(closed, open, [item]);
  }

  method ParseCPUTopology(content: string) returns (t: Topology)
    ensures t == TopologyOf(Blocks(Items(Lines(content))))
  {
    var c := new Counter();
    var lines := Lines(content);
    ghost var items := Items(lines);
    for n := 0 to |lines|
      invariant c.HasRead(items[..n])
    {
      assert items[..n + 1] == items[..n] + [items[n]];
      c.Advance(lines[n], items[..n]);
    }
    assert items[..|lines|] == items;
    t := c.Finish(items);
  }

  // ---------- how many CPUs there are ----------

  /** How many lines are "processor" lines. */
  function Processors(items: seq<Item>): nat {
    if items == [] then 0 else Processors(items[..|items| - 1]) + if items[|items| - 1].Processor? then 1 else 0
  }

  lemma {:induction false} OneBlockPerProcessor(items: seq<Item>)
    ensures |Blocks(items)| == Processors(items) + 1
  {
    if items == [] {
    } else {
      OneBlockPerProcessor(items[..|items| - 1]);
    }
  }

  /** The number of logical CPUs there seem to be when /proc/cpuinfo lists none: from two samples of
      /proc/stat, the per-core lines of the first - and one too many when the aggregate stood still. */
  ghost function CoresSampled(ts1: seq<Ticks>, ts2: seq<Ticks>): nat
    requires |ts1| <= |ts2|
  {
    if ts1 == [] then 0
    else if Total64(ts1[0]) == Total64(ts2[0]) then |ts1|
    else |ts1| - 1
  }

  /** What GetCPU makes of its three files as far as counts go. It fails exactly when the samples do
      not parse or the second has fewer lines. */
  method CoreCounts(stat1: string, stat2: string, cpuinfo: string) returns (r: Result<Topology>)
    ensures r.Ok? <==>
      Sample(Lines(stat1)).Ok? && Sample(Lines(stat2)).Ok?
      && |Sample(Lines(stat1)).value| <= |Sample(Lines(stat2)).value|
    ensures r.Ok? && Processors(Items(Lines(cpuinfo))) > 0 ==>
      r.value.logical == Processors(Items(Lines(cpuinfo))) && r.value == TopologyOf(Blocks(Items(Lines(cpuinfo))))
    ensures r.Ok? && Processors(Items(Lines(cpuinfo))) == 0 ==>
      var n := CoresSampled(Sample(Lines(stat1)).value, Sample(Lines(stat2)).value);
      r.value == Topology(n, n, 1)
  {
    var cpu := new CPU();
    var ok := cpu.ProcessStatFileContents(stat1, stat2);
    if !ok {
      return Err;
    }
    ghost var ts1, ts2 := Sample(Lines(stat1)).value, Sample(Lines(stat2)).value;
    var logicalFromStat := |cpu.coreAvg|;
    CoreListLength(ts1, ts2);
    var t := ParseCPUTopology(cpuinfo);
    OneBlockPerProcessor(Items(Lines(cpuinfo)));
    if t.logical == 0 {
      t := Topology(logicalFromStat, logicalFromStat, 1);
    }
    r := Ok(t);
  }

  lemma CoreListLength(ts1: seq<Ticks>, ts2: seq<Ticks>)
    requires |ts1| <= |ts2|
    ensures |CoreList(ts1, ts2, |ts1|)| == CoresSampled(ts1, ts2)
  {
    if ts1 == [] {
    } else {
      CoreListAligns(ts1, ts2, |ts1|);
      TotalMovesIff(ts1[0], ts2[0]);
    }
  }

  // ---------- the order of blocks ----------

  function Flatten(blocks: seq<seq<Item>>): seq<Item> {
    if blocks == [] then [] else Flatten(blocks[..|blocks| - 1]) + blocks[|blocks| - 1]
  }

  predicate NoProcessor(items: seq<Item>) {
    forall i | 0 <= i < |items| :: !items[i].Processor?
  }

  predicate IsBlock(b: seq<Item>) {
    b != [] && b[0].Processor? && NoProcessor(b[1..])
  }

  lemma ExtendTwice(blocks: seq<seq<Item>>, a: seq<Item>, b: seq<Item>)
    requires |blocks| >= 1
    ensures Extend(Extend(blocks, a), b) == Extend(blocks, a + b)
    ensures Extend(blocks, []) == blocks
  {
    var last := blocks[|blocks| - 1];
    assert last + a + b == last + (a + b) && last + [] == last;
  }

  lemma OneMoreInBlock(items: seq<Item>, item: Item)
    ensures Blocks(items + [item]) ==
      if item.Processor? then Blocks(items) + [[item]] else Extend(Blocks(items), [item])
  {
    var all := items + [item];
    assert all[..|all| - 1] == items && all[|all| - 1] == item;
  }

  lemma {:induction false} MoreOfABlock(items: seq<Item>, more: seq<Item>)
    requires NoProcessor(more)
    ensures Blocks(items + more) == Extend(Blocks(items), more)
  {
    if more == [] {
      assert items + more == items;
      ExtendTwice(Blocks(items), [], []);
    } else {
      var n := |more| - 1;
      var init, last := more[..n], more[n];
      assert init + [last] == more;
      assert items + init + [last] == items + more;
      MoreOfABlock(items, init);
      OneMoreInBlock(items + init, last);
      ExtendTwice(Blocks(items), init, [last]);
    }
  }

  lemma OneMoreWholeBlock(items: seq<Item>, b: seq<Item>)
    requires IsBlock(b)
    ensures Blocks(items + b) == Blocks(items) + [b]
  {
    assert items + [b[0]] + b[1..] == items + b && [b[0]] + b[1..] == b;
    OneMoreInBlock(items, b[0]);
    MoreOfABlock(items + [b[0]], b[1..]);
    ExtendLast(Blocks(items), [b[0]], b[1..]);
  }

  lemma ExtendLast(blocks: seq<seq<Item>>, last: seq<Item>, more: seq<Item>)
    ensures Extend(blocks + [last], more) == blocks + [last + more]
  {
    assert (blocks + [last])[..|blocks|] == blocks;
  }

  lemma FirstBlock(pre: seq<Item>)
    requires NoProcessor(pre)
    ensures Blocks(pre) == [pre]
  {
    MoreOfABlock([], pre);
    assert [] + pre == pre;
    ExtendLast([], [], pre);
    assert Blocks([]) == [] + [[]];
  }

  /** Cutting the lines into blocks recovers the blocks they were put together from. */
  lemma {:induction false} BlocksOfFlatten(pre: seq<Item>, blocks: seq<seq<Item>>)
    requires NoProcessor(pre) && forall b :: b in blocks ==> IsBlock(b)
    ensures Blocks(pre + Flatten(blocks)) == [pre] + blocks
  {
    if blocks == [] {
      FirstBlock(pre);
      assert pre + Flatten(blocks) == pre;
    } else {
      var n := |blocks| - 1;
      var init, b := blocks[..n], blocks[n];
      var before := Flatten(init);
      assert pre + before + b == pre + (before + b);
      assert [pre] + init + [b] == [pre] + blocks;
      BlocksOfFlatten(pre, init);
      assert b in blocks;
      OneMoreWholeBlock(pre + before, b);
    }
  }

  /** Putting the processor blocks in another order changes nothing. */
  lemma BlockOrderDoesNotMatter(pre: seq<Item>, blocks: seq<seq<Item>>, blocks': seq<seq<Item>>)
    requires NoProcessor(pre) && (forall b :: b in blocks ==> IsBlock(b)) && multiset(blocks) == multiset(blocks')
    ensures TopologyOf(Blocks(pre + Flatten(blocks))) == TopologyOf(Blocks(pre + Flatten(blocks')))
  {
    forall b ensures b in blocks <==> b in blocks' {
      assert b in blocks <==> b in multiset(blocks);
      assert b in blocks' <==> b in multiset(blocks');
    }
    assert |blocks| == |multiset(blocks)| == |multiset(blocks')| == |blocks'|;
    BlocksOfFlatten(pre, blocks);
    BlocksOfFlatten(pre, blocks');
    assert AsSet([pre] + blocks) == AsSet([pre] + blocks');
  }

  // ---------- bounds ----------

  /** Every key is there, and no two are the same. */
  ghost predicate AllDifferent<K(!new)>(keys: seq<Option<K>>) {
    && (forall i | 0 <= i < |keys| :: keys[i].Some?)
    && forall i, j | 0 <= i < j < |keys| :: keys[i] != keys[j]
  }

  function Values<K>(keys: seq<Option<K>>): set<K> {
    set k | k in keys && k.Some? :: k.value
  }

  /** No more values than keys, and as many only when they are all there and different. */
  lemma {:induction false} CountValues<K(!new)>(keys: seq<Option<K>>)
    ensures |Values(keys)| <= |keys|
    ensures |Values(keys)| == |keys| <==> AllDifferent(keys)
  {
    if keys == [] {
      assert Values(keys) == {};
    } else {
      var init, last := keys[..|keys| - 1], keys[|keys| - 1];
      assert keys == init + [last];
      CountValues(init);
      ValuesStep(init, last);
      AllDifferentStep(init, last);
    }
  }

  lemma ValuesStep<K>(init: seq<Option<K>>, last: Option<K>)
    ensures Values(init + [last]) == Values(init) + if last.Some? then {last.value} else {}
    ensures |Values(init + [last])|
         == |Values(init)| + if last.Some? && last.value !in Values(init) then 1 else 0
  {
    assert forall k :: k in init + [last] <==> k in init || k == last;
    var before, after := Values(init), Values(init + [last]);
    if last.None? || last.value in before {
      assert after == before;
    } else {
      assert after == before + {last.value};
    }
  }

  lemma AllDifferentStep<K(!new)>(init: seq<Option<K>>, last: Option<K>)
    ensures AllDifferent(init + [last]) <==> AllDifferent(init) && last.Some? && last.value !in Values(init)
  {
    var keys := init + [last];
    assert keys[|init|] == last && forall i | 0 <= i < |init| :: keys[i] == init[i];
    if AllDifferent(keys) {
      assert forall i | 0 <= i < |init| :: keys[i] != keys[|init|];
      assert last.value !in Values(init);
      assert forall i, j | 0 <= i < j < |init| :: keys[i] != keys[j];
    } else if AllDifferent(init) && last.Some? && last.value !in Values(init) {
      assert forall i | 0 <= i < |init| :: init[i] in init;
      assert AllDifferent(keys);
    }
  }

  function PackageKeys(blocks: seq<seq<Item>>): seq<Option<string>> {
    seq(|blocks|, i requires 0 <= i < |blocks| => PackageIn(blocks[i]))
  }

  function CoreKeys(blocks: seq<seq<Item>>): seq<Option<Core>> {
    seq(|blocks|, i requires 0 <= i < |blocks| => CoreOf(blocks[i]))
  }

  lemma KeysAreValues(blocks: seq<seq<Item>>)
    ensures Packages(AsSet(blocks)) == Values(PackageKeys(blocks))
    ensures Cores(AsSet(blocks)) == Values(CoreKeys(blocks))
  {
    forall p ensures p in Packages(AsSet(blocks)) <==> p in Values(PackageKeys(blocks)) {
      if p in Packages(AsSet(blocks)) {
        var i :| 0 <= i < |blocks| && PackageIn(blocks[i]) == Some(p);
        assert PackageKeys(blocks)[i] == Some(p);
      }
    }
    forall c ensures c in Cores(AsSet(blocks)) <==> c in Values(CoreKeys(blocks)) {
      if c in Cores(AsSet(blocks)) {
        var i :| 0 <= i < |blocks| && CoreOf(blocks[i]) == Some(c);
        assert CoreKeys(blocks)[i] == Some(c);
      }
    }
  }

  /** Every package a block names comes with a core, so there are no more packages than cores. */
  lemma {:induction false} PackagesHaveCores(cores: set<Core>, pkgs: set<string>)
    requires forall p :: p in pkgs ==> exists c :: c in cores && c.pkg == p
    ensures |pkgs| <= |cores|
    decreases pkgs
  {
    if pkgs == {} {
    } else {
      var p :| p in pkgs;
      var c :| c in cores && c.pkg == p;
      forall q | q in pkgs - {p} ensures exists d :: d in cores - {c} && d.pkg == q {
        var d :| d in cores && d.pkg == q;
        assert d in cores - {c};
      }
      PackagesHaveCores(cores - {c}, pkgs - {p});
    }
  }

  /** For ANY /proc/cpuinfo with a processor: sockets and physical cores are positive and exceed the
      logical count by one at most - exactly when every block, the one before the first processor
      included, names a package (a core) and no two blocks name the same. */
  lemma TopologyBounds(items: seq<Item>)
    requires |Blocks(items)| > 1
    ensures var bs, t := Blocks(items), TopologyOf(Blocks(items));
      && t.logical == |bs| - 1
      && 1 <= t.sockets <= t.logical + 1 && 1 <= t.physicalCores <= t.logical + 1
      && (t.sockets > t.logical <==> AllDifferent(PackageKeys(bs)))
      && (t.physicalCores > t.logical <==> AllDifferent(CoreKeys(bs)))
  {
    var bs := Blocks(items);
    KeysAreValues(bs);
    CountValues(PackageKeys(bs));
    CountValues(CoreKeys(bs));
  }

  /** A sane /proc/cpuinfo, which says nothing about topology before its first processor, shows no
      more of either than logical CPUs. */
  lemma NoLeadingTopology(items: seq<Item>)
    requires |Blocks(items)| > 1 && PackageIn(Blocks(items)[0]).None?
    ensures var t := TopologyOf(Blocks(items)); t.sockets <= t.logical && t.physicalCores <= t.logical
  {
    TopologyBounds(items);
    assert PackageKeys(Blocks(items))[0].None? && CoreKeys(Blocks(items))[0].None?;
  }

  /** No more sockets than cores when every block that names a package names a core. */
  lemma SocketsHaveCores(items: seq<Item>)
    requires |Blocks(items)| > 1
    requires forall b :: b in Blocks(items) && PackageIn(b).Some? ==> CoreIn(b).Some?
    ensures var t := TopologyOf(Blocks(items)); t.sockets <= t.physicalCores
  {
    var bs := Blocks(items);
    var pkgs, cores := Packages(AsSet(bs)), Cores(AsSet(bs));
    forall p | p in pkgs ensures exists c :: c in cores && c.pkg == p {
      var b :| b in AsSet(bs) && PackageIn(b) == Some(p);
      assert CoreOf(b).Some? && CoreOf(b).value in cores;
    }
    PackagesHaveCores(cores, pkgs);
  }

  lemma TwoKeys<K(!new)>(keys: seq<Option<K>>)
    requires |keys| == 2 && keys[0].Some? && keys[1].Some? && keys[0] != keys[1]
    ensures AllDifferent(keys)
  {
  }

  /** The smallest file that shows more sockets and cores than logical CPUs: topology before the
      one processor, and another package in its block. */
  lemma LeadingBlockCounts(pre: seq<Item>, block: seq<Item>)
    requires NoProcessor(pre) && IsBlock(block) && CoreOf(pre).Some? && CoreOf(block).Some?
    requires PackageIn(pre) != PackageIn(block)
    ensures TopologyOf(Blocks(pre + Flatten([block]))) == Topology(1, 2, 2)
  {
    BlocksOfFlatten(pre, [block]);
    assert [pre] + [block] == [pre, block];
    TopologyBounds(pre + Flatten([block]));
    TwoKeys(PackageKeys([pre, block]));
    TwoKeys(CoreKeys([pre, block]));
  }

  // ---------- from the text of /proc/cpuinfo to the counts ----------

  /** One processor's block: the lines that count, and others. */
  datatype CpuInfo = CpuInfo(number: string, topology: Option<Core>, rest: seq<string>)

  /** A "key : value" line as the kernel prints it. */
  function PairLine(key: string, v: string): string {
    Paired(key, "\t", " ", v)
  }

  function Paired(key: string, pad: string, gap: string, v: string): string {
    key + pad + [':'] + (gap + v)
  }

  function InfoLines(c: CpuInfo): seq<string> {
    [PairLine("processor", c.number)] + TopologyLines(c.topology) + c.rest
  }

  function AllInfoLines(cs: seq<CpuInfo>): seq<string> {
    if cs == [] then [] else AllInfoLines(cs[..|cs| - 1]) + InfoLines(cs[|cs| - 1])
  }

  predicate IsValue(v: string) {
    Trimmed(v) && '\n' !in v
  }

  /** A line of none of the three kinds that count. */
  predicate IsOther(line: string) {
    '\n' !in line
    && var h := Cut(line, ':');
    !h.found || TrimSpace(h.before) !in {"processor", "physical id", "core id"}
  }

  predicate WellFormed(c: CpuInfo) {
    && IsValue(c.number) && (c.topology.Some? ==> IsValue(c.topology.value.pkg) && IsValue(c.topology.value.core))
    && forall i | 0 <= i < |c.rest| :: IsOther(c.rest[i])
  }

  lemma PairedCuts(key: string, pad: string, gap: string, v: string)
    requires Trimmed(key) && ':' !in key && IsBlank(pad) && ':' !in pad && IsBlank(gap) && Trimmed(v)
    ensures var h := Cut(Paired(key, pad, gap, v), ':');
      h.found && TrimSpace(h.before) == key && TrimSpace(h.after) == v
  {
    CutAtFirst(key + pad, gap + v, ':');
    TrimPadded("", key, pad);
    TrimPadded(gap, v, "");
    assert "" + key + pad == key + pad && gap + v + "" == gap + v;
  }

  lemma PairLineItem(key: string, v: string)
    requires Trimmed(key) && ':' !in key && '\n' !in key && IsValue(v)
    ensures ItemOf(PairLine(key, v)) == PairItem(key, v)
    ensures '\n' !in PairLine(key, v)
  {
    PairedCuts(key, "\t", " ", v);
  }

  lemma ProcessorLine(v: string)
    requires IsValue(v)
    ensures ItemOf(PairLine("processor", v)) == Processor && '\n' !in PairLine("processor", v)
  {
    PairLineItem("processor", v);
  }

  lemma PackageLine(v: string)
    requires IsValue(v)
    ensures ItemOf(PairLine("physical id", v)) == Package(v) && '\n' !in PairLine("physical id", v)
  {
    PairLineItem("physical id", v);
  }

  lemma CoreLine(v: string)
    requires IsValue(v)
    ensures ItemOf(PairLine("core id", v)) == CoreId(v) && '\n' !in PairLine("core id", v)
  {
    PairLineItem("core id", v);
  }

  lemma OtherItem(line: string)
    requires IsOther(line)
    ensures ItemOf(line) == Other
  {
  }

  lemma {:induction false} OthersSayNothing(block: seq<Item>, others: seq<Item>)
    requires forall i | 0 <= i < |others| :: others[i] == Other
    ensures PackageIn(block + others) == PackageIn(block) && CoreIn(block + others) == CoreIn(block)
  {
    if others == [] {
      assert block + others == block;
    } else {
      var n := |others| - 1;
      OthersSayNothing(block, others[..n]);
      OneMoreItem(block + others[..n], others[n]);
      assert block + others[..n] + [others[n]] == block + others;
    }
  }

  /** What the lines of a block that count contribute. */
  function TopologyItems(topology: Option<Core>): seq<Item> {
    [Processor] + match topology case None => [] case Some(core) => [Package(core.pkg), CoreId(core.core)]
  }

  function TopologyLines(topology: Option<Core>): seq<string> {
    match topology
    case None => []
    case Some(core) => [PairLine("physical id", core.pkg), PairLine("core id", core.core)]
  }

  lemma ItemsConcat(a: seq<string>, b: seq<string>)
    ensures Items(a + b) == Items(a) + Items(b)
  {
  }

  lemma NumberItems(number: string)
    requires IsValue(number)
    ensures Items([PairLine("processor", number)]) == [Processor]
    ensures forall l :: l in [PairLine("processor", number)] ==> '\n' !in l
  {
    ProcessorLine(number);
  }

  lemma ItemsTwo(a: string, b: string)
    ensures Items([a, b]) == [ItemOf(a), ItemOf(b)]
  {
  }

  lemma CoreLineItems(core: Core)
    requires IsValue(core.pkg) && IsValue(core.core)
    ensures Items(TopologyLines(Some(core))) == [Package(core.pkg), CoreId(core.core)]
    ensures forall l :: l in TopologyLines(Some(core)) ==> '\n' !in l
  {
    PackageLine(core.pkg);
    CoreLine(core.core);
    ItemsTwo(PairLine("physical id", core.pkg), PairLine("core id", core.core));
  }

  lemma TopologyLineItems(topology: Option<Core>)
    requires topology.Some? ==> IsValue(topology.value.pkg) && IsValue(topology.value.core)
    ensures [Processor] + Items(TopologyLines(topology)) == TopologyItems(topology)
    ensures forall l :: l in TopologyLines(topology) ==> '\n' !in l
  {
    if topology.Some? {
      CoreLineItems(topology.value);
    }
  }

  lemma InfoBlockItems(c: CpuInfo)
    requires WellFormed(c)
    ensures Items(InfoLines(c)) == TopologyItems(c.topology) + Items(c.rest)
    ensures forall i | 0 <= i < |c.rest| :: Items(c.rest)[i] == Other
    ensures forall l :: l in InfoLines(c) ==> '\n' !in l
  {
    var first := [PairLine("processor", c.number)];
    NumberItems(c.number);
    TopologyLineItems(c.topology);
    ItemsConcat(first, TopologyLines(c.topology));
    ItemsConcat(first + TopologyLines(c.topology), c.rest);
    forall i | 0 <= i < |c.rest| ensures Items(c.rest)[i] == Other {
      OtherItem(c.rest[i]);
    }
  }

  lemma BlockShape(topology: Option<Core>, others: seq<Item>)
    requires forall i | 0 <= i < |others| :: others[i] == Other
    ensures var block := TopologyItems(topology) + others;
      && IsBlock(block) && CoreOf(block) == topology
      && PackageIn(block) == if topology.Some? then Some(topology.value.pkg) else None
  {
    OthersSayNothing(TopologyItems(topology), others);
    BlockItems(topology);
  }

  /** A printed block is one block, and names the core it was printed with or none. */
  lemma InfoBlock(c: CpuInfo)
    requires WellFormed(c)
    ensures IsBlock(Items(InfoLines(c)))
    ensures PackageIn(Items(InfoLines(c))) == if c.topology.Some? then Some(c.topology.value.pkg) else None
    ensures CoreOf(Items(InfoLines(c))) == c.topology
  {
    InfoBlockItems(c);
    BlockShape(c.topology, Items(c.rest));
  }

  lemma BlockItems(topology: Option<Core>)
    ensures PackageIn(TopologyItems(topology)) == if topology.Some? then Some(topology.value.pkg) else None
    ensures CoreIn(TopologyItems(topology)) == if topology.Some? then Some(topology.value.core) else None
  {
    OneMoreItem([], Processor);
    if topology.Some? {
      var pkg, core := Package(topology.value.pkg), CoreId(topology.value.core);
      OneMoreItem([Processor], pkg);
      OneMoreItem([Processor] + [pkg], core);
      assert TopologyItems(topology) == [Processor] + [pkg] + [core];
    } else {
      assert TopologyItems(topology) == [] + [Processor];
    }
  }

  function InfoBlocks(cs: seq<CpuInfo>): seq<seq<Item>> {
    seq(|cs|, i requires 0 <= i < |cs| => Items(InfoLines(cs[i])))
  }

  lemma {:induction false} InfoItems(cs: seq<CpuInfo>)
    requires forall i | 0 <= i < |cs| :: WellFormed(cs[i])
    ensures Items(AllInfoLines(cs)) == Flatten(InfoBlocks(cs))
    ensures forall l :: l in AllInfoLines(cs) ==> '\n' !in l
  {
    if cs == [] {
    } else {
      var n := |cs| - 1;
      InfoItems(cs[..n]);
      InfoBlockItems(cs[n]);
      ItemsConcat(AllInfoLines(cs[..n]), InfoLines(cs[n]));
      assert InfoBlocks(cs)[..n] == InfoBlocks(cs[..n]);
    }
  }

  /** The cores a machine has, and the packages they are on. */
  function InfoCores(cs: seq<CpuInfo>): set<Core> {
    set c | c in cs && c.topology.Some? :: c.topology.value
  }

  function InfoPackages(cs: seq<CpuInfo>): set<string> {
    set c | c in cs && c.topology.Some? :: c.topology.value.pkg
  }

  lemma InfoBlockAt(cs: seq<CpuInfo>, i: nat)
    requires i < |cs| && WellFormed(cs[i])
    ensures var b := InfoBlocks(cs)[i];
      && IsBlock(b) && CoreOf(b) == cs[i].topology
      && PackageIn(b) == if cs[i].topology.Some? then Some(cs[i].topology.value.pkg) else None
  {
    InfoBlock(cs[i]);
  }

  lemma BlocksAre<T>(first: T, bs: seq<T>)
    ensures forall i | 0 <= i < |bs| :: bs[i] in AsSet([first] + bs)
    ensures forall b :: b in AsSet([first] + bs) ==> b == first || exists i :: 0 <= i < |bs| && bs[i] == b
  {
    assert forall b :: b in [first] + bs <==> b == first || b in bs;
  }

  lemma InfoSets(cs: seq<CpuInfo>)
    requires forall i | 0 <= i < |cs| :: WellFormed(cs[i])
    ensures Cores(AsSet([[]] + InfoBlocks(cs))) == InfoCores(cs)
    ensures Packages(AsSet([[]] + InfoBlocks(cs))) == InfoPackages(cs)
  {
    var bs := InfoBlocks(cs);
    BlocksAre([], bs);
    forall i | 0 <= i < |cs|
      ensures PackageIn(bs[i]) == if cs[i].topology.Some? then Some(cs[i].topology.value.pkg) else None
      ensures CoreOf(bs[i]) == cs[i].topology
    {
      InfoBlockAt(cs, i);
    }
    SameSets(cs, bs, AsSet([[]] + bs));
  }

  lemma SameSets(cs: seq<CpuInfo>, bs: seq<seq<Item>>, all: set<seq<Item>>)
    requires |bs| == |cs|
    requires forall i | 0 <= i < |cs| :: bs[i] in all && CoreOf(bs[i]) == cs[i].topology
    requires forall i | 0 <= i < |cs| ::
      PackageIn(bs[i]) == if cs[i].topology.Some? then Some(cs[i].topology.value.pkg) else None
    requires forall b :: b in all ==> b == [] || exists i :: 0 <= i < |cs| && bs[i] == b
    ensures Cores(all) == InfoCores(cs) && Packages(all) == InfoPackages(cs)
  {
    forall c ensures c in Cores(all) <==> c in InfoCores(cs) {
      if c in Cores(all) {
        var i :| 0 <= i < |cs| && CoreOf(bs[i]) == Some(c);
        assert cs[i] in cs;
      }
      if c in InfoCores(cs) {
        var i :| 0 <= i < |cs| && cs[i].topology == Some(c);
        assert bs[i] in all;
      }
    }
    forall p ensures p in Packages(all) <==> p in InfoPackages(cs) {
      if p in Packages(all) {
        var i :| 0 <= i < |cs| && PackageIn(bs[i]) == Some(p);
        assert cs[i] in cs;
      }
      if p in InfoPackages(cs) {
        var i :| 0 <= i < |cs| && cs[i].topology.Some? && cs[i].topology.value.pkg == p;
        assert bs[i] in all;
      }
    }
  }

  lemma {:induction false} InfoLinesAreThere(cs: seq<CpuInfo>)
    ensures cs != [] ==> AllInfoLines(cs) != []
  {
    if cs == [] {
    } else {
      assert |InfoLines(cs[|cs| - 1])| > 0;
    }
  }

  lemma InfoBlocksAreBlocks(cs: seq<CpuInfo>)
    requires forall i | 0 <= i < |cs| :: WellFormed(cs[i])
    ensures Blocks(Flatten(InfoBlocks(cs))) == [[]] + InfoBlocks(cs)
  {
    forall b | b in InfoBlocks(cs) ensures IsBlock(b) {
      var i :| 0 <= i < |cs| && InfoBlocks(cs)[i] == b;
      InfoBlockAt(cs, i);
    }
    BlocksOfFlatten([], InfoBlocks(cs));
    assert [] + Flatten(InfoBlocks(cs)) == Flatten(InfoBlocks(cs));
  }

  lemma InfoParses(cs: seq<CpuInfo>)
    requires cs != [] && forall i | 0 <= i < |cs| :: WellFormed(cs[i])
    ensures Blocks(Items(Lines(JoinLines(AllInfoLines(cs))))) == [[]] + InfoBlocks(cs)
  {
    InfoItems(cs);
    InfoLinesAreThere(cs);
    SplitJoin(AllInfoLines(cs), '\n');
    InfoBlocksAreBlocks(cs);
  }

  lemma SomeTopology(cs: seq<CpuInfo>)
    ensures (forall c :: c in cs ==> c.topology.None?) ==> InfoCores(cs) == {} && InfoPackages(cs) == {}
    ensures !(forall c :: c in cs ==> c.topology.None?) ==> |InfoCores(cs)| > 0 && |InfoPackages(cs)| > 0
  {
    if c :| c in cs && c.topology.Some? {
      assert c.topology.value in InfoCores(cs) && c.topology.value.pkg in InfoPackages(cs);
    }
  }

  /** Parsing a printed /proc/cpuinfo: as many CPUs as blocks, the distinct cores and packages they
      name - and when none names any, every CPU a core of its own on one socket. */
  lemma PrintedTopology(cs: seq<CpuInfo>)
    requires cs != [] && forall i | 0 <= i < |cs| :: WellFormed(cs[i])
    ensures var t := TopologyOf(Blocks(Items(Lines(JoinLines(AllInfoLines(cs))))));
      && t.logical == |cs|
      && (if forall c :: c in cs ==> c.topology.None? then t.physicalCores == |cs| && t.sockets == 1
          else t.physicalCores == |InfoCores(cs)| && t.sockets == |InfoPackages(cs)|)
  {
    InfoParses(cs);
    InfoSets(cs);
    SomeTopology(cs);
  }
}
