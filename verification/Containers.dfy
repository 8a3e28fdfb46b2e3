/** From discovered cgroups to reported containers: one shared sampling window, parallel lists of
    readings, and the lookup of a single container. */
module Containers {
  import opened Outcomes
  import opened Text
  import Cgroup
  import Discovery
  import Memory

  datatype Metadata = Metadata(name: string, image: string, state: string)

  datatype Cpu = Cpu(coresUsed: real, percentOfHost: real, percentOfLimit: real,
                     limited: bool, allocatedCores: real, usageSeconds: real)

  /** What reading a container's files yields besides its CPU sample. */
  datatype Stats = Stats(cpu: Cpu, frozen: bool, figures: string)

  datatype Container = Container(id: string, runtime: string, cgroupPath: string, pid: nat,
                                 name: string, image: string, state: string, metadataAvailable: bool,
                                 cpu: Cpu, figures: string, layer: Option<string>)

  /** One reading of a cumulative CPU counter. A malformed file panics. */
  datatype Reading = Seconds(s: real) | Unreadable | Malformed

  /** Everything outside the pipeline: the runtime's metadata, the host's files, the two readings of
      each counter, the containers' files, the writable layers, and the clock. */
  datatype World = World(
    metadata: Option<map<string, Metadata>>,
    first: Cgroup.Dirs -> Reading,
    second: Cgroup.Dirs -> Reading,
    cancelled: bool,
    elapsed: real,
    stat: Option<string>,
    meminfo: Option<string>,
    stats: Discovery.Ref -> Option<Stats>,
    measureLayers: bool,
    layer: nat -> Result<string>)

  // ---------- the host ----------

  /** A per-CPU line of /proc/stat: "cpu" and a digit. */
  predicate IsCoreLine(line: string) {
    |line| > 3 && HasPrefix(line, "cpu") && IsDigit(line[3])
  }

  function CoreLines(lines: seq<string>): nat {
    if lines == [] then 0 else CoreLines(lines[..|lines| - 1]) + if IsCoreLine(lines[|lines| - 1]) then 1 else 0
  }

  function HostCores(w: World): nat {
    match w.stat case None => 0 case Some(content) => CoreLines(Lines(content))
  }

  /** /proc/meminfo is there but holds a used line without a number. */
  ghost predicate HostFails(w: World) {
    w.meminfo.Some? && Memory.MeminfoPanics(w.meminfo.value)
  }

  /** Where in a list `p` holds. */
  function Indices<T>(p: T -> bool, s: seq<T>): set<int> {
    set i | 0 <= i < |s| && p(s[i])
  }

  lemma IndicesStep<T>(p: T -> bool, s: seq<T>, x: T)
    ensures |Indices(p, s + [x])| == |Indices(p, s)| + if p(x) then 1 else 0
  {
    var before, after := Indices(p, s), Indices(p, s + [x]);
    assert |s| !in before;
    if p(x) {
      assert after == before + {|s|};
    } else {
      assert after == before;
    }
  }

  lemma {:induction false} CoreLinesCount(lines: seq<string>, isCore: string -> bool)
    requires forall l :: isCore(l) <==> IsCoreLine(l)
    ensures CoreLines(lines) == |Indices(isCore, lines)|
  {
    if lines == [] {
      assert Indices(isCore, lines) == {};
    } else {
      var n := |lines| - 1;
      CoreLinesCount(lines[..n], isCore);
      IndicesStep(isCore, lines[..n], lines[n]);
      assert lines == lines[..n] + [lines[n]];
    }
  }

  /** How many lines are per-CPU lines: "cpu" and a digit. */
  lemma CoreLinesAre(lines: seq<string>, isCore: string -> bool)
    requires forall l :: isCore(l) <==> |l| > 3 && l[0] == 'c' && l[1] == 'p' && l[2] == 'u' && '0' <= l[3] <= '9'
    ensures CoreLines(lines) == |Indices(isCore, lines)|
  {
    forall l ensures isCore(l) <==> IsCoreLine(l) {
      if |l| > 3 {
        assert HasPrefix(l, "cpu") <==> l[0] == 'c' && l[1] == 'p' && l[2] == 'u';
      }
    }
    CoreLinesCount(lines, isCore);
  }

  method CountStatCPUs(content: string) returns (n: nat)
    ensures n == CoreLines(Lines(content))
  {
    var lines := Lines(content);
    n := 0;
    for i := 0 to |lines|
      invariant n == CoreLines(lines[..i])
    {
      assert lines[..i + 1][..i] == lines[..i];
      if HasPrefix(lines[i], "cpu") && |lines[i]| > 3 && '0' <= lines[i][3] <= '9' {
        n := n + 1;
      }
    }
    assert lines[..|lines|] == lines;
  }

  /** The host's CPU count; its memory total goes into the containers' files' figures. A missing file
      is passed over, a malformed one panics. */
  method ReadHostInfo(w: World) returns (cores: Result<nat>)
    ensures cores.Err? <==> HostFails(w)
    ensures cores.Ok? ==> cores.value == HostCores(w)
  {
    var n := 0;
    if w.stat.Some? {
      n := CountStatCPUs(w.stat.value);
    }
    if w.meminfo.Some? {
      var m := Memory.ParseMeminfo(w.meminfo.value);
      if m.Err? {
        return Err;
      }
    }
    cores := Ok(n);
  }

  // ---------- one container ----------

  function Identified(ref: Discovery.Ref): Container {
    Container(ref.id, ref.runtime, ref.relPath, ref.pid, "", "", "", false, Cpu(0.0, 0.0, 0.0, false, 0.0, 0.0), "", None)
  }

  function Named(w: World, c: Container): Container {
    if w.metadata.Some? && c.id in w.metadata.value then
      var m := w.metadata.value[c.id];
      c.(name := m.name, image := m.image, state := m.state, metadataAvailable := true)
    else c
  }

  /** A counter that went backwards, or that could not be read twice, shows no usage. */
  function Sampled(cpu: Cpu, usage1: real, usage2: real, ok: bool, elapsed: real, hostCores: nat): Cpu {
    var out := if usage2 > 0.0 then cpu.(usageSeconds := usage2) else cpu;
    if !ok || elapsed <= 0.0 || usage2 < usage1 then out
    else
      var cores := (usage2 - usage1) / elapsed;
      out.(coresUsed := cores,
           percentOfHost := if hostCores > 0 then 100.0 * cores / hostCores as real else out.percentOfHost,
           percentOfLimit := if out.limited && out.allocatedCores > 0.0 then 100.0 * cores / out.allocatedCores
                             else out.percentOfLimit)
  }

  function SecondsOf(r: Reading): real {
    if r.Seconds? then r.s else 0.0
  }

  /** A reference's container, all of it read from that one reference; None when it has stopped. */
  function Assembled(w: World): Discovery.Ref -> Option<Container> {
    (ref: Discovery.Ref) =>
      match w.stats(ref)
      case None => None
      case Some(s) =>
        var c := Named(w, Identified(ref));
        var u1, u2 := w.first(ref.dirs), w.second(ref.dirs);
        Some(c.(state := if c.state != "" then c.state else if s.frozen then "paused" else "running",
                cpu := Sampled(s.cpu, SecondsOf(u1), SecondsOf(u2), u1.Seconds? && u2.Seconds?, w.elapsed, HostCores(w)),
                figures := s.figures,
                layer := if w.measureLayers && w.layer(ref.pid).Ok? then Some(w.layer(ref.pid).value) else None))
  }

  predicate LayerFails(w: World, ref: Discovery.Ref) {
    w.measureLayers && w.stats(ref).Some? && w.layer(ref.pid).Err?
  }

  /** The reference makes the whole call fail: a counter is malformed, or its layer is cut short. */
  predicate Fails(w: World, ref: Discovery.Ref) {
    || w.first(ref.dirs).Malformed? || w.second(ref.dirs).Malformed?
    || LayerFails(w, ref)
  }

  // ---------- the lookup ----------

  predicate IsExact(c: Container, query: string) {
    c.id == query || (c.name != "" && c.name == query)
  }

  /** `i` is the lowest exact match. */
  ghost predicate FirstExact(cs: seq<Container>, query: string, i: nat) {
    i < |cs| && IsExact(cs[i], query) && forall j | 0 <= j < i :: !IsExact(cs[j], query)
  }

  /** Nothing matches exactly, and `i` alone has the query for a prefix of its ID. */
  ghost predicate OnlyPrefix(cs: seq<Container>, query: string, i: nat) {
    && (forall j | 0 <= j < |cs| :: !IsExact(cs[j], query))
    && i < |cs| && HasPrefix(cs[i].id, query)
    && forall j | 0 <= j < |cs| && j != i :: !HasPrefix(cs[j].id, query)
  }

  method MatchContainer(cs: seq<Container>, query: string) returns (r: Result<nat>)
    ensures forall i: nat :: r == Ok(i) <==> query != "" && (FirstExact(cs, query, i) || OnlyPrefix(cs, query, i))
  {
    if query == "" {
      return Err;
    }
    for i := 0 to |cs|
      invariant forall j | 0 <= j < i :: !IsExact(cs[j], query)
    {
      if cs[i].id == query || (cs[i].name != "" && cs[i].name == query) {
        return Ok(i);
      }
    }
    var found := -1;
    for i := 0 to |cs|
      invariant -1 <= found < i
      invariant found >= 0 ==> HasPrefix(cs[found].id, query)
      invariant forall j | 0 <= j < i && j != found :: !HasPrefix(cs[j].id, query)
    {
      if HasPrefix(cs[i].id, query) {
        if found >= 0 {
          assert forall k: nat :: !OnlyPrefix(cs, query, k) by {
            forall k: nat ensures !OnlyPrefix(cs, query, k) {
              assert k != i || k != found;
            }
          }
          return Err;
        }
        found := i;
      }
    }
    if found < 0 {
      return Err;
    }
    return Ok(found);
  }

  // ---------- the pipeline ----------

  function Identify(w: World, refs: seq<Discovery.Ref>): (cs: seq<Container>)
    ensures |cs| == |refs|
  {
    seq(|refs|, i requires 0 <= i < |refs| => Named(w, Identified(refs[i])))
  }

  /** The references the call is about: all, or the one that matches. */
  ghost predicate Selects(w: World, refs: seq<Discovery.Ref>, query: Option<string>, selected: seq<Discovery.Ref>) {
    match query
    case None => selected == refs
    case Some(q) =>
      q != "" && exists i: nat ::
        i < |refs| && selected == [refs[i]]
        && (FirstExact(Identify(w, refs), q, i) || OnlyPrefix(Identify(w, refs), q, i))
  }

  method SampleAll(refs: seq<Discovery.Ref>, read: Cgroup.Dirs -> Reading)
    returns (usage: array<real>, ok: array<bool>, panicked: bool)
    ensures fresh(usage) && fresh(ok)
    ensures usage.Length == ok.Length == |refs|
    ensures panicked <==> exists i :: 0 <= i < |refs| && read(refs[i].dirs).Malformed?
    ensures !panicked ==> forall i | 0 <= i < |refs| ::
      usage[i] == SecondsOf(read(refs[i].dirs)) && ok[i] == read(refs[i].dirs).Seconds?
  {
    usage, ok := new real[|refs|](_ => 0.0), new bool[|refs|](_ => false);
    for i := 0 to |refs|
      invariant forall j | 0 <= j < i ::
        !read(refs[j].dirs).Malformed?
        && usage[j] == SecondsOf(read(refs[j].dirs)) && ok[j] == read(refs[j].dirs).Seconds?
    {
      var r := read(refs[i].dirs);
      if r.Malformed? {
        return usage, ok, true;
      }
      usage[i], ok[i] := SecondsOf(r), r.Seconds?;
    }
    panicked := false;
  }

  /** The last steps for one container whose files could be read. */
  method Finish(w: World, ref: Discovery.Ref, identified: Container, s: Stats, u1: real, ok1: bool, u2: real, ok2: bool,
                cores: nat)
    returns (r: Result<Container>)
    requires w.stats(ref) == Some(s) && identified == Named(w, Identified(ref)) && cores == HostCores(w)
    requires u1 == SecondsOf(w.first(ref.dirs)) && ok1 == w.first(ref.dirs).Seconds?
    requires u2 == SecondsOf(w.second(ref.dirs)) && ok2 == w.second(ref.dirs).Seconds?
    ensures r.Err? <==> w.measureLayers && w.layer(ref.pid).Err?
    ensures r.Ok? ==> Assembled(w)(ref) == Some(r.value)
  {
    var c := identified.(figures := s.figures);
    if c.state == "" {
      c := c.(state := if s.frozen then "paused" else "running");
    }
    if w.measureLayers {
      var layer := w.layer(ref.pid);
      if layer.Err? {
        return Err;
      }
      c := c.(layer := Some(layer.value));
    }
    return Ok(c.(cpu := Sampled(s.cpu, u1, u2, ok1 && ok2, w.elapsed, cores)));
  }

  /** The last stage: each container gets its files' figures and the readings at its own index. */
  method AssembleAll(w: World, refs: seq<Discovery.Ref>, cs: seq<Container>,
                     usage1: array<real>, ok1: array<bool>, usage2: array<real>, ok2: array<bool>, cores: nat)
    returns (r: Result<seq<Container>>)
    requires |cs| == |refs| == usage1.Length == ok1.Length == usage2.Length == ok2.Length
    requires cs == Identify(w, refs) && cores == HostCores(w)
    requires forall i | 0 <= i < |refs| ::
      && usage1[i] == SecondsOf(w.first(refs[i].dirs)) && ok1[i] == w.first(refs[i].dirs).Seconds?
      && usage2[i] == SecondsOf(w.second(refs[i].dirs)) && ok2[i] == w.second(refs[i].dirs).Seconds?
    ensures r.Err? <==> exists i :: 0 <= i < |refs| && LayerFails(w, refs[i])
    ensures r.Ok? ==> r.value == Collect(Assembled(w), refs)
  {
    var out := [];
    for i := 0 to |cs|
      invariant out == Collect(Assembled(w), refs[..i])
      invariant forall j | 0 <= j < i :: !LayerFails(w, refs[j])
    {
      CollectMore(Assembled(w), refs, i);
      var s := w.stats(refs[i]);
      if s.None? {
        continue;
      }
      var c := Finish(w, refs[i], cs[i], s.value, usage1[i], ok1[i], usage2[i], ok2[i], cores);
      if c.Err? {
        return Err;
      }
      out := out + [c.value];
    }
    assert refs[..|refs|] == refs;
    r := Ok(out);
  }

  ghost predicate NoneFails(w: World, refs: seq<Discovery.Ref>) {
    forall i | 0 <= i < |refs| :: !Fails(w, refs[i])
  }

  lemma MatchIsUnique(cs: seq<Container>, query: string, i: nat, j: nat)
    requires FirstExact(cs, query, i) || OnlyPrefix(cs, query, i)
    requires FirstExact(cs, query, j) || OnlyPrefix(cs, query, j)
    ensures i == j
  {
  }

  lemma SelectionIsUnique(w: World, refs: seq<Discovery.Ref>, query: Option<string>,
                          a: seq<Discovery.Ref>, b: seq<Discovery.Ref>)
    requires Selects(w, refs, query, a) && Selects(w, refs, query, b)
    ensures a == b
  {
    if query.Some? {
      var cs, q := Identify(w, refs), query.value;
      var i: nat :| i < |refs| && a == [refs[i]] && (FirstExact(cs, q, i) || OnlyPrefix(cs, q, i));
      var j: nat :| j < |refs| && b == [refs[j]] && (FirstExact(cs, q, j) || OnlyPrefix(cs, q, j));
      MatchIsUnique(cs, q, i, j);
    }
  }

  /** Narrows the two parallel lists to the container asked for. */
  method Narrow(w: World, refs: seq<Discovery.Ref>, query: Option<string>)
    returns (ok: bool, containers: seq<Container>, selected: seq<Discovery.Ref>)
    ensures ok ==> Selects(w, refs, query, selected) && containers == Identify(w, selected)
    ensures !ok ==> forall s :: !Selects(w, refs, query, s)
  {
    containers, selected := Identify(w, refs), refs;
    if query.None? {
      return true, containers, selected;
    }
    var m := MatchContainer(containers, query.value);
    if m.Err? {
      forall i: nat ensures !(query.value != "" && (FirstExact(containers, query.value, i) || OnlyPrefix(containers, query.value, i))) {
        assert m != Ok(i);
      }
      return false, containers, selected;
    }
    var i := m.value;
    assert m == Ok(i);
    ghost var all := containers;
    containers, selected := containers[i..i + 1], refs[i..i + 1];
    assert selected == [refs[i]] && containers == Identify(w, selected);
    ok := true;
  }

  /** Everything after discovery. `query` is None when every container is wanted. */
  method CollectContainers(w: World, refs: seq<Discovery.Ref>, query: Option<string>) returns (r: Result<seq<Container>>)
    ensures r.Ok? <==>
      !HostFails(w) && !w.cancelled && exists selected :: Selects(w, refs, query, selected) && NoneFails(w, selected)
    ensures forall selected | r.Ok? && Selects(w, refs, query, selected) ::
      r.value == Collect(Assembled(w), selected) && exists at :: Follows(w, selected, r.value, at)
  {
    var ok, containers, selected := Narrow(w, refs, query);
    if !ok {
      return Err;
    }
    forall s | Selects(w, refs, query, s) ensures s == selected {
      SelectionIsUnique(w, refs, query, s, selected);
    }
    var host := ReadHostInfo(w);
    if host.Err? {
      return Err;
    }
    var usage1, ok1, panicked1 := SampleAll(selected, w.first);
    if panicked1 {
      assert !NoneFails(w, selected);
      return Err;
    }
    if w.cancelled {
      return Err;
    }
    var usage2, ok2, panicked2 := SampleAll(selected, w.second);
    if panicked2 {
      assert !NoneFails(w, selected);
      return Err;
    }
    r := AssembleAll(w, selected, containers, usage1, ok1, usage2, ok2, host.value);
    ghost var at := OutputsFollowDiscovery(w, selected);
    assert r.Ok? <==> NoneFails(w, selected);
  }

  // ---------- what comes out ----------

  /** The CPU figures two readings make of what the container's files gave. */
  ghost predicate ShowsUsage(file: Cpu, first: Reading, second: Reading, elapsed: real, hostCores: nat, cpu: Cpu) {
    && cpu.limited == file.limited && cpu.allocatedCores == file.allocatedCores
    && cpu.usageSeconds == (if second.Seconds? && second.s > 0.0 then second.s else file.usageSeconds)
    && if first.Seconds? && second.Seconds? && elapsed > 0.0 && second.s >= first.s then
         && cpu.coresUsed * elapsed == second.s - first.s && cpu.coresUsed >= 0.0
         && (if hostCores > 0 then cpu.percentOfHost * hostCores as real == 100.0 * cpu.coresUsed
             else cpu.percentOfHost == file.percentOfHost)
         && (if file.limited && file.allocatedCores > 0.0
             then cpu.percentOfLimit * file.allocatedCores == 100.0 * cpu.coresUsed
             else cpu.percentOfLimit == file.percentOfLimit)
       else
         && cpu.coresUsed == file.coresUsed && cpu.percentOfHost == file.percentOfHost
         && cpu.percentOfLimit == file.percentOfLimit
  }

  lemma Quotient(a: real, b: real)
    requires b > 0.0
    ensures a / b * b == a && (a >= 0.0 ==> a / b >= 0.0)
  {
  }

  lemma SampledShowsUsage(file: Cpu, first: Reading, second: Reading, elapsed: real, hostCores: nat)
    ensures ShowsUsage(file, first, second, elapsed, hostCores,
                       Sampled(file, SecondsOf(first), SecondsOf(second), first.Seconds? && second.Seconds?, elapsed, hostCores))
  {
    if first.Seconds? && second.Seconds? && elapsed > 0.0 && second.s >= first.s {
      var used := (second.s - first.s) / elapsed;
      Quotient(second.s - first.s, elapsed);
      if hostCores > 0 {
        Quotient(100.0 * used, hostCores as real);
      }
      if file.limited && file.allocatedCores > 0.0 {
        Quotient(100.0 * used, file.allocatedCores);
      }
    }
  }

  /** The runtime's name, image and state, when it was reached and knows the ID. */
  ghost predicate ShowsMetadata(w: World, id: string, frozen: bool, c: Container) {
    var known := w.metadata.Some? && id in w.metadata.value;
    && c.metadataAvailable == known
    && c.name == (if known then w.metadata.value[id].name else "")
    && c.image == (if known then w.metadata.value[id].image else "")
    && c.state == (if known && w.metadata.value[id].state != "" then w.metadata.value[id].state
                   else if frozen then "paused" else "running")
  }

  /** Container and reference belong together: identity, process, files and both CPU readings. */
  ghost predicate BelongsTo(w: World, c: Container, ref: Discovery.Ref) {
    && c.id == ref.id && c.runtime == ref.runtime && c.cgroupPath == ref.relPath && c.pid == ref.pid
    && w.stats(ref).Some? && c.figures == w.stats(ref).value.figures
    && ShowsUsage(w.stats(ref).value.cpu, w.first(ref.dirs), w.second(ref.dirs), w.elapsed, HostCores(w), c.cpu)
    && ShowsMetadata(w, ref.id, w.stats(ref).value.frozen, c)
    && c.layer == (if w.measureLayers && w.layer(ref.pid).Ok? then Some(w.layer(ref.pid).value) else None)
  }

  lemma AssembledBelongs(w: World, ref: Discovery.Ref)
    ensures Assembled(w)(ref).Some? <==> w.stats(ref).Some?
    ensures Assembled(w)(ref).Some? ==> BelongsTo(w, Assembled(w)(ref).value, ref)
  {
    if w.stats(ref).Some? {
      SampledShowsUsage(w.stats(ref).value.cpu, w.first(ref.dirs), w.second(ref.dirs), w.elapsed, HostCores(w));
    }
  }

  /** `at` says which references the outputs come from: in order, and all but the unreadable ones. */
  ghost predicate Follows(w: World, refs: seq<Discovery.Ref>, out: seq<Container>, at: seq<nat>) {
    && |at| == |out|
    && (forall k, l | 0 <= k < l < |at| :: at[k] < at[l])
    && (forall k | 0 <= k < |at| :: at[k] < |refs| && BelongsTo(w, out[k], refs[at[k]]))
    && (forall i | 0 <= i < |refs| :: i in at <==> w.stats(refs[i]).Some?)
  }

  /** Every output belongs to one discovered reference, in order of discovery; a reference without an
      output is one whose files could not be read. */
  lemma OutputsFollowDiscovery(w: World, refs: seq<Discovery.Ref>) returns (at: seq<nat>)
    ensures Follows(w, refs, Collect(Assembled(w), refs), at)
  {
    CollectComesFrom(Assembled(w), refs);
    at := Positions(Assembled(w), refs);
    var out := Collect(Assembled(w), refs);
    forall k | 0 <= k < |at| ensures BelongsTo(w, out[k], refs[at[k]]) {
      assert Assembled(w)(refs[at[k]]) == Some(out[k]);
      AssembledBelongs(w, refs[at[k]]);
    }
    forall i | 0 <= i < |refs| ensures i in at <==> w.stats(refs[i]).Some? {
      PositionsAre(Assembled(w), refs, i);
      AssembledBelongs(w, refs[i]);
    }
  }

  // ---------- the lookup, from the caller's side ----------

  /** A name that is listed always finds a container of that name or ID. */
  lemma NameIsFound(cs: seq<Container>, k: nat)
    requires k < |cs| && cs[k].name != ""
    ensures exists i: nat :: i <= k && FirstExact(cs, cs[k].name, i)
                             && (cs[i].name == cs[k].name || cs[i].id == cs[k].name)
  {
    var i := FirstMatch(cs, cs[k].name, k);
  }

  lemma FirstMatch(cs: seq<Container>, query: string, k: nat) returns (i: nat)
    requires k < |cs| && IsExact(cs[k], query)
    ensures i <= k && FirstExact(cs, query, i)
  {
    i := 0;
    while !IsExact(cs[i], query)
      invariant 0 <= i <= k
      invariant forall j | 0 <= j < i :: !IsExact(cs[j], query)
      decreases k - i
    {
      i := i + 1;
    }
  }

  /** A beginning of one container's ID that nothing else has finds that container. */
  lemma UniquePrefixIsFound(cs: seq<Container>, query: string, k: nat)
    requires k < |cs| && query <= cs[k].id && forall j | 0 <= j < |cs| && j != k :: !(query <= cs[j].id)
    requires forall j | 0 <= j < |cs| :: cs[j].id != query && (query == "" || cs[j].name != query)
    ensures OnlyPrefix(cs, query, k)
  {
  }

  /** The lookup finds at most one container, and a full ID that is listed always finds it or an
      earlier container named so. */
  lemma FullIdIsFound(cs: seq<Container>, k: nat)
    requires k < |cs| && cs[k].id != ""
    ensures exists i: nat :: i <= k && FirstExact(cs, cs[k].id, i)
    ensures forall i: nat, j: nat | (FirstExact(cs, cs[k].id, i) || OnlyPrefix(cs, cs[k].id, i))
                                 && (FirstExact(cs, cs[k].id, j) || OnlyPrefix(cs, cs[k].id, j)) :: i == j
  {
    var i := FirstMatch(cs, cs[k].id, k);
  }
}
