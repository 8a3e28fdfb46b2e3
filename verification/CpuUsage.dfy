/** CPU utilisation from two samples of /proc/stat. */
module CpuUsage {
  import opened Outcomes
  import opened Text
  import opened Words

  /** The tick counters used of one "cpu" line. */
  datatype Ticks = Ticks(user: nat, system: nat, idle: nat)

  // ---------- reading one sample ----------

  predicate IsCpuLine(line: string) {
    var fs := Fields(line);
    fs != [] && HasPrefix(fs[0], "cpu")
  }

  /** Fields 1, 3 and 4; too few fields or a malformed number panics. */
  function TicksOf(line: string): (r: Result<Ticks>)
    ensures r.Ok? ==> Counter(r.value)
  {
    var fs := Fields(line);
    if |fs| < 5 then Err
    else
      var user :- ToUint64(fs[1]);
      var system :- ToUint64(fs[3]);
      var idle :- ToUint64(fs[4]);
      Ok(Ticks(user, system, idle))
  }

  predicate Counter(t: Ticks) {
    t.user < TWO64 && t.system < TWO64 && t.idle < TWO64
  }

  /** The ticks of every "cpu" line: the aggregate first, then one per core. */
  function Sample(lines: seq<string>): (r: Result<seq<Ticks>>)
    ensures r.Ok? ==> forall i | 0 <= i < |r.value| :: Counter(r.value[i])
  {
    if lines == [] then Ok([])
    else
      var before :- Sample(lines[..|lines| - 1]);
      if !IsCpuLine(lines[|lines| - 1]) then Ok(before)
      else var t :- TicksOf(lines[|lines| - 1]); Ok(before + [t])
  }

  lemma {:induction false} SampleFails(lines: seq<string>, n: nat)
    requires n <= |lines| && Sample(lines[..n]).Err?
    ensures Sample(lines).Err?
  {
    if n < |lines| {
      assert lines[..|lines| - 1][..n] == lines[..n];
      SampleFails(lines[..|lines| - 1], n);
    } else {
      assert lines[..n] == lines;
    }
  }

  /** A "cpu" line with fewer than five fields, or without a number in the second, fourth or fifth. */
  predicate MalformedCpuLine(line: string) {
    var fs := Fields(line);
    fs != [] && HasPrefix(fs[0], "cpu")
    && (|fs| < 5 || ParseUint(fs[1]).error != NoError || ParseUint(fs[3]).error != NoError
        || ParseUint(fs[4]).error != NoError)
  }

  lemma {:induction false} SampleFailsIff(lines: seq<string>)
    ensures Sample(lines).Err? <==> exists i :: 0 <= i < |lines| && MalformedCpuLine(lines[i])
  {
    if lines == [] {
    } else {
      var n := |lines| - 1;
      SampleFailsIff(lines[..n]);
      assert forall i | 0 <= i < n :: lines[..n][i] == lines[i];
      assert MalformedCpuLine(lines[n]) <==> IsCpuLine(lines[n]) && TicksOf(lines[n]).Err?;
    }
  }

  method ProcessStatFile(content: string) returns (r: Result<seq<Ticks>>)
    ensures r == Sample(Lines(content))
  {
    var output := [];
    var lines := Lines(content);
    for n := 0 to |lines|
      invariant Sample(lines[..n]) == Ok(output)
    {
      assert lines[..n + 1][..n] == lines[..n];
      var fs := Fields(lines[n]);
      if fs != [] && HasPrefix(fs[0], "cpu") {
        var t := TicksOf(lines[n]);
        if t.Err? {
          SampleFails(lines, n + 1);
          return Err;
        }
        output := output + [t.value];
      }
    }
    assert lines[..|lines|] == lines;
    r := Ok(output);
  }

  // ---------- 64-bit arithmetic ----------

  function Wrap(n: int): (r: nat)
    ensures r < TWO64
    ensures 0 <= n < TWO64 ==> r == n
  {
    n % TWO64
  }

  /** `int(u)` of an unsigned 64-bit value. */
  function ToInt(u: nat): int {
    if u < TWO63 then u else u - TWO64
  }

  /** user + system, as the code adds it. */
  function Busy64(t: Ticks): nat {
    Wrap(t.user + t.system)
  }

  function Total64(t: Ticks): nat {
    Wrap(Busy64(t) + t.idle)
  }

  function Div(a: nat, b: nat): nat
    requires b > 0
  {
    a / b
  }

  /** How far a line's total has moved, modulo 2^64. */
  function Moved(t1: Ticks, t2: Ticks): nat {
    Wrap(Total64(t2) - Total64(t1))
  }

  /** The utilisation between two readings of a line, None when its total has not moved. */
  function Usage(t1: Ticks, t2: Ticks): Option<int> {
    var b := Moved(t1, t2);
    if b == 0 then None else Some(ToInt(Div(Wrap(100 * Wrap(Busy64(t2) - Busy64(t1))), b)))
  }

  function UsageOrZero(t1: Ticks, t2: Ticks): int {
    match Usage(t1, t2) case Some(u) => u case None => 0
  }

  /** What the first `n` lines append to the per-core list. The aggregate line normally appends
      nothing - but a zero when its total has not moved. */
  function CoreList(ts1: seq<Ticks>, ts2: seq<Ticks>, n: nat): seq<int>
    requires n <= |ts1| && n <= |ts2|
  {
    if n == 0 then []
    else
      CoreList(ts1, ts2, n - 1)
      + if n == 1 && Usage(ts1[0], ts2[0]).Some? then [] else [UsageOrZero(ts1[n - 1], ts2[n - 1])]
  }

  class CPU {
    var loadAvg: int
    var coreAvg: seq<int>

    constructor ()
      ensures loadAvg == 0 && coreAvg == []
    {
      loadAvg, coreAvg := 0, [];
    }

    /** `ok` is false when the samples do not parse, or the second has fewer lines: a panic, after
        which the figures are thrown away. */
    method ProcessStatFileContents(stat1: string, stat2: string) returns (ok: bool)
      modifies this
      ensures ok <==>
        Sample(Lines(stat1)).Ok? && Sample(Lines(stat2)).Ok?
        && |Sample(Lines(stat1)).value| <= |Sample(Lines(stat2)).value|
      ensures ok ==> AreFigures(stat1, stat2, old(loadAvg), old(coreAvg), loadAvg, coreAvg)
    {
      var r1 := ProcessStatFile(stat1);
      var r2 := ProcessStatFile(stat2);
      if r1.Err? || r2.Err? {
        return false;
      }
      ok := Compare(r1.value, r2.value);
    }

    method Compare(ts1: seq<Ticks>, ts2: seq<Ticks>) returns (ok: bool)
      modifies this
      ensures ok <==> |ts1| <= |ts2|
      ensures ok ==> coreAvg == old(coreAvg) + CoreList(ts1, ts2, |ts1|)
      ensures ok ==> loadAvg == LoadAfter(ts1, ts2, |ts1|, old(loadAvg))
    {
      for i := 0 to |ts1|
        invariant i <= |ts2|
        invariant coreAvg == old(coreAvg) + CoreList(ts1, ts2, i)
        invariant loadAvg == LoadAfter(ts1, ts2, i, old(loadAvg))
      {
        if i >= |ts2| {
          return false;
        }
        var b := Moved(ts1[i], ts2[i]);
        if b > 0 {
          var usage := Div(Wrap(100 * Wrap(Busy64(ts2[i]) - Busy64(ts1[i]))), b);
          assert Usage(ts1[i], ts2[i]) == Some(ToInt(usage));
          if i == 0 {
            loadAvg := ToInt(usage);
            continue;
          }
          coreAvg := coreAvg + [ToInt(usage)];
        } else {
          coreAvg := coreAvg + [0];
        }
      }
      ok := true;
    }
  }

  /** What two samples that parse make of the figures there were before. */
  ghost predicate AreFigures(stat1: string, stat2: string, load0: int, cores0: seq<int>, load: int, cores: seq<int>) {
    && Sample(Lines(stat1)).Ok? && Sample(Lines(stat2)).Ok?
    && var ts1, ts2 := Sample(Lines(stat1)).value, Sample(Lines(stat2)).value;
    && |ts1| <= |ts2|
    && cores == cores0 + CoreList(ts1, ts2, |ts1|)
    && load == LoadAfter(ts1, ts2, |ts1|, load0)
  }

  /** The load average after the first `n` lines. */
  function LoadAfter(ts1: seq<Ticks>, ts2: seq<Ticks>, n: nat, before: int): int
    requires n <= |ts1| && n <= |ts2|
  {
    if n > 0 && Usage(ts1[0], ts2[0]).Some? then Usage(ts1[0], ts2[0]).value else before
  }

  // ---------- which entry belongs to which core ----------

  /** With the aggregate moving, entry j is core j's and there is one per core; otherwise a zero
      comes first and every core's figure is one place late. */
  lemma {:induction false} CoreListAligns(ts1: seq<Ticks>, ts2: seq<Ticks>, n: nat)
    requires 0 < n <= |ts1| && n <= |ts2|
    ensures Usage(ts1[0], ts2[0]).Some? ==>
      |CoreList(ts1, ts2, n)| == n - 1
      && forall j | 0 <= j < n - 1 :: CoreList(ts1, ts2, n)[j] == UsageOrZero(ts1[j + 1], ts2[j + 1])
    ensures Usage(ts1[0], ts2[0]).None? ==>
      |CoreList(ts1, ts2, n)| == n && CoreList(ts1, ts2, n)[0] == 0
      && forall j | 0 < j < n :: CoreList(ts1, ts2, n)[j] == UsageOrZero(ts1[j], ts2[j])
  {
    if n == 1 {
      assert CoreList(ts1, ts2, 0) == [];
    } else {
      CoreListAligns(ts1, ts2, n - 1);
    }
  }

  /** One entry per per-core line exactly when the aggregate's total has moved, modulo 2^64. */
  lemma OneEntryPerCoreIff(ts1: seq<Ticks>, ts2: seq<Ticks>)
    requires 0 < |ts1| <= |ts2|
    ensures |CoreList(ts1, ts2, |ts1|)| == |ts1| - 1 <==> Total64(ts2[0]) != Total64(ts1[0])
  {
    CoreListAligns(ts1, ts2, |ts1|);
    TotalMovesIff(ts1[0], ts2[0]);
  }

  lemma TotalMovesIff(t1: Ticks, t2: Ticks)
    ensures Usage(t1, t2).Some? <==> Total64(t2) != Total64(t1)
  {
    var d := Total64(t2) - Total64(t1);
    assert -TWO64 < d < TWO64;
    if d < 0 {
      assert d % TWO64 == d + TWO64;
    }
  }

  // ---------- bounds ----------

  function Busy(t: Ticks): nat {
    t.user + t.system
  }

  function Total(t: Ticks): nat {
    Busy(t) + t.idle
  }

  /** No counter goes backwards. */
  predicate Grows(t1: Ticks, t2: Ticks) {
    t1.user <= t2.user && t1.system <= t2.system && t1.idle <= t2.idle
  }

  /** The sums and the product in the formula stay below 2^64. */
  predicate InRange(t1: Ticks, t2: Ticks) {
    Total(t1) < TWO64 && Total(t2) < TWO64 && 100 * (Busy(t2) - Busy(t1)) < TWO64
  }

  /** In range, the figure is the exact percentage rounded down, and so from 0 to 100. */
  lemma UsageIsPercentage(t1: Ticks, t2: Ticks)
    requires Grows(t1, t2) && InRange(t1, t2)
    ensures var db, dt := Busy(t2) - Busy(t1), Total(t2) - Total(t1);
      && Usage(t1, t2) == (if dt > 0 then Some(Div(100 * db, dt)) else None)
      && 0 <= UsageOrZero(t1, t2) <= 100
  {
    var db, dt := Busy(t2) - Busy(t1), Total(t2) - Total(t1);
    assert Busy64(t1) == Busy(t1) && Busy64(t2) == Busy(t2);
    assert Moved(t1, t2) == dt;
    if dt > 0 {
      PercentBound(db, dt);
    }
  }

  lemma PercentBound(db: nat, dt: nat)
    requires db <= dt && dt > 0
    ensures Div(100 * db, dt) <= 100
  {
    FloorIs(100 * db, dt);
    QuotientBetween(0, 100, 100 * db, dt);
  }

  lemma FloorIs(a: nat, d: nat)
    requires d > 0
    ensures Div(a, d) * d <= a < (Div(a, d) + 1) * d
  {
  }

  lemma MulMonotone(a: int, b: int, d: nat)
    requires a <= b
    ensures a * d <= b * d
  {
  }

  lemma QuotientBetween(lo: int, hi: int, a: nat, d: nat)
    requires d > 0 && lo * d <= a < (hi + 1) * d
    ensures lo <= Div(a, d) <= hi
  {
    FloorIs(a, d);
    var q := Div(a, d);
    if q < lo {
      MulMonotone(q + 1, lo, d);
    }
    if q > hi {
      MulMonotone(hi + 1, q, d);
    }
  }

  // ---------- the aggregate against the cores ----------

  function AddTicks(a: Ticks, b: Ticks): Ticks {
    Ticks(a.user + b.user, a.system + b.system, a.idle + b.idle)
  }

  function SumTicks(ts: seq<Ticks>): Ticks {
    if ts == [] then Ticks(0, 0, 0) else AddTicks(SumTicks(ts[..|ts| - 1]), ts[|ts| - 1])
  }

  predicate CoresInRange(ts1: seq<Ticks>, ts2: seq<Ticks>)
    requires |ts1| == |ts2|
  {
    forall j | 0 <= j < |ts1| :: Grows(ts1[j], ts2[j]) && InRange(ts1[j], ts2[j])
  }

  /** Every core's figure lies between the two bounds. */
  ghost predicate CoresBetween(lo: int, hi: int, ts1: seq<Ticks>, ts2: seq<Ticks>)
    requires |ts1| == |ts2|
  {
    forall j | 0 <= j < |ts1| :: lo <= UsageOrZero(ts1[j], ts2[j]) <= hi
  }

  /** `100 * db` over `dt` lies between the bounds, without dividing. */
  ghost predicate Within(lo: int, hi: int, db: int, dt: int) {
    0 <= dt && lo * dt <= 100 * db <= (hi + 1) * dt && (dt > 0 ==> 100 * db < (hi + 1) * dt)
  }

  /** What one line's counters have moved by: busy ticks, and all ticks. */
  function Delta(t1: Ticks, t2: Ticks): (int, int) {
    (Busy(t2) - Busy(t1), Total(t2) - Total(t1))
  }

  ghost function Bounds(lo: int, hi: int): ((int, int)) -> bool {
    (d: (int, int)) => Within(lo, hi, d.0, d.1)
  }

  lemma OneCore(lo: int, hi: int, t1: Ticks, t2: Ticks)
    requires Grows(t1, t2) && InRange(t1, t2) && lo <= UsageOrZero(t1, t2) <= hi
    ensures Bounds(lo, hi)(Delta(t1, t2))
  {
    UsageIsPercentage(t1, t2);
    var db, dt := Busy(t2) - Busy(t1), Total(t2) - Total(t1);
    if dt > 0 {
      FloorWithin(lo, hi, db, dt);
    }
  }

  lemma FloorWithin(lo: int, hi: int, db: nat, dt: nat)
    requires dt > 0 && lo <= Div(100 * db, dt) <= hi
    ensures Within(lo, hi, db, dt)
  {
    var q := Div(100 * db, dt);
    FloorIs(100 * db, dt);
    MulMonotone(lo, q, dt);
    MulMonotone(q + 1, hi + 1, dt);
  }

  lemma WithinAdds(lo: int, hi: int, db0: int, dt0: int, db1: int, dt1: int)
    requires Within(lo, hi, db0, dt0) && Within(lo, hi, db1, dt1)
    ensures Within(lo, hi, db0 + db1, dt0 + dt1)
  {
    assert lo * (dt0 + dt1) == lo * dt0 + lo * dt1;
    assert (hi + 1) * (dt0 + dt1) == (hi + 1) * dt0 + (hi + 1) * dt1;
  }

  function AddDeltas(p: (int, int), q: (int, int)): (int, int) {
    (p.0 + q.0, p.1 + q.1)
  }

  ghost predicate Additive(w: ((int, int)) -> bool) {
    w((0, 0)) && forall p: (int, int), q: (int, int) {:trigger AddDeltas(p, q)} :: w(p) && w(q) ==> w(AddDeltas(p, q))
  }

  function SumDeltas(ds: seq<(int, int)>): (int, int) {
    if ds == [] then (0, 0) else AddDeltas(SumDeltas(ds[..|ds| - 1]), ds[|ds| - 1])
  }

  function Deltas(ts1: seq<Ticks>, ts2: seq<Ticks>): (ds: seq<(int, int)>)
    requires |ts1| == |ts2|
    ensures |ds| == |ts1|
  {
    seq(|ts1|, j requires 0 <= j < |ts1| => Delta(ts1[j], ts2[j]))
  }

  /** A property that adds up and holds of every core's movement holds of their sum. */
  lemma {:induction false} AllCores(w: ((int, int)) -> bool, ds: seq<(int, int)>)
    requires Additive(w) && forall j | 0 <= j < |ds| :: w(ds[j])
    ensures w(SumDeltas(ds))
  {
    if ds == [] {
    } else {
      var n := |ds| - 1;
      AllCores(w, ds[..n]);
      assert w(ds[n]);
    }
  }

  lemma {:induction false} SumsGrow(ts1: seq<Ticks>, ts2: seq<Ticks>)
    requires |ts1| == |ts2| && forall j | 0 <= j < |ts1| :: Grows(ts1[j], ts2[j])
    ensures Grows(SumTicks(ts1), SumTicks(ts2))
  {
    if ts1 == [] {
    } else {
      SumsGrow(ts1[..|ts1| - 1], ts2[..|ts2| - 1]);
    }
  }

  lemma {:induction false} SumOfDeltas(ts1: seq<Ticks>, ts2: seq<Ticks>)
    requires |ts1| == |ts2|
    ensures Delta(SumTicks(ts1), SumTicks(ts2)) == SumDeltas(Deltas(ts1, ts2))
  {
    if ts1 == [] {
    } else {
      var n := |ts1| - 1;
      assert Deltas(ts1, ts2)[..n] == Deltas(ts1[..n], ts2[..n]);
      SumOfDeltas(ts1[..n], ts2[..n]);
    }
  }

  lemma BoundsAreAdditive(lo: int, hi: int)
    ensures Additive(Bounds(lo, hi))
  {
    forall p: (int, int), q: (int, int) | Bounds(lo, hi)(p) && Bounds(lo, hi)(q)
      ensures Bounds(lo, hi)(AddDeltas(p, q))
    {
      WithinAdds(lo, hi, p.0, p.1, q.0, q.1);
    }
  }

  /** An aggregate that is the sum of the cores, and whose total moved, shows a figure no smaller
      than every lower bound of the cores' figures and no larger than every upper bound. */
  lemma AggregateBetweenCores(ts1: seq<Ticks>, ts2: seq<Ticks>, lo: int, hi: int)
    requires |ts1| == |ts2| && CoresInRange(ts1, ts2) && CoresBetween(lo, hi, ts1, ts2)
    requires InRange(SumTicks(ts1), SumTicks(ts2)) && Total(SumTicks(ts1)) != Total(SumTicks(ts2))
    ensures var u := Usage(SumTicks(ts1), SumTicks(ts2));
      u.Some? && lo <= u.value <= hi
  {
    var w := Bounds(lo, hi);
    BoundsAreAdditive(lo, hi);
    forall j | 0 <= j < |ts1| ensures w(Deltas(ts1, ts2)[j]) {
      OneCore(lo, hi, ts1[j], ts2[j]);
    }
    AllCores(w, Deltas(ts1, ts2));
    SumOfDeltas(ts1, ts2);
    SumsGrow(ts1, ts2);
    UsageWithin(SumTicks(ts1), SumTicks(ts2), lo, hi);
  }

  lemma UsageWithin(t1: Ticks, t2: Ticks, lo: int, hi: int)
    requires Grows(t1, t2) && InRange(t1, t2) && Total(t1) != Total(t2)
    requires Bounds(lo, hi)(Delta(t1, t2))
    ensures Usage(t1, t2).Some? && lo <= Usage(t1, t2).value <= hi
  {
    UsageIsPercentage(t1, t2);
    WithinDivides(lo, hi, Busy(t2) - Busy(t1), Total(t2) - Total(t1));
  }

  lemma WithinDivides(lo: int, hi: int, db: int, dt: int)
    requires Within(lo, hi, db, dt) && db >= 0 && dt > 0
    ensures lo <= Div(100 * db, dt) <= hi
  {
    QuotientBetween(lo, hi, 100 * db, dt);
  }

  /** The same for what `ProcessStatFileContents` stores: with the aggregate first in both samples,
      LoadAvg lies between the least and the greatest CoreAvg. */
  lemma LoadAvgBetweenCoreAvgs(ts1: seq<Ticks>, ts2: seq<Ticks>, lo: int, hi: int)
    requires 0 < |ts1| == |ts2| && CoresInRange(ts1[1..], ts2[1..])
    requires ts1[0] == SumTicks(ts1[1..]) && ts2[0] == SumTicks(ts2[1..]) && InRange(ts1[0], ts2[0])
    requires Total(ts1[0]) != Total(ts2[0])
    requires forall j | 0 <= j < |CoreList(ts1, ts2, |ts1|)| :: lo <= CoreList(ts1, ts2, |ts1|)[j] <= hi
    ensures Usage(ts1[0], ts2[0]).Some? && lo <= Usage(ts1[0], ts2[0]).value <= hi
  {
    TotalMovesIff(ts1[0], ts2[0]);
    CoreListAligns(ts1, ts2, |ts1|);
    forall j | 0 <= j < |ts1[1..]| ensures lo <= UsageOrZero(ts1[1..][j], ts2[1..][j]) <= hi {
      assert CoreList(ts1, ts2, |ts1|)[j] == UsageOrZero(ts1[j + 1], ts2[j + 1]);
    }
    AggregateBetweenCores(ts1[1..], ts2[1..], lo, hi);
  }

  // ---------- from the text of /proc/stat to the figures ----------

  /** A "cpu" line: its name and its counters, of which only three are used. */
  datatype CpuLine = CpuLine(name: string, user: nat, nice: nat, system: nat, idle: nat, rest: seq<string>)

  predicate WellFormed(c: CpuLine) {
    && HasPrefix(c.name, "cpu")
    && c.user < TWO64 && c.nice < TWO64 && c.system < TWO64 && c.idle < TWO64
  }

  /** The fields of a line, however they are spaced: those of a "cpu" line, or others. */
  predicate HoldsLine(line: string, c: Option<CpuLine>) {
    match c
    case Some(l) =>
      Fields(line) == [l.name, Format(l.user), Format(l.nice), Format(l.system), Format(l.idle)] + l.rest
    case None => Fields(line) == [] || !HasPrefix(Fields(line)[0], "cpu")
  }

  /** A /proc/stat, line by line; its "cpu" lines may be mixed with any others. */
  ghost predicate HoldsLines(lines: seq<string>, cs: seq<Option<CpuLine>>) {
    && |lines| == |cs|
    && forall i | 0 <= i < |lines| :: HoldsLine(lines[i], cs[i]) && (cs[i].Some? ==> WellFormed(cs[i].value))
  }

  function CpuLines(cs: seq<Option<CpuLine>>): seq<CpuLine> {
    Collect((c: Option<CpuLine>) => c, cs)
  }

  lemma OneLine(line: string, c: CpuLine)
    requires HoldsLine(line, Some(c)) && WellFormed(c)
    ensures IsCpuLine(line) && TicksOf(line) == Ok(Ticks(c.user, c.system, c.idle))
  {
    ParseFormat(c.user);
    ParseFormat(c.system);
    ParseFormat(c.idle);
  }

  /** The sample of a /proc/stat is the user, system and idle ticks of its "cpu" lines, in order. */
  lemma {:induction false} SampleOf(lines: seq<string>, cs: seq<Option<CpuLine>>)
    requires HoldsLines(lines, cs)
    ensures var r, ls := Sample(lines), CpuLines(cs);
      && r.Ok? && |r.value| == |ls|
      && forall j | 0 <= j < |ls| :: r.value[j] == Ticks(ls[j].user, ls[j].system, ls[j].idle)
  {
    if lines == [] {
    } else {
      var n := |lines| - 1;
      SampleOf(lines[..n], cs[..n]);
      assert HoldsLine(lines[n], cs[n]);
      if cs[n].Some? {
        OneLine(lines[n], cs[n].value);
      }
    }
  }

  /** How far a line's busy ticks, and all its ticks, have moved. */
  function BusyMoved(a: CpuLine, b: CpuLine): int {
    b.user + b.system - a.user - a.system
  }

  function AllMoved(a: CpuLine, b: CpuLine): int {
    BusyMoved(a, b) + b.idle - a.idle
  }

  /** No counter goes backwards, and the formula's sums and product stay below 2^64. */
  predicate Comparable(a: CpuLine, b: CpuLine) {
    && a.user <= b.user && a.system <= b.system && a.idle <= b.idle
    && b.user + b.system + b.idle < TWO64 && 100 * BusyMoved(a, b) < TWO64
  }

  /** `u` is the percentage of the ticks that were busy, rounded down; 0 when none passed. */
  predicate IsPercentage(a: CpuLine, b: CpuLine, u: int) {
    var busy, all := BusyMoved(a, b), AllMoved(a, b);
    if all == 0 then u == 0
    else 0 <= u <= 100 && u * all <= 100 * busy < (u + 1) * all
  }

  lemma UsageOfLines(a: CpuLine, b: CpuLine)
    requires Comparable(a, b)
    ensures var t1, t2 := Ticks(a.user, a.system, a.idle), Ticks(b.user, b.system, b.idle);
      IsPercentage(a, b, UsageOrZero(t1, t2)) && (Usage(t1, t2).Some? <==> AllMoved(a, b) > 0)
  {
    var t1, t2 := Ticks(a.user, a.system, a.idle), Ticks(b.user, b.system, b.idle);
    UsageIsPercentage(t1, t2);
    if AllMoved(a, b) > 0 {
      FloorIs(100 * BusyMoved(a, b), AllMoved(a, b));
    }
  }

  function PercentageAt(a: seq<CpuLine>, b: seq<CpuLine>): (int, int) -> bool {
    (j: int, u: int) => 0 <= j < |a| && j < |b| && IsPercentage(a[j], b[j], u)
  }

  /** The figures of `n` lines, the first of them the aggregate, when `holds` says what a line's is. */
  ghost predicate AreFiguresFor(moved: bool, n: nat, holds: (int, int) -> bool, load0: int, load: int, cores: seq<int>) {
    if moved then
      && holds(0, load) && |cores| == n - 1
      && forall j | 0 <= j < |cores| :: holds(j + 1, cores[j])
    else
      && load == load0 && |cores| == n > 0 && cores[0] == 0
      && forall j | 0 < j < |cores| :: holds(j, cores[j])
  }

  lemma FiguresHold(ts1: seq<Ticks>, ts2: seq<Ticks>, holds: (int, int) -> bool, load0: int)
    requires 0 < |ts1| <= |ts2|
    requires forall j | 0 <= j < |ts1| :: holds(j, UsageOrZero(ts1[j], ts2[j]))
    ensures AreFiguresFor(Usage(ts1[0], ts2[0]).Some?, |ts1|, holds, load0, LoadAfter(ts1, ts2, |ts1|, load0),
                          CoreList(ts1, ts2, |ts1|))
  {
    CoreListAligns(ts1, ts2, |ts1|);
  }

  /** From the texts of two samples to the figures stored: with the aggregate first, LoadAvg is its
      percentage, and CoreAvg[j] that of the j-th per-core line - or, when the aggregate's ticks have
      not moved, LoadAvg is left alone and a zero stands before the cores' percentages. */
  lemma FiguresOfTexts(stat1: string, stat2: string, cs1: seq<Option<CpuLine>>, cs2: seq<Option<CpuLine>>,
                       load0: int, load: int, cores: seq<int>)
    requires HoldsLines(Lines(stat1), cs1) && HoldsLines(Lines(stat2), cs2)
    requires 0 < |CpuLines(cs1)| <= |CpuLines(cs2)|
    requires forall j | 0 <= j < |CpuLines(cs1)| :: Comparable(CpuLines(cs1)[j], CpuLines(cs2)[j])
    requires AreFigures(stat1, stat2, load0, [], load, cores)
    ensures var a, b := CpuLines(cs1), CpuLines(cs2);
      AreFiguresFor(AllMoved(a[0], b[0]) > 0, |a|, PercentageAt(a, b), load0, load, cores)
  {
    SampleOf(Lines(stat1), cs1);
    SampleOf(Lines(stat2), cs2);
    var ts1, ts2 := Sample(Lines(stat1)).value, Sample(Lines(stat2)).value;
    assert ts1 == Mapped(TicksIn, CpuLines(cs1)) && ts2 == Mapped(TicksIn, CpuLines(cs2));
    FiguresOfSamples(CpuLines(cs1), CpuLines(cs2), ts1, ts2, load0);
    assert [] + CoreList(ts1, ts2, |ts1|) == CoreList(ts1, ts2, |ts1|);
  }

  function TicksIn(c: CpuLine): Ticks {
    Ticks(c.user, c.system, c.idle)
  }

  lemma PercentageOf(a: seq<CpuLine>, b: seq<CpuLine>, j: nat)
    requires j < |a| <= |b| && Comparable(a[j], b[j])
    ensures PercentageAt(a, b)(j, UsageOrZero(TicksIn(a[j]), TicksIn(b[j])))
    ensures Usage(TicksIn(a[j]), TicksIn(b[j])).Some? <==> AllMoved(a[j], b[j]) > 0
  {
    UsageOfLines(a[j], b[j]);
  }

  lemma Percentages(a: seq<CpuLine>, b: seq<CpuLine>, ts1: seq<Ticks>, ts2: seq<Ticks>, holds: (int, int) -> bool)
    requires |ts1| == |a| <= |b| == |ts2|
    requires forall j | 0 <= j < |a| :: ts1[j] == TicksIn(a[j]) && ts2[j] == TicksIn(b[j])
    requires forall j | 0 <= j < |a| :: holds(j, UsageOrZero(TicksIn(a[j]), TicksIn(b[j])))
    ensures forall j | 0 <= j < |ts1| :: holds(j, UsageOrZero(ts1[j], ts2[j]))
  {
  }

  lemma FiguresOfSamples(a: seq<CpuLine>, b: seq<CpuLine>, ts1: seq<Ticks>, ts2: seq<Ticks>, load0: int)
    requires 0 < |a| <= |b| && ts1 == Mapped(TicksIn, a) && ts2 == Mapped(TicksIn, b)
    requires forall j | 0 <= j < |a| :: Comparable(a[j], b[j])
    ensures AreFiguresFor(AllMoved(a[0], b[0]) > 0, |a|, PercentageAt(a, b), load0,
                          LoadAfter(ts1, ts2, |ts1|, load0), CoreList(ts1, ts2, |ts1|))
  {
    var holds := PercentageAt(a, b);
    forall j | 0 <= j < |a| ensures holds(j, UsageOrZero(TicksIn(a[j]), TicksIn(b[j]))) {
      PercentageOf(a, b, j);
    }
    PercentageOf(a, b, 0);
    Percentages(a, b, ts1, ts2, holds);
    FiguresHold(ts1, ts2, holds, load0);
  }

  // ---------- printing /proc/stat ----------

  function CpuTokens(c: CpuLine): seq<string> {
    [c.name, Format(c.user), Format(c.nice), Format(c.system), Format(c.idle)] + c.rest
  }

  lemma PrintedLine(c: CpuLine)
    requires IsToken(c.name) && Tokens(c.rest)
    ensures HoldsLine(Join(CpuTokens(c), ' '), Some(c))
    ensures '\n' !in Join(CpuTokens(c), ' ')
  {
    FormatIsToken(c.user);
    FormatIsToken(c.nice);
    FormatIsToken(c.system);
    FormatIsToken(c.idle);
    FieldsJoin(CpuTokens(c));
    TokenLineIsOneLine(CpuTokens(c));
  }

  /** What a printed line shows: a "cpu" line, or any other text. */
  datatype Shown = CpuRow(line: CpuLine) | OtherRow(text: string)

  predicate Printable(x: Shown) {
    match x
    case CpuRow(c) => WellFormed(c) && IsToken(c.name) && Tokens(c.rest)
    case OtherRow(text) => '\n' !in text && (Fields(text) == [] || !HasPrefix(Fields(text)[0], "cpu"))
  }

  function TextOf(x: Shown): string {
    match x case CpuRow(c) => Join(CpuTokens(c), ' ') case OtherRow(text) => text
  }

  function LineOf(x: Shown): Option<CpuLine> {
    match x case CpuRow(c) => Some(c) case OtherRow(_) => None
  }

  lemma ShownLine(x: Shown)
    requires Printable(x)
    ensures HoldsLine(TextOf(x), LineOf(x)) && '\n' !in TextOf(x)
    ensures LineOf(x).Some? ==> WellFormed(LineOf(x).value)
  {
    if x.CpuRow? {
      PrintedLine(x.line);
    }
  }

  /** Parsing a printed /proc/stat: what is sampled is user, system and idle of each "cpu" line. */
  lemma PrintedStat(xs: seq<Shown>)
    requires xs != [] && forall i | 0 <= i < |xs| :: Printable(xs[i])
    ensures HoldsLines(Lines(JoinLines(Mapped(TextOf, xs))), Mapped(LineOf, xs))
    ensures var r, ls := Sample(Lines(JoinLines(Mapped(TextOf, xs)))), CpuLines(Mapped(LineOf, xs));
      && r.Ok? && |r.value| == |ls|
      && forall j | 0 <= j < |ls| :: r.value[j] == Ticks(ls[j].user, ls[j].system, ls[j].idle)
  {
    var lines := Mapped(TextOf, xs);
    forall i | 0 <= i < |xs| ensures HoldsLine(lines[i], LineOf(xs[i])) && '\n' !in lines[i] {
      ShownLine(xs[i]);
    }
    SplitJoin(lines, '\n');
    SampleOf(lines, Mapped(LineOf, xs));
  }
}
