/** The processes using most: ranking, cutting off, and dropping those that have gone. */
module Processes {
  import opened Outcomes
  import opened Sums

  /** Usages are percentages; they are exact here and totally ordered. */
  datatype Candidate = Candidate(pid: int, uid: string, cpuUsage: real, memUsage: real)

  datatype SortOrder = ByCpu | ByMemory

  function Key(rank: SortOrder, c: Candidate): real {
    match rank case ByCpu => c.cpuUsage case ByMemory => c.memUsage
  }

  ghost predicate Descending(rank: SortOrder, cs: seq<Candidate>) {
    forall i, j | 0 <= i < j < |cs| :: Key(rank, cs[i]) >= Key(rank, cs[j])
  }

  function Cut(n: nat, count: int): int {
    if n > count then count else n
  }

  /** `dropped` is the rest of the candidates, and none of it ranks above anything kept. */
  ghost predicate Splits(rank: SortOrder, all: seq<Candidate>, kept: seq<Candidate>, dropped: seq<Candidate>) {
    && multiset(kept + dropped) == multiset(all)
    && forall i, j | 0 <= i < |kept| && 0 <= j < |dropped| :: Key(rank, kept[i]) >= Key(rank, dropped[j])
  }

  /** The first `count` of the candidates by rank. */
  ghost predicate IsTop(rank: SortOrder, all: seq<Candidate>, kept: seq<Candidate>, count: int) {
    && |kept| == Cut(|all|, count) && Descending(rank, kept)
    && exists dropped :: Splits(rank, all, kept, dropped)
  }

  method Swap(a: array<Candidate>, i: nat, j: nat)
    requires i < j < a.Length
    modifies a
    ensures a[..] == old(a[..])[i := old(a[j])][j := old(a[i])]
    ensures multiset(a[..]) == multiset(old(a[..]))
  {
    a[i], a[j] := a[j], a[i];
  }

  /** Everything before `i` is in order except that the element at `j` may have to move up. */
  ghost predicate InOrderBut(rank: SortOrder, cs: seq<Candidate>, i: nat, j: nat) {
    forall p, q | 0 <= p < q <= i && q < |cs| && q != j :: Key(rank, cs[p]) >= Key(rank, cs[q])
  }

  lemma MovedUp(rank: SortOrder, before: seq<Candidate>, after: seq<Candidate>, i: nat, j: nat)
    requires 0 < j <= i < |before| && InOrderBut(rank, before, i, j)
    requires Key(rank, before[j]) > Key(rank, before[j - 1])
    requires after == before[j - 1 := before[j]][j := before[j - 1]]
    ensures InOrderBut(rank, after, i, j - 1)
  {
  }

  lemma InOrderNow(rank: SortOrder, cs: seq<Candidate>, i: nat, j: nat)
    requires j <= i < |cs| && InOrderBut(rank, cs, i, j)
    requires j > 0 ==> Key(rank, cs[j]) <= Key(rank, cs[j - 1])
    ensures Descending(rank, cs[..i + 1])
  {
    forall p, q | 0 <= p < q <= i ensures Key(rank, cs[p]) >= Key(rank, cs[q]) {
      if q == j && p < j - 1 {
        assert Key(rank, cs[p]) >= Key(rank, cs[j - 1]);
      }
    }
  }

  lemma InOrderFirst(rank: SortOrder, cs: seq<Candidate>, i: nat)
    requires i < |cs| && Descending(rank, cs[..i])
    ensures InOrderBut(rank, cs, i, i)
  {
    assert forall p | 0 <= p < i :: cs[..i][p] == cs[p];
  }

  /** Move the element at `i` up to its place. */
  method Insert(a: array<Candidate>, rank: SortOrder, i: nat)
    requires i < a.Length && Descending(rank, a[..i])
    modifies a
    ensures Descending(rank, a[..i + 1]) && multiset(a[..]) == multiset(old(a[..]))
  {
    var j := i;
    assert a[..i] == a[..][..i];
    InOrderFirst(rank, a[..], i);
    while j > 0 && Key(rank, a[j]) > Key(rank, a[j - 1])
      invariant 0 <= j <= i && InOrderBut(rank, a[..], i, j)
      invariant multiset(a[..]) == multiset(old(a[..]))
    {
      ghost var before := a[..];
      Swap(a, j - 1, j);
      MovedUp(rank, before, a[..], i, j);
      j := j - 1;
    }
    InOrderNow(rank, a[..], i, j);
    assert a[..i + 1] == a[..][..i + 1];
  }

  /** In place, by insertion. `sort.Slice` promises no more than what is ensured here. */
  method SortSlice(a: array<Candidate>, rank: SortOrder)
    modifies a
    ensures Descending(rank, a[..]) && multiset(a[..]) == multiset(old(a[..]))
  {
    for i := 0 to a.Length
      invariant Descending(rank, a[..i]) && multiset(a[..]) == multiset(old(a[..]))
    {
      Insert(a, rank, i);
    }
    assert a[..a.Length] == a[..];
  }

  /** Sorts in place and keeps the front. A negative count panics, with no candidates at all too. */
  method SortAndLimit(a: array<Candidate>, rank: SortOrder, count: int) returns (r: Result<seq<Candidate>>)
    modifies a
    ensures multiset(a[..]) == multiset(old(a[..])) && Descending(rank, a[..])
    ensures r.Err? <==> count < 0
    ensures r.Ok? ==> r.value == a[..Cut(a.Length, count)] && IsTop(rank, old(a[..]), r.value, count)
    ensures r.Ok? ==> |r.value| == (if count < a.Length then count else a.Length)
    ensures r.Ok? ==> forall i, j | 0 <= i < |r.value| && i < j < a.Length ::
      && (rank.ByCpu? ==> r.value[i].cpuUsage >= a[j].cpuUsage)
      && (rank.ByMemory? ==> r.value[i].memUsage >= a[j].memUsage)
  {
    SortSlice(a, rank);
    if a.Length > count {
      if count < 0 {
        return Err;
      }
      FrontIsTop(rank, old(a[..]), a[..], count);
      return Ok(a[..count]);
    }
    FrontIsTop(rank, old(a[..]), a[..], a.Length);
    return Ok(a[..a.Length]);
  }

  /** Whatever sorted permutation the sort leaves, its front is a top selection. */
  lemma FrontIsTop(rank: SortOrder, all: seq<Candidate>, sorted: seq<Candidate>, k: nat)
    requires k <= |sorted| && Descending(rank, sorted) && multiset(sorted) == multiset(all)
    ensures |all| == |sorted|
    ensures forall count: int | Cut(|all|, count) == k :: IsTop(rank, all, sorted[..k], count)
  {
    assert |multiset(all)| == |all| && |multiset(sorted)| == |sorted|;
    assert sorted[..k] + sorted[k..] == sorted;
    assert Splits(rank, all, sorted[..k], sorted[k..]);
  }

  // ---------- ties apart, there is one top selection ----------

  function AtLeast(rank: SortOrder, v: real): Candidate -> nat {
    c => if Key(rank, c) >= v then 1 else 0
  }

  lemma {:induction false} AllAtLeast(rank: SortOrder, v: real, cs: seq<Candidate>)
    requires forall i | 0 <= i < |cs| :: Key(rank, cs[i]) >= v
    ensures SumBy(AtLeast(rank, v), cs) == |cs|
  {
    if cs == [] {
    } else {
      AllAtLeast(rank, v, cs[1..]);
    }
  }

  lemma {:induction false} NoneAtLeast(rank: SortOrder, v: real, cs: seq<Candidate>)
    requires forall i | 0 <= i < |cs| :: Key(rank, cs[i]) < v
    ensures SumBy(AtLeast(rank, v), cs) == 0
  {
    if cs == [] {
    } else {
      NoneAtLeast(rank, v, cs[1..]);
    }
  }

  /** More than `i` candidates reach the usage of number `i` of a top selection... */
  lemma Reached(rank: SortOrder, all: seq<Candidate>, kept: seq<Candidate>, dropped: seq<Candidate>, i: nat)
    requires Descending(rank, kept) && Splits(rank, all, kept, dropped) && i < |kept|
    ensures SumBy(AtLeast(rank, Key(rank, kept[i])), all) > i
  {
    var f, front, rest := AtLeast(rank, Key(rank, kept[i])), kept[..i + 1], kept[i + 1..] + dropped;
    assert kept + dropped == front + rest;
    AllAtLeast(rank, Key(rank, kept[i]), front);
    SumByConcat(f, front, rest);
    SumByPermuted(f, kept + dropped, all);
  }

  /** ...and no more than `i` reach a higher one. */
  lemma NotReached(rank: SortOrder, all: seq<Candidate>, kept: seq<Candidate>, dropped: seq<Candidate>, i: nat, v: real)
    requires Descending(rank, kept) && Splits(rank, all, kept, dropped) && i < |kept| && v > Key(rank, kept[i])
    ensures SumBy(AtLeast(rank, v), all) <= i
  {
    var f, front, rest := AtLeast(rank, v), kept[..i], kept[i..] + dropped;
    assert kept + dropped == front + rest;
    forall j | 0 <= j < |rest| ensures Key(rank, rest[j]) < v {
    }
    NoneAtLeast(rank, v, rest);
    AtMostLength(f, front);
    SumByConcat(f, front, rest);
    SumByPermuted(f, kept + dropped, all);
  }

  lemma {:induction false} AtMostLength(f: Candidate -> nat, cs: seq<Candidate>)
    requires forall c :: f(c) <= 1
    ensures SumBy(f, cs) <= |cs|
  {
    if cs == [] {
    } else {
      AtMostLength(f, cs[1..]);
    }
  }

  /** The sort is not stable, but any two top selections show the same usages place by place. */
  lemma TopIsUniqueUpToTies(rank: SortOrder, all: seq<Candidate>, a: seq<Candidate>, b: seq<Candidate>, count: int, i: nat)
    requires IsTop(rank, all, a, count) && IsTop(rank, all, b, count) && i < |a|
    ensures |a| == |b| && Key(rank, a[i]) == Key(rank, b[i])
  {
    var da :| Splits(rank, all, a, da);
    var db :| Splits(rank, all, b, db);
    Reached(rank, all, a, da, i);
    Reached(rank, all, b, db, i);
    if Key(rank, a[i]) > Key(rank, b[i]) {
      NotReached(rank, all, b, db, i, Key(rank, a[i]));
    }
    if Key(rank, b[i]) > Key(rank, a[i]) {
      NotReached(rank, all, a, da, i, Key(rank, b[i]));
    }
  }

  // ---------- processes that have gone ----------

  /** What is reported of a process; `detail` stands for the descriptive fields read last. */
  datatype Process = Process(pid: int, cpuUsage: real, memUsage: real, detail: string)

  /** The reported process, None when its stat file can no longer be read. */
  function Enrich(detailOf: int -> Option<string>): Candidate -> Option<Process> {
    (c: Candidate) => match detailOf(c.pid)
      case None => None
      case Some(d) => Some(Process(c.pid, c.cpuUsage, c.memUsage, d))
  }

  method Report(candidates: seq<Candidate>, detailOf: int -> Option<string>) returns (out: seq<Process>)
    ensures out == Collect(Enrich(detailOf), candidates)
  {
    out := [];
    for i := 0 to |candidates|
      invariant out == Collect(Enrich(detailOf), candidates[..i])
    {
      var c := candidates[i];
      CollectMore(Enrich(detailOf), candidates, i);
      var d := detailOf(c.pid);
      if d.None? {
        continue;
      }
      out := out + [Process(c.pid, c.cpuUsage, c.memUsage, d.value)];
    }
    assert candidates[..|candidates|] == candidates;
  }

  /** What is reported of a process is what was measured of it, and what its files said last. */
  ghost predicate Reports(detailOf: int -> Option<string>, c: Candidate, p: Process) {
    p.pid == c.pid && p.cpuUsage == c.cpuUsage && p.memUsage == c.memUsage && Some(p.detail) == detailOf(c.pid)
  }

  /** `at` says which candidates are reported: those whose files can be read, in order. */
  lemma ReportsTheReadable(candidates: seq<Candidate>, detailOf: int -> Option<string>) returns (at: seq<nat>)
    ensures var out := Collect(Enrich(detailOf), candidates);
      && |at| == |out| && (forall k, l | 0 <= k < l < |at| :: at[k] < at[l])
      && (forall k | 0 <= k < |at| :: at[k] < |candidates| && Reports(detailOf, candidates[at[k]], out[k]))
      && (forall i | 0 <= i < |candidates| :: i in at <==> detailOf(candidates[i].pid).Some?)
  {
    CollectComesFrom(Enrich(detailOf), candidates);
    at := Positions(Enrich(detailOf), candidates);
    forall i | 0 <= i < |candidates| ensures i in at <==> detailOf(candidates[i].pid).Some? {
      PositionsAre(Enrich(detailOf), candidates, i);
    }
  }

  function ProcessKey(rank: SortOrder, p: Process): real {
    match rank case ByCpu => p.cpuUsage case ByMemory => p.memUsage
  }

  /** Leaving out processes that have exited keeps the ranking. */
  lemma ReportKeepsRanking(rank: SortOrder, candidates: seq<Candidate>, detailOf: int -> Option<string>)
    requires Descending(rank, candidates)
    ensures var out := Collect(Enrich(detailOf), candidates);
      forall i, j | 0 <= i < j < |out| :: ProcessKey(rank, out[i]) >= ProcessKey(rank, out[j])
  {
    CollectComesFrom(Enrich(detailOf), candidates);
    var at := Positions(Enrich(detailOf), candidates);
    var out := Collect(Enrich(detailOf), candidates);
    forall i, j | 0 <= i < j < |out| ensures ProcessKey(rank, out[i]) >= ProcessKey(rank, out[j]) {
      assert Key(rank, candidates[at[i]]) >= Key(rank, candidates[at[j]]);
    }
  }
}
