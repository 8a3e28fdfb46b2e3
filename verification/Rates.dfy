/** Per-second rates from two samples of cumulative counters. */
module Rates {
  import opened Sums
  import BlockIO
  import opened Words

  // ---------- a group of counters ----------

  /** A group counts as reset when any of its counters went backwards. */
  predicate Backwards(now: seq<real>, prev: seq<real>)
    requires |now| == |prev|
  {
    exists i :: 0 <= i < |now| && now[i] < prev[i]
  }

  /** The rates of a group: all zero after a reset. */
  function GroupRates(now: seq<real>, prev: seq<real>, elapsed: real): (rates: seq<real>)
    requires |now| == |prev| && elapsed > 0.0
    ensures |rates| == |now|
  {
    seq(|now|, i requires 0 <= i < |now| => if Backwards(now, prev) then 0.0 else (now[i] - prev[i]) / elapsed)
  }

  function Zeros(n: nat): seq<real> {
    seq(n, i requires 0 <= i < n => 0.0)
  }

  lemma Quotient(a: real, b: real)
    requires b > 0.0
    ensures a / b * b == a && (a >= 0.0 ==> a / b >= 0.0) && (a / b == 0.0 <==> a == 0.0)
  {
  }

  /** Rates are never negative, whatever the samples. */
  lemma RatesAreNotNegative(now: seq<real>, prev: seq<real>, elapsed: real)
    requires |now| == |prev| && elapsed > 0.0
    ensures forall i | 0 <= i < |now| :: GroupRates(now, prev, elapsed)[i] >= 0.0
  {
    forall i | 0 <= i < |now| ensures GroupRates(now, prev, elapsed)[i] >= 0.0 {
      assert now[i] < prev[i] ==> Backwards(now, prev);
      Quotient(now[i] - prev[i], elapsed);
    }
  }

  /** A group shows nothing but zeros exactly when it was reset or stood still. */
  lemma ZeroIff(now: seq<real>, prev: seq<real>, elapsed: real)
    requires |now| == |prev| && elapsed > 0.0
    ensures GroupRates(now, prev, elapsed) == Zeros(|now|) <==> Backwards(now, prev) || now == prev
  {
    var rates := GroupRates(now, prev, elapsed);
    forall i | 0 <= i < |now| ensures !Backwards(now, prev) ==> (rates[i] == 0.0 <==> now[i] == prev[i]) {
      Quotient(now[i] - prev[i], elapsed);
    }
    if rates == Zeros(|now|) && !Backwards(now, prev) {
      forall i | 0 <= i < |now| ensures now[i] == prev[i] {
        assert rates[i] == Zeros(|now|)[i];
      }
    }
  }

  // ---------- runs of samples ----------

  /** One more sample of a group, `elapsed` seconds after the one before. */
  datatype Timed = Timed(counters: seq<real>, elapsed: real)

  ghost predicate IsRun(width: nat, run: seq<Timed>) {
    && run != [] && (forall k | 0 <= k < |run| :: |run[k].counters| == width)
    && forall k | 0 < k < |run| :: run[k].elapsed > 0.0 && !Backwards(run[k].counters, run[k - 1].counters)
  }

  function Elapsed(run: seq<Timed>): real {
    if |run| <= 1 then 0.0 else Elapsed(run[..|run| - 1]) + run[|run| - 1].elapsed
  }

  /** Rate times elapsed time of counter `i`, over each pair of consecutive samples, added up. */
  ghost function Added(width: nat, run: seq<Timed>, i: nat): real
    requires IsRun(width, run) && i < width
  {
    var n := |run| - 1;
    if n == 0 then 0.0
    else
      RunPrefix(width, run);
      Added(width, run[..n], i) + GroupRates(run[n].counters, run[n - 1].counters, run[n].elapsed)[i] * run[n].elapsed
  }

  lemma RunPrefix(width: nat, run: seq<Timed>)
    requires IsRun(width, run) && |run| > 1
    ensures IsRun(width, run[..|run| - 1])
  {
    var init := run[..|run| - 1];
    forall k | 0 < k < |init| ensures init[k].elapsed > 0.0 && !Backwards(init[k].counters, init[k - 1].counters) {
      assert init[k] == run[k] && init[k - 1] == run[k - 1];
    }
  }

  lemma {:induction false} AddedIsDifference(width: nat, run: seq<Timed>, i: nat)
    requires IsRun(width, run) && i < width
    ensures Added(width, run, i) == run[|run| - 1].counters[i] - run[0].counters[i] >= 0.0
    ensures |run| > 1 ==> Elapsed(run) > 0.0
  {
    var n := |run| - 1;
    if n == 0 {
    } else {
      RunPrefix(width, run);
      AddedIsDifference(width, run[..n], i);
      Quotient(run[n].counters[i] - run[n - 1].counters[i], run[n].elapsed);
      assert !Backwards(run[n].counters, run[n - 1].counters);
    }
  }

  /** Conservation: over any run of samples that never goes backwards, the amounts the rates of
      consecutive pairs stand for add up to what the rate from first to last stands for. */
  lemma RatesTelescope(width: nat, run: seq<Timed>, i: nat)
    requires IsRun(width, run) && i < width && |run| > 1
    ensures Elapsed(run) > 0.0
    ensures Added(width, run, i)
         == GroupRates(run[|run| - 1].counters, run[0].counters, Elapsed(run))[i] * Elapsed(run)
  {
    AddedIsDifference(width, run, i);
    forall j | 0 <= j < width ensures run[|run| - 1].counters[j] >= run[0].counters[j] {
      AddedIsDifference(width, run, j);
    }
    assert !Backwards(run[|run| - 1].counters, run[0].counters);
    Quotient(run[|run| - 1].counters[i] - run[0].counters[i], Elapsed(run));
  }

  // ---------- totals ----------

  datatype Interface = Interface(name: string, rxBytes: nat, txBytes: nat, rxPackets: nat, txPackets: nat)

  function RxBytes(n: Interface): nat { n.rxBytes }
  function TxBytes(n: Interface): nat { n.txBytes }
  function RxPackets(n: Interface): nat { n.rxPackets }
  function TxPackets(n: Interface): nat { n.txPackets }

  function ReadBytes(d: BlockIO.Device): nat { d.readBytes }
  function WriteBytes(d: BlockIO.Device): nat { d.writeBytes }
  function ReadOps(d: BlockIO.Device): nat { d.readOps }
  function WriteOps(d: BlockIO.Device): nat { d.writeOps }

  /** Adding 64-bit counters up, with 64-bit wrap-around. */
  function Sum64<T>(f: T -> nat, s: seq<T>): nat {
    SumBy(f, s) % TWO64
  }

  lemma Sum64Step<T>(f: T -> nat, s: seq<T>, n: nat)
    requires n < |s|
    ensures Sum64(f, s[..n + 1]) == (Sum64(f, s[..n]) + f(s[n])) % TWO64
  {
    assert s[..n + 1] == s[..n] + [s[n]];
    assert [s[n]][1..] == [];
    SumByConcat(f, s[..n], [s[n]]);
  }

  method NetworkTotals(ns: seq<Interface>) returns (t: Interface)
    ensures t.rxBytes == Sum64(RxBytes, ns) && t.txBytes == Sum64(TxBytes, ns)
    ensures t.rxPackets == Sum64(RxPackets, ns) && t.txPackets == Sum64(TxPackets, ns)
  {
    t := Interface("", 0, 0, 0, 0);
    for i := 0 to |ns|
      invariant t.rxBytes == Sum64(RxBytes, ns[..i]) && t.txBytes == Sum64(TxBytes, ns[..i])
      invariant t.rxPackets == Sum64(RxPackets, ns[..i]) && t.txPackets == Sum64(TxPackets, ns[..i])
    {
      Sum64Step(RxBytes, ns, i);
      Sum64Step(TxBytes, ns, i);
      Sum64Step(RxPackets, ns, i);
      Sum64Step(TxPackets, ns, i);
      t := t.(rxBytes := (t.rxBytes + ns[i].rxBytes) % TWO64, txBytes := (t.txBytes + ns[i].txBytes) % TWO64,
              rxPackets := (t.rxPackets + ns[i].rxPackets) % TWO64, txPackets := (t.txPackets + ns[i].txPackets) % TWO64);
    }
    assert ns[..|ns|] == ns;
  }

  method BlockIOTotals(ds: seq<BlockIO.Device>) returns (t: BlockIO.Device)
    ensures t.readBytes == Sum64(ReadBytes, ds) && t.writeBytes == Sum64(WriteBytes, ds)
    ensures t.readOps == Sum64(ReadOps, ds) && t.writeOps == Sum64(WriteOps, ds)
  {
    t := BlockIO.Device("", 0, 0, 0, 0, 0, 0);
    for i := 0 to |ds|
      invariant t.readBytes == Sum64(ReadBytes, ds[..i]) && t.writeBytes == Sum64(WriteBytes, ds[..i])
      invariant t.readOps == Sum64(ReadOps, ds[..i]) && t.writeOps == Sum64(WriteOps, ds[..i])
    {
      Sum64Step(ReadBytes, ds, i);
      Sum64Step(WriteBytes, ds, i);
      Sum64Step(ReadOps, ds, i);
      Sum64Step(WriteOps, ds, i);
      t := t.(readBytes := (t.readBytes + ds[i].readBytes) % TWO64, writeBytes := (t.writeBytes + ds[i].writeBytes) % TWO64,
              readOps := (t.readOps + ds[i].readOps) % TWO64, writeOps := (t.writeOps + ds[i].writeOps) % TWO64);
    }
    assert ds[..|ds|] == ds;
  }

  // ---------- totals against what they are totals of ----------

  /** How far the counters that went forwards did so, added up; samples are paired by index. */
  function Gained<T>(f: T -> nat, prev: seq<T>, now: seq<T>): nat
    requires |prev| == |now|
  {
    if now == [] then 0
    else (if f(now[0]) > f(prev[0]) then f(now[0]) - f(prev[0]) else 0) + Gained(f, prev[1..], now[1..])
  }

  /** How far the others went backwards is what the samples gain the other way round. */
  function Lost<T>(f: T -> nat, prev: seq<T>, now: seq<T>): nat
    requires |prev| == |now|
  {
    Gained(f, now, prev)
  }

  lemma {:induction false} SumChange<T>(f: T -> nat, prev: seq<T>, now: seq<T>)
    requires |prev| == |now|
    ensures SumBy(f, now) - SumBy(f, prev) == Gained(f, prev, now) - Lost(f, prev, now)
  {
    if now == [] {
    } else {
      SumChange(f, prev[1..], now[1..]);
    }
  }

  lemma {:induction false} LostIff<T>(f: T -> nat, prev: seq<T>, now: seq<T>)
    requires |prev| == |now|
    ensures Lost(f, prev, now) == 0 <==> forall i | 0 <= i < |now| :: f(prev[i]) <= f(now[i])
  {
    if now == [] {
    } else {
      LostIff(f, prev[1..], now[1..]);
      assert forall i | 0 < i < |now| :: now[i] == now[1..][i - 1] && prev[i] == prev[1..][i - 1];
    }
  }

  /** How often a sum has run past 2^64. */
  function Wraps<T>(f: T -> nat, s: seq<T>): nat {
    SumBy(f, s) / TWO64
  }

  /** When a total goes backwards, for any two samples of the same interfaces (or devices): exactly
      when the gains less the losses fall short of what the total lost by running past 2^64. */
  lemma TotalDropsIff<T>(f: T -> nat, prev: seq<T>, now: seq<T>)
    requires |prev| == |now|
    ensures Sum64(f, now) < Sum64(f, prev) <==>
      Gained(f, prev, now) - Lost(f, prev, now) < TWO64 * (Wraps(f, now) - Wraps(f, prev))
  {
    SumChange(f, prev, now);
    Remainder(f, prev);
    Remainder(f, now);
  }

  lemma Remainder<T>(f: T -> nat, s: seq<T>)
    ensures Sum64(f, s) == SumBy(f, s) - TWO64 * Wraps(f, s)
  {
  }

  lemma Exact<T>(f: T -> nat, s: seq<T>)
    requires SumBy(f, s) < TWO64
    ensures Sum64(f, s) == SumBy(f, s)
  {
  }

  /** Counters that never go backwards one by one have totals that do not either, as long as the
      later total fits in 64 bits. */
  lemma TotalsGrow<T>(f: T -> nat, prev: seq<T>, now: seq<T>)
    requires |prev| == |now| && forall i | 0 <= i < |now| :: f(prev[i]) <= f(now[i])
    requires SumBy(f, now) < TWO64
    ensures Sum64(f, prev) <= Sum64(f, now)
  {
    SumChange(f, prev, now);
    LostIff(f, prev, now);
    Exact(f, prev);
    Exact(f, now);
  }

  /** While the sums fit, a reset shows exactly when more was lost than the others gained. */
  lemma ResetShowsIff<T>(f: T -> nat, prev: seq<T>, now: seq<T>)
    requires |prev| == |now| && SumBy(f, prev) < TWO64 && SumBy(f, now) < TWO64
    ensures Sum64(f, now) < Sum64(f, prev) <==> Gained(f, prev, now) < Lost(f, prev, now)
  {
    TotalDropsIff(f, prev, now);
  }

  /** One entry started over, the others whatever they are now, however many of them: its loss shows
      exactly when the others did not make up for it. */
  lemma OneResetShowsIff<T>(f: T -> nat, a: seq<T>, x: T, b: seq<T>, a': seq<T>, y: T, b': seq<T>)
    requires SumBy(f, a + [x] + b) < TWO64 && SumBy(f, a' + [y] + b') < TWO64
    ensures Sum64(f, a' + [y] + b') < Sum64(f, a + [x] + b) <==>
      SumBy(f, a' + b') - SumBy(f, a + b) < f(x) - f(y)
  {
    var before, after := a + [x] + b, a' + [y] + b';
    Exact(f, before);
    Exact(f, after);
    SumByAround(f, a, x, b);
    SumByAround(f, a', y, b');
  }

  /** Counters none of which went backwards, and which gained less than 2^64 between them, look
      reset exactly when their sum ran past a multiple of 2^64. */
  lemma FalseResetIff<T>(f: T -> nat, prev: seq<T>, now: seq<T>)
    requires |prev| == |now| && (forall i | 0 <= i < |now| :: f(prev[i]) <= f(now[i]))
    requires Gained(f, prev, now) < TWO64
    ensures Sum64(f, now) < Sum64(f, prev) <==> Wraps(f, prev) < Wraps(f, now)
  {
    LostIff(f, prev, now);
    TotalDropsIff(f, prev, now);
    SumChange(f, prev, now);
  }

  // ---------- a container's rates ----------

  datatype Sample = Sample(id: string, interfaces: seq<Interface>, devices: seq<BlockIO.Device>,
                           throttledPeriods: nat, throttledSeconds: real)

  datatype ContainerRates = ContainerRates(id: string,
    rxBytesPerSec: real, txBytesPerSec: real, rxPacketsPerSec: real, txPacketsPerSec: real,
    readBytesPerSec: real, writeBytesPerSec: real, readsPerSec: real, writesPerSec: real,
    throttledPerSec: real, throttledSecPerSec: real)

  function Network(s: Sample): seq<real> {
    [Sum64(RxBytes, s.interfaces) as real, Sum64(TxBytes, s.interfaces) as real,
     Sum64(RxPackets, s.interfaces) as real, Sum64(TxPackets, s.interfaces) as real]
  }

  function BlockIo(s: Sample): seq<real> {
    [Sum64(ReadBytes, s.devices) as real, Sum64(WriteBytes, s.devices) as real,
     Sum64(ReadOps, s.devices) as real, Sum64(WriteOps, s.devices) as real]
  }

  function Throttling(s: Sample): seq<real> {
    [s.throttledPeriods as real, s.throttledSeconds]
  }

  function NetworkRates(r: ContainerRates): seq<real> {
    [r.rxBytesPerSec, r.txBytesPerSec, r.rxPacketsPerSec, r.txPacketsPerSec]
  }

  function BlockIoRates(r: ContainerRates): seq<real> {
    [r.readBytesPerSec, r.writeBytesPerSec, r.readsPerSec, r.writesPerSec]
  }

  function ThrottlingRates(r: ContainerRates): seq<real> {
    [r.throttledPerSec, r.throttledSecPerSec]
  }

  lemma FourForwards(a: seq<real>, b: seq<real>)
    requires |a| == |b| == 4
    ensures Backwards(a, b) <==> a[0] < b[0] || a[1] < b[1] || a[2] < b[2] || a[3] < b[3]
  {
  }

  /** The rates of four totals, zero unless all of them went forwards. */
  method FourRates(now: (nat, nat, nat, nat), prev: (nat, nat, nat, nat), elapsed: real)
    returns (a: real, b: real, c: real, d: real)
    requires elapsed > 0.0
    ensures [a, b, c, d] == GroupRates(Four(now), Four(prev), elapsed)
  {
    FourForwards(Four(now), Four(prev));
    a, b, c, d := 0.0, 0.0, 0.0, 0.0;
    if now.0 >= prev.0 && now.1 >= prev.1 && now.2 >= prev.2 && now.3 >= prev.3 {
      a, b := (now.0 - prev.0) as real / elapsed, (now.1 - prev.1) as real / elapsed;
      c, d := (now.2 - prev.2) as real / elapsed, (now.3 - prev.3) as real / elapsed;
    }
  }

  function Four(t: (nat, nat, nat, nat)): seq<real> {
    [t.0 as real, t.1 as real, t.2 as real, t.3 as real]
  }

  method ThrottlingSince(c: Sample, prev: Sample, elapsed: real) returns (periods: real, seconds: real)
    requires elapsed > 0.0
    ensures [periods, seconds] == GroupRates(Throttling(c), Throttling(prev), elapsed)
  {
    periods, seconds := 0.0, 0.0;
    assert Backwards(Throttling(c), Throttling(prev)) <==>
      Throttling(c)[0] < Throttling(prev)[0] || Throttling(c)[1] < Throttling(prev)[1];
    if c.throttledPeriods >= prev.throttledPeriods && c.throttledSeconds >= prev.throttledSeconds {
      periods := (c.throttledPeriods - prev.throttledPeriods) as real / elapsed;
      seconds := (c.throttledSeconds - prev.throttledSeconds) / elapsed;
    }
  }

  /** Each group is compared and computed on its own: a reset in one zeroes that one only. */
  ghost predicate AreRates(c: Sample, prev: Sample, elapsed: real, r: ContainerRates) {
    && r.id == c.id
    && (elapsed <= 0.0 || c.id != prev.id ==>
          NetworkRates(r) == Zeros(4) && BlockIoRates(r) == Zeros(4) && ThrottlingRates(r) == Zeros(2))
    && (elapsed > 0.0 && c.id == prev.id ==>
          && NetworkRates(r) == GroupRates(Network(c), Network(prev), elapsed)
          && BlockIoRates(r) == GroupRates(BlockIo(c), BlockIo(prev), elapsed)
          && ThrottlingRates(r) == GroupRates(Throttling(c), Throttling(prev), elapsed))
  }

  method RatesSince(c: Sample, prev: Sample, elapsed: real) returns (r: ContainerRates)
    ensures AreRates(c, prev, elapsed, r)
  {
    r := ContainerRates(c.id, 0.0, 0.0, 0.0, 0.0, 0.0, 0.0, 0.0, 0.0, 0.0, 0.0);
    if elapsed <= 0.0 || c.id != prev.id {
      return;
    }
    var now := NetworkTotals(c.interfaces);
    var before := NetworkTotals(prev.interfaces);
    var rx, tx, rxp, txp := FourRates((now.rxBytes, now.txBytes, now.rxPackets, now.txPackets),
                                      (before.rxBytes, before.txBytes, before.rxPackets, before.txPackets), elapsed);
    var ioNow := BlockIOTotals(c.devices);
    var ioThen := BlockIOTotals(prev.devices);
    var rb, wb, ro, wo := FourRates((ioNow.readBytes, ioNow.writeBytes, ioNow.readOps, ioNow.writeOps),
                                    (ioThen.readBytes, ioThen.writeBytes, ioThen.readOps, ioThen.writeOps), elapsed);
    var periods, seconds := ThrottlingSince(c, prev, elapsed);
    r := ContainerRates(c.id, rx, tx, rxp, txp, rb, wb, ro, wo, periods, seconds);
  }

  // ---------- the rates, one by one ----------

  predicate IsTotalRate<T>(rate: real, elapsed: real, f: T -> nat, prev: seq<T>, now: seq<T>) {
    IsRate(rate, elapsed, Sum64(f, prev), Sum64(f, now))
  }

  predicate Dropped<T>(f: T -> nat, prev: seq<T>, now: seq<T>) {
    Sum64(f, now) < Sum64(f, prev)
  }

  lemma RateOf(now: real, prev: real, elapsed: real)
    requires elapsed > 0.0
    ensures (now - prev) / elapsed * elapsed == now - prev
  {
  }

  /** Which rate is about which counter: received bytes, sent bytes, received and sent packets, each
      the gain of its own total - or all zero when one of the four totals dropped. */
  lemma NetworkRatesAre(c: Sample, prev: Sample, elapsed: real, r: ContainerRates,
                        rxBytes: Interface -> nat, txBytes: Interface -> nat,
                        rxPackets: Interface -> nat, txPackets: Interface -> nat)
    requires AreRates(c, prev, elapsed, r) && elapsed > 0.0 && c.id == prev.id
    requires forall x: Interface :: rxBytes(x) == x.rxBytes && txBytes(x) == x.txBytes
    requires forall x: Interface :: rxPackets(x) == x.rxPackets && txPackets(x) == x.txPackets
    ensures
      var was, now := prev.interfaces, c.interfaces;
      if Dropped(rxBytes, was, now) || Dropped(txBytes, was, now)
         || Dropped(rxPackets, was, now) || Dropped(txPackets, was, now)
      then r.rxBytesPerSec == r.txBytesPerSec == r.rxPacketsPerSec == r.txPacketsPerSec == 0.0
      else
        && IsTotalRate(r.rxBytesPerSec, elapsed, rxBytes, was, now)
        && IsTotalRate(r.txBytesPerSec, elapsed, txBytes, was, now)
        && IsTotalRate(r.rxPacketsPerSec, elapsed, rxPackets, was, now)
        && IsTotalRate(r.txPacketsPerSec, elapsed, txPackets, was, now)
  {
    var was, now := prev.interfaces, c.interfaces;
    SameSum64(RxBytes, rxBytes, was, now);
    SameSum64(TxBytes, txBytes, was, now);
    SameSum64(RxPackets, rxPackets, was, now);
    SameSum64(TxPackets, txPackets, was, now);
    var n := (Sum64(rxBytes, now), Sum64(txBytes, now), Sum64(rxPackets, now), Sum64(txPackets, now));
    var p := (Sum64(rxBytes, was), Sum64(txBytes, was), Sum64(rxPackets, was), Sum64(txPackets, was));
    assert Network(c) == Four(n) && Network(prev) == Four(p);
    FourRatesAre(n, p, elapsed, NetworkRates(r));
    NetworkRatesInOrder(r);
  }

  lemma NetworkRatesInOrder(r: ContainerRates)
    ensures NetworkRates(r)[0] == r.rxBytesPerSec && NetworkRates(r)[1] == r.txBytesPerSec
    ensures NetworkRates(r)[2] == r.rxPacketsPerSec && NetworkRates(r)[3] == r.txPacketsPerSec
  {
  }

  lemma BlockIoRatesAre(c: Sample, prev: Sample, elapsed: real, r: ContainerRates,
                        readBytes: BlockIO.Device -> nat, writeBytes: BlockIO.Device -> nat,
                        readOps: BlockIO.Device -> nat, writeOps: BlockIO.Device -> nat)
    requires AreRates(c, prev, elapsed, r) && elapsed > 0.0 && c.id == prev.id
    requires forall x: BlockIO.Device :: readBytes(x) == x.readBytes && writeBytes(x) == x.writeBytes
    requires forall x: BlockIO.Device :: readOps(x) == x.readOps && writeOps(x) == x.writeOps
    ensures
      var was, now := prev.devices, c.devices;
      if Dropped(readBytes, was, now) || Dropped(writeBytes, was, now)
         || Dropped(readOps, was, now) || Dropped(writeOps, was, now)
      then r.readBytesPerSec == r.writeBytesPerSec == r.readsPerSec == r.writesPerSec == 0.0
      else
        && IsTotalRate(r.readBytesPerSec, elapsed, readBytes, was, now)
        && IsTotalRate(r.writeBytesPerSec, elapsed, writeBytes, was, now)
        && IsTotalRate(r.readsPerSec, elapsed, readOps, was, now)
        && IsTotalRate(r.writesPerSec, elapsed, writeOps, was, now)
  {
    var was, now := prev.devices, c.devices;
    SameSum64(ReadBytes, readBytes, was, now);
    SameSum64(WriteBytes, writeBytes, was, now);
    SameSum64(ReadOps, readOps, was, now);
    SameSum64(WriteOps, writeOps, was, now);
    var n := (Sum64(readBytes, now), Sum64(writeBytes, now), Sum64(readOps, now), Sum64(writeOps, now));
    var p := (Sum64(readBytes, was), Sum64(writeBytes, was), Sum64(readOps, was), Sum64(writeOps, was));
    assert BlockIo(c) == Four(n) && BlockIo(prev) == Four(p);
    FourRatesAre(n, p, elapsed, BlockIoRates(r));
    BlockIoRatesInOrder(r);
  }

  lemma BlockIoRatesInOrder(r: ContainerRates)
    ensures BlockIoRates(r)[0] == r.readBytesPerSec && BlockIoRates(r)[1] == r.writeBytesPerSec
    ensures BlockIoRates(r)[2] == r.readsPerSec && BlockIoRates(r)[3] == r.writesPerSec
  {
  }

  lemma ThrottlingRatesAre(c: Sample, prev: Sample, elapsed: real, r: ContainerRates)
    requires AreRates(c, prev, elapsed, r) && elapsed > 0.0 && c.id == prev.id
    ensures
      if c.throttledPeriods < prev.throttledPeriods || c.throttledSeconds < prev.throttledSeconds
      then r.throttledPerSec == r.throttledSecPerSec == 0.0
      else
        && r.throttledPerSec * elapsed == (c.throttledPeriods - prev.throttledPeriods) as real
        && r.throttledSecPerSec * elapsed == c.throttledSeconds - prev.throttledSeconds
  {
    var now, was := Throttling(c), Throttling(prev);
    assert Backwards(now, was) <==> now[0] < was[0] || now[1] < was[1];
    assert ThrottlingRates(r)[0] == r.throttledPerSec && ThrottlingRates(r)[1] == r.throttledSecPerSec;
    RateOf(now[0], was[0], elapsed);
    RateOf(now[1], was[1], elapsed);
  }

  /** `rate` is what a counter gained, per second. */
  predicate IsRate(rate: real, elapsed: real, prev: nat, now: nat) {
    rate * elapsed == now as real - prev as real
  }

  lemma FourRatesAre(now: (nat, nat, nat, nat), prev: (nat, nat, nat, nat), elapsed: real, rates: seq<real>)
    requires elapsed > 0.0 && rates == GroupRates(Four(now), Four(prev), elapsed)
    ensures
      if now.0 < prev.0 || now.1 < prev.1 || now.2 < prev.2 || now.3 < prev.3
      then rates == Zeros(4)
      else
        && |rates| == 4 && IsRate(rates[0], elapsed, prev.0, now.0) && IsRate(rates[1], elapsed, prev.1, now.1)
        && IsRate(rates[2], elapsed, prev.2, now.2) && IsRate(rates[3], elapsed, prev.3, now.3)
  {
    var n, p := Four(now), Four(prev);
    FourForwards(n, p);
    if !Backwards(n, p) {
      RateOf(n[0], p[0], elapsed);
      RateOf(n[1], p[1], elapsed);
      RateOf(n[2], p[2], elapsed);
      RateOf(n[3], p[3], elapsed);
    }
  }

  lemma {:induction false} SameSum<T>(f: T -> nat, g: T -> nat, s: seq<T>)
    requires forall x :: f(x) == g(x)
    ensures SumBy(f, s) == SumBy(g, s)
  {
    if s == [] {
    } else {
      SameSum(f, g, s[1..]);
    }
  }

  lemma SameSum64<T>(f: T -> nat, g: T -> nat, was: seq<T>, now: seq<T>)
    requires forall x :: f(x) == g(x)
    ensures Sum64(f, was) == Sum64(g, was) && Sum64(f, now) == Sum64(g, now)
  {
    SameSum(f, g, was);
    SameSum(f, g, now);
  }

  // ---------- what a reset of one interface does to the rates ----------

  /** The same interfaces, name by name, are there in both samples. */
  predicate SameInterfaces(c: Sample, prev: Sample) {
    |c.interfaces| == |prev.interfaces|
    && forall i | 0 <= i < |c.interfaces| :: c.interfaces[i].name == prev.interfaces[i].name
  }

  predicate Fits(s: Sample) {
    && SumBy(RxBytes, s.interfaces) < TWO64 && SumBy(TxBytes, s.interfaces) < TWO64
    && SumBy(RxPackets, s.interfaces) < TWO64 && SumBy(TxPackets, s.interfaces) < TWO64
  }

  /** More of a counter was lost to resets than the other interfaces gained. */
  predicate Outweighed(f: Interface -> nat, c: Sample, prev: Sample)
    requires |c.interfaces| == |prev.interfaces|
  {
    Gained(f, prev.interfaces, c.interfaces) < Lost(f, prev.interfaces, c.interfaces)
  }

  /** Interface by interface, when a container's network rates are all zero: when nothing changed in
      total, or resets took more from one of the four counters than it gained elsewhere. */
  lemma NetworkZeroIff(c: Sample, prev: Sample, elapsed: real, r: ContainerRates)
    requires AreRates(c, prev, elapsed, r) && elapsed > 0.0 && c.id == prev.id
    requires SameInterfaces(c, prev) && Fits(c) && Fits(prev)
    ensures NetworkRates(r) == Zeros(4) <==>
      || Network(c) == Network(prev)
      || Outweighed(RxBytes, c, prev) || Outweighed(TxBytes, c, prev)
      || Outweighed(RxPackets, c, prev) || Outweighed(TxPackets, c, prev)
  {
    ZeroIff(Network(c), Network(prev), elapsed);
    FourForwards(Network(c), Network(prev));
    ResetShowsIff(RxBytes, prev.interfaces, c.interfaces);
    ResetShowsIff(TxBytes, prev.interfaces, c.interfaces);
    ResetShowsIff(RxPackets, prev.interfaces, c.interfaces);
    ResetShowsIff(TxPackets, prev.interfaces, c.interfaces);
  }

  function Pair(a: nat, b: nat): seq<Interface> {
    [Interface("a", a, a, a, a), Interface("b", b, b, b, b)]
  }

  lemma PairTotals(s: Sample, a: nat, b: nat)
    requires s.interfaces == Pair(a, b) && a + b < 2 * TWO64
    ensures var total := (if a + b < TWO64 then a + b else a + b - TWO64) as real;
      Network(s) == [total, total, total, total]
  {
    var x, y := Interface("a", a, a, a, a), Interface("b", b, b, b, b);
    SumByTwo(RxBytes, x, y);
    SumByTwo(TxBytes, x, y);
    SumByTwo(RxPackets, x, y);
    SumByTwo(TxPackets, x, y);
  }

  /** Every counter of "a" falls from `x` to 0 while "b" grows by `x` and `g` more: the rates are
      those of a container that only gained `g`. */
  lemma HiddenReset(x: nat, b: nat, g: nat, c: Sample, prev: Sample, elapsed: real, r: ContainerRates)
    requires AreRates(c, prev, elapsed, r) && elapsed > 0.0 && c.id == prev.id
    requires prev.interfaces == Pair(x, b) && c.interfaces == Pair(0, b + x + g) && b + x + g < TWO64
    ensures NetworkRates(r) == [g as real / elapsed, g as real / elapsed, g as real / elapsed, g as real / elapsed]
  {
    PairTotals(prev, x, b);
    PairTotals(c, 0, b + x + g);
    var now, total := (b + x + g) as real, (x + b) as real;
    assert Network(c) == [now, now, now, now] && Network(prev) == [total, total, total, total];
    assert now - total == g as real;
    SameRates(now, total, elapsed);
  }

  lemma SameRates(now: real, prev: real, elapsed: real)
    requires elapsed > 0.0 && now >= prev
    ensures var rate := (now - prev) / elapsed;
      GroupRates([now, now, now, now], [prev, prev, prev, prev], elapsed) == [rate, rate, rate, rate]
  {
    FourForwards([now, now, now, now], [prev, prev, prev, prev]);
  }

  /** "a" stands still and "b" grows, each of them well within 64 bits; their sum runs past 2^64, and
      the rates are zero as after a reset. */
  lemma FalseReset(b: nat, g: nat, c: Sample, prev: Sample, elapsed: real, r: ContainerRates)
    requires AreRates(c, prev, elapsed, r) && elapsed > 0.0 && c.id == prev.id
    requires prev.interfaces == Pair(TWO63, b) && c.interfaces == Pair(TWO63, b + g)
    requires b < TWO63 <= b + g < TWO64
    ensures NetworkRates(r) == Zeros(4)
  {
    PairTotals(prev, TWO63, b);
    PairTotals(c, TWO63, b + g);
    assert Network(c)[0] < Network(prev)[0];
    ZeroIff(Network(c), Network(prev), elapsed);
  }

  // ---------- a disk's rates ----------

  datatype DiskIO = DiskIO(device: string, readsCompleted: nat, writesCompleted: nat,
                           bytesRead: nat, bytesWritten: nat, ioTimeMs: nat)

  datatype DiskIORates = DiskIORates(device: string, readsPerSec: real, writesPerSec: real,
                                     readBytesPerSec: real, writeBytesPerSec: real, utilPercent: real)

  function DiskCounters(d: DiskIO): seq<real> {
    [d.readsCompleted as real, d.writesCompleted as real, d.bytesRead as real, d.bytesWritten as real, d.ioTimeMs as real]
  }

  /** The rates, and beside them the busy milliseconds per second that `utilPercent` is a tenth of. */
  function DiskRates(r: DiskIORates): seq<real> {
    [r.readsPerSec, r.writesPerSec, r.readBytesPerSec, r.writeBytesPerSec, r.utilPercent * 10.0]
  }

  lemma FiveForwards(a: seq<real>, b: seq<real>)
    requires |a| == |b| == 5
    ensures Backwards(a, b) <==> a[0] < b[0] || a[1] < b[1] || a[2] < b[2] || a[3] < b[3] || a[4] < b[4]
  {
  }

  lemma Percent(ms: real, elapsed: real)
    requires elapsed > 0.0
    ensures ms / (elapsed * 1000.0) * 100.0 * 10.0 == ms / elapsed
  {
    var q := ms / (elapsed * 1000.0);
    assert q * (elapsed * 1000.0) == ms;
    assert q * 1000.0 * elapsed == ms;
  }

  ghost predicate AreDiskRates(d: DiskIO, prev: DiskIO, elapsed: real, r: DiskIORates) {
    && r.device == d.device
    && (elapsed <= 0.0 ==> DiskRates(r) == Zeros(5))
    && (elapsed > 0.0 ==> DiskRates(r) == GroupRates(DiskCounters(d), DiskCounters(prev), elapsed))
  }

  /** Counter by counter: each rate is its own counter's gain per second, and the utilisation the
      share of the time, in percent, that the disk was busy; all zero when any counter dropped. */
  lemma DiskRatesAre(d: DiskIO, prev: DiskIO, elapsed: real, r: DiskIORates)
    requires AreDiskRates(d, prev, elapsed, r) && elapsed > 0.0
    ensures
      if d.readsCompleted < prev.readsCompleted || d.writesCompleted < prev.writesCompleted
         || d.bytesRead < prev.bytesRead || d.bytesWritten < prev.bytesWritten || d.ioTimeMs < prev.ioTimeMs
      then r.readsPerSec == r.writesPerSec == r.readBytesPerSec == r.writeBytesPerSec == r.utilPercent == 0.0
      else
        && r.readsPerSec * elapsed == (d.readsCompleted - prev.readsCompleted) as real
        && r.writesPerSec * elapsed == (d.writesCompleted - prev.writesCompleted) as real
        && r.readBytesPerSec * elapsed == (d.bytesRead - prev.bytesRead) as real
        && r.writeBytesPerSec * elapsed == (d.bytesWritten - prev.bytesWritten) as real
        && r.utilPercent * elapsed == (d.ioTimeMs - prev.ioTimeMs) as real / 1000.0 * 100.0
  {
    var now, was := DiskCounters(d), DiskCounters(prev);
    FiveForwards(now, was);
    assert DiskRates(r)[0] == r.readsPerSec && DiskRates(r)[1] == r.writesPerSec;
    assert DiskRates(r)[2] == r.readBytesPerSec && DiskRates(r)[3] == r.writeBytesPerSec;
    assert DiskRates(r)[4] == r.utilPercent * 10.0;
    forall k | 0 <= k < 5 ensures (now[k] - was[k]) / elapsed * elapsed == now[k] - was[k] {
      RateOf(now[k], was[k], elapsed);
    }
    if !Backwards(now, was) {
      TenthOf(r.utilPercent, now[4] - was[4], elapsed);
    }
  }

  lemma TenthOf(util: real, ms: real, elapsed: real)
    requires elapsed > 0.0 && util * 10.0 == ms / elapsed
    ensures util * elapsed == ms / 1000.0 * 100.0
  {
    var q := ms / elapsed;
    assert q * elapsed == ms;
    assert util == q / 10.0;
    assert util * elapsed == q * elapsed / 10.0;
  }

  /** A disk is one group: any counter going backwards zeroes everything. */
  method DiskRatesSince(d: DiskIO, prev: DiskIO, elapsed: real) returns (r: DiskIORates)
    ensures AreDiskRates(d, prev, elapsed, r)
  {
    r := DiskIORates(d.device, 0.0, 0.0, 0.0, 0.0, 0.0);
    if elapsed <= 0.0 {
      return;
    }
    FiveForwards(DiskCounters(d), DiskCounters(prev));
    if d.readsCompleted < prev.readsCompleted || d.writesCompleted < prev.writesCompleted
       || d.bytesRead < prev.bytesRead || d.bytesWritten < prev.bytesWritten || d.ioTimeMs < prev.ioTimeMs {
      return;
    }
    Percent((d.ioTimeMs - prev.ioTimeMs) as real, elapsed);
    r := r.(readsPerSec := (d.readsCompleted - prev.readsCompleted) as real / elapsed,
            writesPerSec := (d.writesCompleted - prev.writesCompleted) as real / elapsed,
            readBytesPerSec := (d.bytesRead - prev.bytesRead) as real / elapsed,
            writeBytesPerSec := (d.bytesWritten - prev.bytesWritten) as real / elapsed,
            utilPercent := (d.ioTimeMs - prev.ioTimeMs) as real / (elapsed * 1000.0) * 100.0);
  }
}
