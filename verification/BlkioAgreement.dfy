/** The two v1 blkio files as the kernel prints them, and their agreement with v2's io.stat. */
module BlkioAgreement {
  import opened Outcomes
  import opened Text
  import opened BlockIO
  import opened IoStat
  import opened Words

  /** The operations of a device's lines, in order. */
  const OPS := ["Read", "Write", "Sync", "Async", "Total"]

  /** The two figures one v1 file holds for a device. */
  datatype Figures = Figures(dev: string, r: nat, w: nat)

  function OpLine(dev: string, op: string, n: nat): string {
    Join([dev, op, Format(n)], ' ')
  }

  function LinesFor(f: Figures, ops: seq<string>, line: (string, string, nat) -> string): seq<string>
    requires |ops| == 5
  {
    [line(f.dev, ops[0], f.r), line(f.dev, ops[1], f.w), line(f.dev, ops[2], f.w),
     line(f.dev, ops[3], f.r), line(f.dev, ops[4], f.r + f.w)]
  }

  function DeviceLines(f: Figures): seq<string> {
    LinesFor(f, OPS, OpLine)
  }

  function FileLines(fs: seq<Figures>): seq<string> {
    if fs == [] then [] else FileLines(fs[..|fs| - 1]) + DeviceLines(fs[|fs| - 1])
  }

  function GrandTotal(fs: seq<Figures>): nat {
    if fs == [] then 0 else fs[0].r + fs[0].w + GrandTotal(fs[1..])
  }

  /** Every device's lines, then the closing total. */
  function RenderFile(fs: seq<Figures>): string {
    JoinLines(FileLines(fs) + [Join(["Total", Format(GrandTotal(fs))], ' '), ""])
  }

  function ByteFigures(ds: seq<Device>): seq<Figures> {
    seq(|ds|, i requires 0 <= i < |ds| => Figures(DevString(ds[i]), ds[i].readBytes, ds[i].writeBytes))
  }

  function OpFigures(ds: seq<Device>): seq<Figures> {
    seq(|ds|, i requires 0 <= i < |ds| => Figures(DevString(ds[i]), ds[i].readOps, ds[i].writeOps))
  }

  // ---------- the events a file's lines make ----------

  predicate GoodFigures(f: Figures) {
    IsToken(f.dev) && ParseDevNum(f.dev).Some? && Fits(f.r) && Fits(f.w)
  }

  function OpEvent(dev: string, op: string, n: nat): seq<Event> {
    if Fits(n) then [Event(dev, op, n)] else []
  }

  /** The total may not fit, and is then no event; nothing reads it either way. */
  function EventsFor(f: Figures, ops: seq<string>): seq<Event>
    requires |ops| == 5
  {
    [Event(f.dev, ops[0], f.r), Event(f.dev, ops[1], f.w), Event(f.dev, ops[2], f.w), Event(f.dev, ops[3], f.r)]
    + OpEvent(f.dev, ops[4], f.r + f.w)
  }

  function DeviceEvents(f: Figures): seq<Event> {
    EventsFor(f, OPS)
  }

  function FileEvents(fs: seq<Figures>): seq<Event> {
    if fs == [] then [] else FileEvents(fs[..|fs| - 1]) + DeviceEvents(fs[|fs| - 1])
  }

  lemma OpsAreTokens(i: nat)
    requires i < |OPS|
    ensures IsToken(OPS[i])
  {
  }

  lemma OpsDiffer(i: nat)
    requires 2 <= i < |OPS|
    ensures OPS[i] != "Read" && OPS[i] != "Write" && OPS[0] == "Read" && OPS[1] == "Write" && OPS[0] != OPS[1]
  {
  }

  /** Scanning stops at the digit that makes the number too large. */
  lemma {:induction false} TooLargeIsRejected(n: nat)
    requires !Fits(n)
    ensures ScanDigits(Format(n), 0).error != NoError
  {
    var d := [('0' as int + n % 10) as char];
    assert Digit(d[0]) == n % 10;
    if Fits(n / 10) {
      ScanFormat(n / 10);
      ScanConcat(Format(n / 10), d, 0);
    } else {
      TooLargeIsRejected(n / 10);
      ErrorsStay(Format(n / 10), d, 0);
    }
  }

  lemma {:induction false} ErrorsStay(a: string, b: string, acc: nat)
    requires Fits(acc) && ScanDigits(a, acc).error != NoError
    ensures ScanDigits(a + b, acc).error != NoError
  {
    assert (a + b)[1..] == a[1..] + b;
    if IsDigit(a[0]) && acc * 10 + Digit(a[0]) < TWO64 {
      ErrorsStay(a[1..], b, acc * 10 + Digit(a[0]));
    }
  }

  lemma OpLineEvent(dev: string, i: nat, n: nat)
    requires IsToken(dev) && ParseDevNum(dev).Some? && i < |OPS|
    ensures Events([OpLine(dev, OPS[i], n)]) == OpEvent(dev, OPS[i], n)
    ensures '\n' !in OpLine(dev, OPS[i], n)
  {
    OpsAreTokens(i);
    FormatIsToken(n);
    var tokens := [dev, OPS[i], Format(n)];
    FieldsJoin(tokens);
    TokenLineIsOneLine(tokens);
    CollectOne(EventOf, OpLine(dev, OPS[i], n));
    if Fits(n) {
      ParseFormat(n);
    } else {
      TooLargeIsRejected(n);
    }
  }

  lemma FiveLines<T>(f: string -> Option<T>, a: string, b: string, c: string, d: string, e: string)
    ensures Collect(f, [a, b, c, d, e])
         == Collect(f, [a]) + Collect(f, [b]) + Collect(f, [c]) + Collect(f, [d]) + Collect(f, [e])
  {
    CollectConcat(f, [a], [b]);
    CollectConcat(f, [a] + [b], [c]);
    CollectConcat(f, [a] + [b] + [c], [d]);
    CollectConcat(f, [a] + [b] + [c] + [d], [e]);
    assert [a] + [b] + [c] + [d] + [e] == [a, b, c, d, e];
  }

  lemma FiveEvents(e: Event, f: Event, g: Event, h: Event, rest: seq<Event>)
    ensures [e] + [f] + [g] + [h] + rest == [e, f, g, h] + rest
  {
  }

  lemma FiveOps(f: Figures, ops: seq<string>, line: (string, string, nat) -> string, event: string -> Option<Event>)
    requires |ops| == 5 && Fits(f.r) && Fits(f.w)
    requires forall i: nat, n: nat | i < 5 ::
      Collect(event, [line(f.dev, ops[i], n)]) == OpEvent(f.dev, ops[i], n)
    ensures Collect(event, LinesFor(f, ops, line)) == EventsFor(f, ops)
  {
    FiveLines(event, line(f.dev, ops[0], f.r), line(f.dev, ops[1], f.w), line(f.dev, ops[2], f.w),
              line(f.dev, ops[3], f.r), line(f.dev, ops[4], f.r + f.w));
    FiveEvents(Event(f.dev, ops[0], f.r), Event(f.dev, ops[1], f.w), Event(f.dev, ops[2], f.w),
               Event(f.dev, ops[3], f.r), OpEvent(f.dev, ops[4], f.r + f.w));
  }

  lemma DeviceLinesEvents(f: Figures)
    requires GoodFigures(f)
    ensures Events(DeviceLines(f)) == DeviceEvents(f)
  {
    forall i: nat, n: nat | i < 5 ensures Collect(EventOf, [OpLine(f.dev, OPS[i], n)]) == OpEvent(f.dev, OPS[i], n) {
      OpLineEvent(f.dev, i, n);
    }
    FiveOps(f, OPS, OpLine, EventOf);
  }

  lemma DeviceLinesAreLines(f: Figures, i: nat)
    requires GoodFigures(f) && i < 5
    ensures '\n' !in DeviceLines(f)[i]
  {
    OpLineEvent(f.dev, i, if i == 0 || i == 3 then f.r else if i == 4 then f.r + f.w else f.w);
  }

  lemma {:induction false} FileLinesEvents(fs: seq<Figures>)
    requires forall f :: f in fs ==> GoodFigures(f)
    ensures Events(FileLines(fs)) == FileEvents(fs)
    ensures forall l :: l in FileLines(fs) ==> '\n' !in l
  {
    if fs == [] {
    } else {
      var n := |fs| - 1;
      FileLinesEvents(fs[..n]);
      assert fs[n] in fs;
      DeviceLinesEvents(fs[n]);
      forall i | 0 <= i < 5 ensures '\n' !in DeviceLines(fs[n])[i] {
        DeviceLinesAreLines(fs[n], i);
      }
      CollectConcat(EventOf, FileLines(fs[..n]), DeviceLines(fs[n]));
    }
  }

  lemma TotalLineIsNoEvent(n: nat)
    ensures EventOf(Join(["Total", Format(n)], ' ')) == None
    ensures '\n' !in Join(["Total", Format(n)], ' ')
  {
    FormatIsToken(n);
    assert IsToken("Total");
    FieldsJoin(["Total", Format(n)]);
    TokenLineIsOneLine(["Total", Format(n)]);
  }

  lemma RenderedEvents(fs: seq<Figures>)
    requires forall f :: f in fs ==> GoodFigures(f)
    ensures Events(Lines(RenderFile(fs))) == FileEvents(fs)
  {
    var total := Join(["Total", Format(GrandTotal(fs))], ' ');
    FileLinesEvents(fs);
    TotalLineIsNoEvent(GrandTotal(fs));
    SplitJoin(FileLines(fs) + [total, ""], '\n');
    CollectConcat(EventOf, FileLines(fs), [total] + [""]);
    CollectConcat(EventOf, [total], [""]);
    CollectOne(EventOf, total);
    CollectOne(EventOf, "");
    assert Fields("") == [];
    assert [total] + [""] == [total, ""];
  }

  // ---------- what those events say ----------

  lemma {:induction false} LastConcat(a: seq<Event>, b: seq<Event>, dev: string, op: string)
    ensures Last(a + b, dev, op) == if Last(b, dev, op).Some? then Last(b, dev, op) else Last(a, dev, op)
  {
    if b == [] {
      assert a + b == a;
    } else {
      LastConcat(a, b[..|b| - 1], dev, op);
      assert (a + b)[..|a| + |b| - 1] == a + b[..|b| - 1];
    }
  }

  lemma {:induction false} OrderOfKnown(a: seq<Event>, b: seq<Event>)
    requires forall e :: e in b ==> e.dev in Order(a)
    ensures Order(a + b) == Order(a)
  {
    if b == [] {
      assert a + b == a;
    } else {
      OrderOfKnown(a, b[..|b| - 1]);
      assert b[|b| - 1] in b;
      assert (a + b)[..|a| + |b| - 1] == a + b[..|b| - 1];
    }
  }

  lemma OrderOfNew(a: seq<Event>, b: seq<Event>, dev: string)
    requires b != [] && dev !in Order(a) && forall e :: e in b ==> e.dev == dev
    ensures Order(a + b) == Order(a) + [dev]
  {
    OrderAfter(a, b[0]);
    assert b[0] in b;
    OrderOfKnown(a + [b[0]], b[1..]);
    assert a + [b[0]] + b[1..] == a + b;
  }

  lemma DeviceEventsAre(f: Figures)
    ensures DeviceEvents(f) != [] && forall e :: e in DeviceEvents(f) ==> e.dev == f.dev
  {
  }

  /** In a device's own events, "Read" and "Write" come once each, and first. */
  lemma DeviceFigures(f: Figures)
    ensures Last(DeviceEvents(f), f.dev, "Read") == Some(f.r)
    ensures Last(DeviceEvents(f), f.dev, "Write") == Some(f.w)
  {
    var es := DeviceEvents(f);
    OpsDiffer(2);
    OpsDiffer(3);
    OpsDiffer(4);
    forall m | 2 <= m < |es| ensures es[m].op != "Read" && es[m].op != "Write" {
    }
    LastAt(es, f.dev, "Read", 0);
    LastAt(es, f.dev, "Write", 1);
  }

  lemma {:induction false} LastAt(es: seq<Event>, dev: string, op: string, k: nat)
    requires IsLastFor(es, dev, op, k)
    ensures Last(es, dev, op) == Some(es[k].n)
  {
    if k < |es| - 1 {
      assert IsLastFor(es[..|es| - 1], dev, op, k);
      LastAt(es[..|es| - 1], dev, op, k);
    }
  }

  ghost predicate DistinctFigures(fs: seq<Figures>) {
    forall i, j | 0 <= i < j < |fs| :: fs[i].dev != fs[j].dev
  }

  function Devs(fs: seq<Figures>): seq<string> {
    seq(|fs|, i requires 0 <= i < |fs| => fs[i].dev)
  }

  lemma DevsStep(fs: seq<Figures>, n: nat)
    requires DistinctFigures(fs) && n == |fs| - 1
    ensures Devs(fs) == Devs(fs[..n]) + [fs[n].dev] && fs[n].dev !in Devs(fs[..n])
  {
    forall i | 0 <= i < n ensures Devs(fs[..n])[i] != fs[n].dev {
      assert fs[i].dev != fs[n].dev;
    }
  }

  lemma {:induction false} FileOrder(fs: seq<Figures>)
    requires DistinctFigures(fs)
    ensures Order(FileEvents(fs)) == Devs(fs)
  {
    if fs == [] {
    } else {
      var n := |fs| - 1;
      FileOrder(fs[..n]);
      DevsStep(fs, n);
      DeviceEventsAre(fs[n]);
      OrderOfNew(FileEvents(fs[..n]), DeviceEvents(fs[n]), fs[n].dev);
    }
  }

  lemma {:induction false} FileFigure(fs: seq<Figures>, i: nat, op: string, n: Figures -> nat)
    requires DistinctFigures(fs) && i < |fs|
    requires forall f :: Last(DeviceEvents(f), f.dev, op) == Some(n(f))
    ensures Last(FileEvents(fs), fs[i].dev, op) == Some(n(fs[i]))
  {
    var last := |fs| - 1;
    LastConcat(FileEvents(fs[..last]), DeviceEvents(fs[last]), fs[i].dev, op);
    if i < last {
      FileFigure(fs[..last], i, op, n);
      assert fs[i].dev != fs[last].dev;
      DeviceEventsAre(fs[last]);
      UnmentionedIsZero(DeviceEvents(fs[last]), fs[i].dev, op);
    }
  }

  lemma FileFigures(fs: seq<Figures>, i: nat)
    requires DistinctFigures(fs) && i < |fs|
    ensures Last(FileEvents(fs), fs[i].dev, "Read") == Some(fs[i].r)
    ensures Last(FileEvents(fs), fs[i].dev, "Write") == Some(fs[i].w)
  {
    forall f
      ensures Last(DeviceEvents(f), f.dev, "Read") == Some(f.r)
      ensures Last(DeviceEvents(f), f.dev, "Write") == Some(f.w)
    {
      DeviceFigures(f);
    }
    FileFigure(fs, i, "Read", (f: Figures) => f.r);
    FileFigure(fs, i, "Write", (f: Figures) => f.w);
  }

  lemma {:induction false} FileMentions(fs: seq<Figures>, e: Event)
    requires e in FileEvents(fs)
    ensures e.dev in Devs(fs)
  {
    var n := |fs| - 1;
    DeviceEventsAre(fs[n]);
    if e in DeviceEvents(fs[n]) {
      assert Devs(fs)[n] == e.dev;
    } else {
      FileMentions(fs[..n], e);
      var i :| 0 <= i < n && Devs(fs[..n])[i] == e.dev;
      assert Devs(fs)[i] == e.dev;
    }
  }

  // ---------- the two versions agree ----------

  lemma DevStringsDiffer(ds: seq<Device>)
    requires DistinctDevices(ds) && forall d :: d in ds ==> Renderable(d)
    ensures DistinctFigures(ByteFigures(ds)) && DistinctFigures(OpFigures(ds))
    ensures forall f :: f in ByteFigures(ds) || f in OpFigures(ds) ==> GoodFigures(f)
  {
    forall i | 0 <= i < |ds|
      ensures ParseDevNum(DevString(ds[i])) == Some(DevNum(ds[i].major, ds[i].minor)) && IsToken(DevString(ds[i]))
      ensures Renderable(ds[i])
    {
      assert ds[i] in ds;
      DevStringParses(ds[i]);
    }
    forall i, j | 0 <= i < j < |ds| ensures DevString(ds[i]) != DevString(ds[j]) {
      assert ParseDevNum(DevString(ds[i])) != ParseDevNum(DevString(ds[j]));
    }
  }

  lemma MergedDevice(ds: seq<Device>, i: nat)
    requires DistinctDevices(ds) && (forall d :: d in ds ==> Renderable(d)) && i < |ds|
    ensures Merged(FileEvents(ByteFigures(ds)), FileEvents(OpFigures(ds)), DevString(ds[i])) == ds[i]
  {
    assert ds[i] in ds;
    DevStringParses(ds[i]);
    DevStringsDiffer(ds);
    FileFigures(ByteFigures(ds), i);
    FileFigures(OpFigures(ds), i);
  }

  /** Two files about the same devices mention them in the same order. */
  lemma OrderOfFiles(bs: seq<Figures>, os: seq<Figures>)
    requires DistinctFigures(bs) && Devs(os) == Devs(bs)
    ensures Order(FileEvents(bs) + FileEvents(os)) == Devs(bs)
  {
    FileOrder(bs);
    forall e | e in FileEvents(os) ensures e.dev in Order(FileEvents(bs)) {
      FileMentions(os, e);
    }
    OrderOfKnown(FileEvents(bs), FileEvents(os));
  }

  lemma ThrottleRoundTrip(ds: seq<Device>)
    requires DistinctDevices(ds) && forall d :: d in ds ==> Renderable(d)
    ensures Throttle(RenderFile(ByteFigures(ds)), RenderFile(OpFigures(ds))) == ds
  {
    var bs, os := ByteFigures(ds), OpFigures(ds);
    DevStringsDiffer(ds);
    RenderedEvents(bs);
    RenderedEvents(os);
    assert Devs(os) == Devs(bs);
    OrderOfFiles(bs, os);
    forall i | 0 <= i < |ds| ensures Merged(FileEvents(bs), FileEvents(os), Devs(bs)[i]) == ds[i] {
      MergedDevice(ds, i);
    }
    AllMerged(FileEvents(bs), FileEvents(os), Devs(bs), ds);
  }

  lemma AllMerged(bytes: seq<Event>, ops: seq<Event>, devs: seq<string>, ds: seq<Device>)
    requires Order(bytes + ops) == devs && |devs| == |ds|
    requires forall i | 0 <= i < |ds| :: Merged(bytes, ops, devs[i]) == ds[i]
    ensures MergedAll(bytes, ops) == ds
  {
  }

  /** One host, two cgroup versions: the same counters printed either way parse to the same list. */
  lemma VersionsAgree(ds: seq<Device>)
    requires DistinctDevices(ds) && forall d :: d in ds ==> Renderable(d)
    ensures LineDevices(Lines(RenderIoStat(ds)))
         == Throttle(RenderFile(ByteFigures(ds)), RenderFile(OpFigures(ds)))
         == ds
  {
    IoStatRoundTrip(ds);
    ThrottleRoundTrip(ds);
  }
}
