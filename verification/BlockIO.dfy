/** Block I/O counters of a cgroup: the v2 io.stat format, and the pair of v1 files. */
module BlockIO {
  import opened Outcomes
  import opened Text

  datatype Device = Device(name: string, major: nat, minor: nat,
                           readBytes: nat, writeBytes: nat, readOps: nat, writeOps: nat)

  datatype DevNum = DevNum(major: nat, minor: nat)

  function ParseDevNum(s: string): Option<DevNum> {
    var h := Cut(s, ':');
    var a, b := ParseUint(h.before), ParseUint(h.after);
    if h.found && a.error == NoError && b.error == NoError then Some(DevNum(a.value, b.value)) else None
  }

  // ---------- cgroup v1 ----------

  /** A usable line "major:minor Op value". */
  datatype Event = Event(dev: string, op: string, n: nat)

  function EventOf(line: string): Option<Event> {
    var fs := Fields(line);
    if |fs| != 3 || ParseUint(fs[2]).error != NoError || ParseDevNum(fs[0]).None? then None
    else Some(Event(fs[0], fs[1], ParseUint(fs[2]).value))
  }

  /** Only a line of three fields is an event, and it is that line's; a file's closing total is none. */
  lemma EventIsTheLine(line: string)
    ensures EventOf(line).Some? ==>
      var e, fs := EventOf(line).value, Fields(line);
      |fs| == 3 && fs[0] == e.dev && fs[1] == e.op && ParseUint(fs[2]) == Number(e.n, NoError) && ParseDevNum(e.dev).Some?
  {
  }

  function Maybe(e: Option<Event>): seq<Event> {
    if e.None? then [] else [e.value]
  }

  function Events(lines: seq<string>): seq<Event> {
    Collect(EventOf, lines)
  }

  /** The devices events mention, each once, in order of first mention. */
  function Order(es: seq<Event>): seq<string> {
    if es == [] then []
    else
      var before := Order(es[..|es| - 1]);
      var dev := es[|es| - 1].dev;
      if dev in before then before else before + [dev]
  }

  /** The value of the last event for a device and operation. */
  function Last(es: seq<Event>, dev: string, op: string): Option<nat> {
    if es == [] then None
    else
      var e := es[|es| - 1];
      if e.dev == dev && e.op == op then Some(e.n) else Last(es[..|es| - 1], dev, op)
  }

  function LastOrZero(es: seq<Event>, dev: string, op: string): nat {
    match Last(es, dev, op) case Some(n) => n case None => 0
  }

  function DevNumOrZero(dev: string): DevNum {
    match ParseDevNum(dev) case Some(d) => d case None => DevNum(0, 0)
  }

  /** The record the two files hold for a device. */
  function Merged(bytes: seq<Event>, ops: seq<Event>, dev: string): Device {
    Device("", DevNumOrZero(dev).major, DevNumOrZero(dev).minor,
           LastOrZero(bytes, dev, "Read"), LastOrZero(bytes, dev, "Write"),
           LastOrZero(ops, dev, "Read"), LastOrZero(ops, dev, "Write"))
  }

  /** One entry per device either file mentions. */
  function MergedAll(bytes: seq<Event>, ops: seq<Event>): seq<Device> {
    var order := Order(bytes + ops);
    seq(|order|, i requires 0 <= i < |order| => Merged(bytes, ops, order[i]))
  }

  /** The declarative form of the merge, for any two contents. */
  function Throttle(bytesContent: string, opsContent: string): seq<Device> {
    MergedAll(Events(Lines(bytesContent)), Events(Lines(opsContent)))
  }

  class Record {
    var major: nat
    var minor: nat
    var readBytes: nat
    var writeBytes: nat
    var readOps: nat
    var writeOps: nat

    constructor (num: DevNum)
      ensures Value() == Device("", num.major, num.minor, 0, 0, 0, 0)
    {
      major, minor := num.major, num.minor;
      readBytes, writeBytes, readOps, writeOps := 0, 0, 0, 0;
    }

    function Value(): Device
      reads this
    {
      Device("", major, minor, readBytes, writeBytes, readOps, writeOps)
    }
  }

  datatype File = Bytes | Ops

  /** What one event does to a device's record. */
  function Entered(d: Device, file: File, op: string, n: nat): Device {
    match file
    case Bytes => if op == "Read" then d.(readBytes := n) else if op == "Write" then d.(writeBytes := n) else d
    case Ops => if op == "Read" then d.(readOps := n) else if op == "Write" then d.(writeOps := n) else d
  }

  lemma LastAfter(es: seq<Event>, e: Event, dev: string, op: string)
    ensures LastOrZero(es + [e], dev, op) == if e.dev == dev && e.op == op then e.n else LastOrZero(es, dev, op)
  {
    assert (es + [e])[..|es|] == es;
  }

  lemma OrderAfter(es: seq<Event>, e: Event)
    ensures Order(es + [e]) == if e.dev in Order(es) then Order(es) else Order(es) + [e.dev]
  {
    assert (es + [e])[..|es|] == es;
  }

  function Grown(file: File, mine: File, es: seq<Event>, more: seq<Event>): seq<Event> {
    if file == mine then es + more else es
  }

  lemma MergedAfter(file: File, bytes: seq<Event>, ops: seq<Event>, e: Event, dev: string)
    ensures Merged(Grown(file, Bytes, bytes, [e]), Grown(file, Ops, ops, [e]), dev)
         == if e.dev == dev then Entered(Merged(bytes, ops, dev), file, e.op, e.n) else Merged(bytes, ops, dev)
  {
    var es := if file == Bytes then bytes else ops;
    LastAfter(es, e, dev, "Read");
    LastAfter(es, e, dev, "Write");
    assert "Read" != "Write";
  }

  lemma {:induction false} OrderIsMentioned(es: seq<Event>, dev: string)
    ensures dev in Order(es) <==> exists i :: 0 <= i < |es| && es[i].dev == dev
    ensures NoRepeats(Order(es))
  {
    if es == [] {
    } else {
      OrderIsMentioned(es[..|es| - 1], dev);
      OrderIsMentioned(es[..|es| - 1], es[|es| - 1].dev);
    }
  }

  lemma {:induction false} UnmentionedIsZero(es: seq<Event>, dev: string, op: string)
    requires forall i | 0 <= i < |es| :: es[i].dev != dev
    ensures Last(es, dev, op) == None
  {
    if es == [] {
    } else {
      UnmentionedIsZero(es[..|es| - 1], dev, op);
    }
  }

  lemma NewDeviceIsZero(bytes: seq<Event>, ops: seq<Event>, dev: string)
    requires dev !in Order(bytes + ops)
    ensures Merged(bytes, ops, dev) == Device("", DevNumOrZero(dev).major, DevNumOrZero(dev).minor, 0, 0, 0, 0)
  {
    OrderIsMentioned(bytes + ops, dev);
    forall i | 0 <= i < |bytes| ensures bytes[i].dev != dev {
      assert (bytes + ops)[i].dev != dev;
    }
    forall i | 0 <= i < |ops| ensures ops[i].dev != dev {
      assert (bytes + ops)[|bytes| + i].dev != dev;
    }
    UnmentionedIsZero(bytes, dev, "Read");
    UnmentionedIsZero(bytes, dev, "Write");
    UnmentionedIsZero(ops, dev, "Read");
    UnmentionedIsZero(ops, dev, "Write");
  }

  ghost predicate IsFirstMention(es: seq<Event>, dev: string, k: nat) {
    k < |es| && es[k].dev == dev && forall m | 0 <= m < k :: es[m].dev != dev
  }

  lemma MentionedIsListed(es: seq<Event>, n: nat, k: nat)
    requires k < n <= |es|
    ensures es[k].dev in Order(es[..n])
  {
    OrderIsMentioned(es[..n], es[k].dev);
    assert es[..n][k] == es[k];
  }

  lemma ListedIsMentioned(es: seq<Event>, n: nat, dev: string)
    requires n <= |es| && dev in Order(es[..n])
    ensures exists k :: 0 <= k < n && es[k].dev == dev
  {
    OrderIsMentioned(es[..n], dev);
    var k :| 0 <= k < n && es[..n][k].dev == dev;
    assert es[k].dev == dev;
  }

  /** Devices are listed in the order the files first mention them. */
  lemma {:induction false} OrderIsFirstMention(es: seq<Event>, i: nat, j: nat, p: nat, q: nat)
    requires i < j < |Order(es)|
    requires IsFirstMention(es, Order(es)[i], p) && IsFirstMention(es, Order(es)[j], q)
    ensures p < q
  {
    var n := |es| - 1;
    var before := Order(es[..n]);
    assert before[i] == Order(es)[i];
    ListedIsMentioned(es, n, before[i]);
    if j < |before| {
      ListedIsMentioned(es, n, before[j]);
      assert IsFirstMention(es[..n], before[i], p) && IsFirstMention(es[..n], before[j], q);
      OrderIsFirstMention(es[..n], i, j, p, q);
    } else {
      forall k | 0 <= k < n ensures es[k].dev in before {
        MentionedIsListed(es, n, k);
      }
    }
  }

  ghost predicate IsLastFor(es: seq<Event>, dev: string, op: string, k: nat) {
    && k < |es| && es[k].dev == dev && es[k].op == op
    && forall m | k < m < |es| :: es[m].dev != dev || es[m].op != op
  }

  /** A counter is the value of the last event for it, 0 when there is none. */
  lemma {:induction false} CounterIsLast(es: seq<Event>, dev: string, op: string, k: nat)
    ensures IsLastFor(es, dev, op, k) ==> LastOrZero(es, dev, op) == es[k].n
    ensures (forall m | 0 <= m < |es| :: es[m].dev != dev || es[m].op != op) ==> LastOrZero(es, dev, op) == 0
  {
    if es == [] {
    } else {
      var n := |es| - 1;
      CounterIsLast(es[..n], dev, op, k);
      if k < n && IsLastFor(es, dev, op, k) {
        assert IsLastFor(es[..n], dev, op, k);
      }
    }
  }

  // ---------- the merge as it runs ----------

  /** Each device's record so far, and the order devices were first asked for. */
  datatype Books = Books(byDev: map<string, Device>, order: seq<string>)

  function Blank(dev: string): Device {
    Device("", DevNumOrZero(dev).major, DevNumOrZero(dev).minor, 0, 0, 0, 0)
  }

  /** The books with a record for the device, made if there was none. */
  function Opened(b: Books, dev: string): (r: Books)
    ensures dev in r.byDev
  {
    if dev in b.byDev then b else Books(b.byDev[dev := Blank(dev)], b.order + [dev])
  }

  function Posted(b: Books, file: File, e: Event): Books
    requires e.dev in b.byDev
  {
    b.(byDev := b.byDev[e.dev := Entered(b.byDev[e.dev], file, e.op, e.n)])
  }

  function Enter(b: Books, file: File, event: Option<Event>): Books {
    match event
    case None => b
    case Some(e) => Posted(Opened(b, e.dev), file, e)
  }

  function EnterAll(b: Books, file: File, lines: seq<string>): Books {
    if lines == [] then b
    else Enter(EnterAll(b, file, lines[..|lines| - 1]), file, EventOf(lines[|lines| - 1]))
  }

  /** The books say what the declarative form says about the events of the two files. */
  ghost predicate InStep(b: Books, bytes: seq<Event>, ops: seq<Event>) {
    && b.order == Order(bytes + ops) && (forall dev :: dev in b.byDev <==> dev in b.order)
    && forall dev | dev in b.byDev :: b.byDev[dev] == Merged(bytes, ops, dev)
  }

  /** One event, one device's record: what the record ought to be before decides what after. */
  lemma EnterOne(b: Books, file: File, e: Event, bytes: seq<Event>, ops: seq<Event>, dev: string)
    requires dev in b.byDev || dev == e.dev
    requires dev in b.byDev ==> b.byDev[dev] == Merged(bytes, ops, dev)
    requires dev !in b.byDev ==> Merged(bytes, ops, dev) == Blank(dev)
    ensures dev in Enter(b, file, Some(e)).byDev
    ensures Enter(b, file, Some(e)).byDev[dev]
         == Merged(Grown(file, Bytes, bytes, [e]), Grown(file, Ops, ops, [e]), dev)
  {
    MergedAfter(file, bytes, ops, e, dev);
  }

  lemma OrderGrows(b: Books, file: File, e: Event, bytes: seq<Event>, ops: seq<Event>)
    requires b.order == Order(bytes + ops) && (forall dev :: dev in b.byDev <==> dev in b.order)
    requires file == Bytes ==> ops == []
    ensures Enter(b, file, Some(e)).order == Order(Grown(file, Bytes, bytes, [e]) + Grown(file, Ops, ops, [e]))
  {
    assert Grown(file, Bytes, bytes, [e]) + Grown(file, Ops, ops, [e]) == bytes + ops + [e];
    OrderAfter(bytes + ops, e);
  }

  lemma EnterKeepsStep(b: Books, file: File, event: Option<Event>, bytes: seq<Event>, ops: seq<Event>)
    requires InStep(b, bytes, ops) && (file == Bytes ==> ops == [])
    ensures InStep(Enter(b, file, event),
      Grown(file, Bytes, bytes, Maybe(event)), Grown(file, Ops, ops, Maybe(event)))
  {
    if event.None? {
      assert Grown(file, Bytes, bytes, []) == bytes && Grown(file, Ops, ops, []) == ops;
    } else {
      var e, after := event.value, Enter(b, file, event);
      OrderGrows(b, file, e, bytes, ops);
      forall dev | dev in after.byDev
        ensures after.byDev[dev] == Merged(Grown(file, Bytes, bytes, [e]), Grown(file, Ops, ops, [e]), dev)
      {
        if dev !in b.byDev {
          NewDeviceIsZero(bytes, ops, dev);
        }
        EnterOne(b, file, e, bytes, ops, dev);
      }
    }
  }

  lemma GrownTwice(file: File, mine: File, es: seq<Event>, a: seq<Event>, b: seq<Event>)
    ensures Grown(file, mine, Grown(file, mine, es, a), b) == Grown(file, mine, es, a + b)
  {
    assert es + a + b == es + (a + b);
  }

  lemma {:induction false} EnterAllKeepsStep(b: Books, file: File, lines: seq<string>, bytes: seq<Event>, ops: seq<Event>)
    requires InStep(b, bytes, ops) && (file == Bytes ==> ops == [])
    ensures InStep(EnterAll(b, file, lines),
      Grown(file, Bytes, bytes, Events(lines)), Grown(file, Ops, ops, Events(lines)))
  {
    if lines == [] {
      assert bytes + [] == bytes && ops + [] == ops;
    } else {
      var n := |lines| - 1;
      var es, last := Events(lines[..n]), Maybe(EventOf(lines[n]));
      EnterAllKeepsStep(b, file, lines[..n], bytes, ops);
      EnterKeepsStep(EnterAll(b, file, lines[..n]), file, EventOf(lines[n]),
                     Grown(file, Bytes, bytes, es), Grown(file, Ops, ops, es));
      GrownTwice(file, Bytes, bytes, es, last);
      GrownTwice(file, Ops, ops, es, last);
    }
  }

  function Listed(b: Books): seq<Device> {
    seq(|b.order|, i requires 0 <= i < |b.order| =>
      if b.order[i] in b.byDev then b.byDev[b.order[i]] else Blank(b.order[i]))
  }

  lemma ListedInStep(b: Books, bytes: seq<Event>, ops: seq<Event>)
    requires InStep(b, bytes, ops)
    ensures Listed(b) == MergedAll(bytes, ops)
  {
  }

  /** The two passes leave exactly the declarative form behind, whatever the files hold. */
  lemma MergeIsThrottle(bytesContent: string, opsContent: string)
    ensures Listed(EnterAll(EnterAll(Books(map[], []), Bytes, Lines(bytesContent)), Ops, Lines(opsContent)))
         == Throttle(bytesContent, opsContent)
  {
    var empty := Books(map[], []);
    var bytes, ops := Events(Lines(bytesContent)), Events(Lines(opsContent));
    var half := EnterAll(empty, Bytes, Lines(bytesContent));
    EnterAllKeepsStep(empty, Bytes, Lines(bytesContent), [], []);
    assert [] + bytes == bytes && [] + ops == ops;
    EnterAllKeepsStep(half, Ops, Lines(opsContent), bytes, []);
    ListedInStep(EnterAll(half, Ops, Lines(opsContent)), bytes, ops);
  }

  lemma NoRepeatsAppended(s: seq<string>, x: string)
    requires NoRepeats(s) && x !in s
    ensures NoRepeats(s + [x]) && forall y :: y in s + [x] <==> y in s || y == x
  {
  }

  /** The records under construction, reached through a map, and the order list beside it. */
  class Merge {
    var byDev: map<string, Record>
    var order: seq<string>

    /** No two devices share a record, and the map and the list name the same devices once. */
    ghost predicate Wired()
      reads this
    {
      && NoRepeats(order) && (forall dev :: dev in byDev <==> dev in order)
      && forall a, b | a in byDev && b in byDev && a != b :: byDev[a] != byDev[b]
    }

    ghost function Snapshot(): Books
      reads this, byDev.Values
    {
      Books(map dev | dev in byDev :: byDev[dev].Value(), order)
    }

    constructor ()
      ensures Wired() && fresh(byDev.Values) && Snapshot() == Books(map[], [])
    {
      byDev := map[];
      order := [];
    }

    /** The record for a device, made and put last in the order when there is none yet. */
    method Get(dev: string) returns (d: Option<Record>)
      requires Wired()
      modifies this
      ensures Wired() && fresh(byDev.Values - old(byDev.Values))
      ensures d.None? <==> dev !in old(byDev) && ParseDevNum(dev).None?
      ensures d.None? ==> Snapshot() == old(Snapshot())
      ensures d.Some? ==> Snapshot() == Opened(old(Snapshot()), dev) && dev in byDev && byDev[dev] == d.value
    {
      if dev in byDev {
        return Some(byDev[dev]);
      }
      var num := ParseDevNum(dev);
      if num.None? {
        return None;
      }
      var record := Add(dev, num.value);
      d := Some(record);
    }

    method Add(dev: string, num: DevNum) returns (record: Record)
      requires Wired() && dev !in byDev && ParseDevNum(dev) == Some(num)
      modifies this
      ensures Wired() && fresh(record) && byDev == old(byDev)[dev := record]
      ensures Snapshot() == Opened(old(Snapshot()), dev)
    {
      record := new Record(num);
      assert record.Value() == Blank(dev) && forall a | a in byDev :: byDev[a] != record;
      NoRepeatsAppended(order, dev);
      byDev := byDev[dev := record];
      order := order + [dev];
      assert Snapshot().byDev == old(Snapshot()).byDev[dev := Blank(dev)];
    }

    /** The setters the two passes hand in. */
    static method Set(d: Record, file: File, op: string, n: nat)
      modifies d
      ensures d.Value() == Entered(old(d.Value()), file, op, n)
    {
      if op == "Read" {
        if file == Bytes { d.readBytes := n; } else { d.readOps := n; }
      } else if op == "Write" {
        if file == Bytes { d.writeBytes := n; } else { d.writeOps := n; }
      }
    }

    /** Writing through one record changes that device's entry and no other. */
    method SetOne(dev: string, d: Record, file: File, op: string, n: nat)
      requires Wired() && dev in byDev && byDev[dev] == d
      modifies d
      ensures Snapshot() == Posted(old(Snapshot()), file, Event(dev, op, n))
    {
      ghost var before := d.Value();
      Set(d, file, op, n);
      forall a | a in byDev && a != dev ensures byDev[a].Value() == old(byDev[a].Value()) {
        assert byDev[a] != d;
      }
      assert Snapshot().byDev == old(Snapshot()).byDev[dev := d.Value()];
    }

    method ApplyEvent(dev: string, op: string, n: nat, file: File)
      requires Wired()
      modifies this, byDev.Values
      ensures Wired() && fresh(byDev.Values - old(byDev.Values))
      ensures Snapshot() ==
        if dev in old(byDev) || ParseDevNum(dev).Some?
        then Enter(old(Snapshot()), file, Some(Event(dev, op, n))) else old(Snapshot())
    {
      var d := Get(dev);
      if d.Some? {
        SetOne(dev, d.value, file, op, n);
      }
    }

    ghost predicate Numbered()
      reads this
    {
      forall dev | dev in byDev :: ParseDevNum(dev).Some?
    }

    method ApplyLine(line: string, file: File)
      requires Wired() && Numbered()
      modifies this, byDev.Values
      ensures Wired() && Numbered() && fresh(byDev.Values - old(byDev.Values))
      ensures Snapshot() == Enter(old(Snapshot()), file, EventOf(line))
    {
      var fs := Fields(line);
      if |fs| != 3 {
        return;
      }
      var n := ParseUint(fs[2]);
      if n.error != NoError {
        return;
      }
      ghost var before := Snapshot();
      assert EventOf(line) ==
        if ParseDevNum(fs[0]).Some? then Some(Event(fs[0], fs[1], n.value)) else None;
      ApplyEvent(fs[0], fs[1], n.value, file);
      assert forall dev :: dev in byDev <==> dev in Snapshot().byDev;
      assert forall dev :: dev in old(byDev) <==> dev in before.byDev;
    }

    method Apply(content: string, file: File)
      requires Wired() && Numbered()
      modifies this, byDev.Values
      ensures Wired() && Numbered() && fresh(byDev.Values - old(byDev.Values))
      ensures Snapshot() == EnterAll(old(Snapshot()), file, Lines(content))
    {
      var lines := Lines(content);
      for i := 0 to |lines|
        invariant Wired() && Numbered() && fresh(byDev.Values - old(byDev.Values))
        invariant Snapshot() == EnterAll(old(Snapshot()), file, lines[..i])
      {
        assert lines[..i + 1][..i] == lines[..i];
        ApplyLine(lines[i], file);
      }
      assert lines[..|lines|] == lines;
    }

    method List() returns (out: seq<Device>)
      requires Wired()
      ensures out == Listed(Snapshot())
    {
      out := [];
      for i := 0 to |order|
        invariant |out| == i
        invariant forall k | 0 <= k < i :: out[k] == byDev[order[k]].Value()
      {
        out := out + [byDev[order[i]].Value()];
      }
    }
  }

  method ParseBlkioThrottle(bytesContent: string, opsContent: string) returns (out: seq<Device>)
    ensures out == Throttle(bytesContent, opsContent)
  {
    var m := new Merge();
    m.Apply(bytesContent, Bytes);
    m.Apply(opsContent, Ops);
    MergeIsThrottle(bytesContent, opsContent);
    out := m.List();
  }
}
