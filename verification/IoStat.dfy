/** cgroup v2's io.stat, and its agreement with the two v1 files. */
module IoStat {
  import opened Outcomes
  import opened Text
  import opened BlockIO
  import opened Words

  /** A usable "key=value" field. */
  function KeyValue(field: string): Option<(string, nat)> {
    var h := Cut(field, '=');
    var n := ParseUint(h.after);
    if h.found && n.error == NoError then Some((h.before, n.value)) else None
  }

  /** The device with one field entered. */
  function EnterField(d: Device, field: string): Device {
    match KeyValue(field)
    case None => d
    case Some((key, n)) =>
      if key == "rbytes" then d.(readBytes := n)
      else if key == "wbytes" then d.(writeBytes := n)
      else if key == "rios" then d.(readOps := n)
      else if key == "wios" then d.(writeOps := n)
      else d
  }

  function EnterFields(d: Device, fields: seq<string>): Device
    decreases |fields|
  {
    if fields == [] then d else EnterFields(EnterField(d, fields[0]), fields[1..])
  }

  function LineDevice(line: string): Option<Device> {
    var fs := Fields(line);
    if |fs| < 2 || ParseDevNum(fs[0]).None? then None
    else
      var num := ParseDevNum(fs[0]).value;
      Some(EnterFields(Device("", num.major, num.minor, 0, 0, 0, 0), fs[1..]))
  }

  function LineDevices(lines: seq<string>): seq<Device> {
    Collect(LineDevice, lines)
  }

  method ParseIOStat(content: string) returns (out: seq<Device>)
    ensures out == LineDevices(Lines(content))
  {
    out := [];
    var lines := Lines(content);
    for i := 0 to |lines|
      invariant out == LineDevices(lines[..i])
    {
      CollectMore(LineDevice, lines, i);
      var fs := Fields(lines[i]);
      if |fs| < 2 {
        continue;
      }
      var num := ParseDevNum(fs[0]);
      if num.None? {
        continue;
      }
      var d := Device("", num.value.major, num.value.minor, 0, 0, 0, 0);
      var kvs := fs[1..];
      ghost var start := d;
      for k := 0 to |kvs|
        invariant EnterFields(start, kvs) == EnterFields(d, kvs[k..])
      {
        assert kvs[k..][1..] == kvs[k + 1..];
        var h := Cut(kvs[k], '=');
        if !h.found {
          continue;
        }
        var n := ParseUint(h.after);
        if n.error != NoError {
          continue;
        }
        match h.before
        case "rbytes" => d := d.(readBytes := n.value);
        case "wbytes" => d := d.(writeBytes := n.value);
        case "rios" => d := d.(readOps := n.value);
        case "wios" => d := d.(writeOps := n.value);
        case _ =>
      }
      out := out + [d];
    }
    assert lines[..|lines|] == lines;
  }

  // ---------- any line ----------

  /** Field `i` gives `key` the value `n`, and no field after it gives the key another. */
  ghost predicate IsLastField(fields: seq<string>, key: string, i: nat, n: nat) {
    && i < |fields| && KeyValue(fields[i]) == Some((key, n))
    && forall j | i < j < |fields| :: KeyValue(fields[j]).None? || KeyValue(fields[j]).value.0 != key
  }

  /** In whatever order the fields come and however often: each counter is the last value for its key. */
  lemma {:induction false} CounterIsLastField(d: Device, fields: seq<string>, key: string, i: nat, n: nat)
    requires IsLastField(fields, key, i, n)
    ensures var e := EnterFields(d, fields);
      && (key == "rbytes" ==> e.readBytes == n) && (key == "wbytes" ==> e.writeBytes == n)
      && (key == "rios" ==> e.readOps == n) && (key == "wios" ==> e.writeOps == n)
    decreases |fields|
  {
    if i == 0 {
      OtherFieldsKeep(EnterField(d, fields[0]), fields[1..], key);
    } else {
      assert IsLastField(fields[1..], key, i - 1, n);
      CounterIsLastField(EnterField(d, fields[0]), fields[1..], key, i - 1, n);
    }
  }

  lemma {:induction false} OtherFieldsKeep(d: Device, fields: seq<string>, key: string)
    requires forall j | 0 <= j < |fields| :: KeyValue(fields[j]).None? || KeyValue(fields[j]).value.0 != key
    ensures var e := EnterFields(d, fields);
      && e.major == d.major && e.minor == d.minor && e.name == d.name
      && (key == "rbytes" ==> e.readBytes == d.readBytes) && (key == "wbytes" ==> e.writeBytes == d.writeBytes)
      && (key == "rios" ==> e.readOps == d.readOps) && (key == "wios" ==> e.writeOps == d.writeOps)
    decreases |fields|
  {
    if fields == [] {
    } else {
      OtherFieldsKeep(EnterField(d, fields[0]), fields[1..], key);
    }
  }

  // ---------- both versions, rendered from the same devices ----------

  predicate Fits(n: nat) {
    n < TWO64
  }

  predicate Renderable(d: Device) {
    && d.name == "" && Fits(d.major) && Fits(d.minor)
    && Fits(d.readBytes) && Fits(d.writeBytes) && Fits(d.readOps) && Fits(d.writeOps)
  }

  ghost predicate DistinctDevices(ds: seq<Device>) {
    forall i, j | 0 <= i < j < |ds| :: ds[i].major != ds[j].major || ds[i].minor != ds[j].minor
  }

  function DevString(d: Device): string {
    Format(d.major) + ":" + Format(d.minor)
  }

  /** The keys of an io.stat line, in order. */
  const KEYS := ["rbytes", "wbytes", "rios", "wios", "dbytes", "dios"]

  function KeyField(key: string, n: nat): string {
    key + "=" + Format(n)
  }

  function IoStatFields(d: Device): seq<string> {
    [KeyField(KEYS[0], d.readBytes), KeyField(KEYS[1], d.writeBytes),
     KeyField(KEYS[2], d.readOps), KeyField(KEYS[3], d.writeOps),
     KeyField(KEYS[4], 0), KeyField(KEYS[5], 0)]
  }

  function IoStatLine(d: Device): string {
    Join([DevString(d)] + IoStatFields(d), ' ')
  }

  function RenderIoStat(ds: seq<Device>): string {
    Printed(IoStatLine, ds)
  }

  lemma DevStringParses(d: Device)
    requires Fits(d.major) && Fits(d.minor)
    ensures ParseDevNum(DevString(d)) == Some(DevNum(d.major, d.minor))
    ensures IsToken(DevString(d))
  {
    ParseFormat(d.major);
    ParseFormat(d.minor);
    FormatAvoids(d.major, ':');
    CutAtFirst(Format(d.major), Format(d.minor), ':');
  }

  lemma KeyFieldParses(key: string, n: nat)
    requires IsToken(key) && '=' !in key && Fits(n)
    ensures KeyValue(KeyField(key, n)) == Some((key, n))
    ensures IsToken(KeyField(key, n))
  {
    ParseFormat(n);
    CutAtFirst(key, Format(n), '=');
  }

  lemma KeysAreTokens(i: nat)
    requires i < |KEYS|
    ensures IsToken(KEYS[i]) && '=' !in KEYS[i]
  {
  }

  lemma KnownField(d: Device, i: nat, n: nat)
    requires i < |KEYS| && Fits(n)
    ensures IsToken(KeyField(KEYS[i], n))
    ensures EnterField(d, KeyField(KEYS[i], n)) ==
      match i
      case 0 => d.(readBytes := n)
      case 1 => d.(writeBytes := n)
      case 2 => d.(readOps := n)
      case 3 => d.(writeOps := n)
      case _ => d
  {
    KeysAreTokens(i);
    KeyFieldParses(KEYS[i], n);
  }

  lemma {:induction false} EnterOneMore(d: Device, fields: seq<string>, last: string)
    ensures EnterFields(d, fields + [last]) == EnterField(EnterFields(d, fields), last)
    decreases |fields|
  {
    if fields == [] {
      assert ([] + [last])[1..] == [];
    } else {
      EnterOneMore(EnterField(d, fields[0]), fields[1..], last);
      assert (fields + [last])[1..] == fields[1..] + [last];
    }
  }

  lemma SixFields(d: Device, a: string, b: string, c: string, e: string, f: string, g: string)
    ensures EnterFields(d, [a, b, c, e, f, g])
         == EnterField(EnterField(EnterField(EnterField(EnterField(EnterField(d, a), b), c), e), f), g)
  {
    EnterOneMore(d, [], a);
    EnterOneMore(d, [a], b);
    EnterOneMore(d, [a, b], c);
    EnterOneMore(d, [a, b, c], e);
    EnterOneMore(d, [a, b, c, e], f);
    EnterOneMore(d, [a, b, c, e, f], g);
    assert [] + [a] == [a] && [a] + [b] == [a, b] && [a, b] + [c] == [a, b, c];
    assert [a, b, c] + [e] == [a, b, c, e] && [a, b, c, e] + [f] == [a, b, c, e, f];
    assert [a, b, c, e, f] + [g] == [a, b, c, e, f, g];
  }

  lemma SixTokens(a: string, b: string, c: string, e: string, f: string, g: string)
    requires IsToken(a) && IsToken(b) && IsToken(c) && IsToken(e) && IsToken(f) && IsToken(g)
    ensures Tokens([a, b, c, e, f, g])
  {
  }

  lemma FieldsParse(d: Device)
    requires Renderable(d)
    ensures EnterFields(Device("", d.major, d.minor, 0, 0, 0, 0), IoStatFields(d)) == d
    ensures Tokens(IoStatFields(d))
  {
    var d0 := Device("", d.major, d.minor, 0, 0, 0, 0);
    var d1 := d0.(readBytes := d.readBytes);
    var d2 := d1.(writeBytes := d.writeBytes);
    var d3 := d2.(readOps := d.readOps);
    KnownField(d0, 0, d.readBytes);
    KnownField(d1, 1, d.writeBytes);
    KnownField(d2, 2, d.readOps);
    KnownField(d3, 3, d.writeOps);
    KnownField(d, 4, 0);
    KnownField(d, 5, 0);
    var a, b, c, e := KeyField(KEYS[0], d.readBytes), KeyField(KEYS[1], d.writeBytes),
                      KeyField(KEYS[2], d.readOps), KeyField(KEYS[3], d.writeOps);
    SixFields(d0, a, b, c, e, KeyField(KEYS[4], 0), KeyField(KEYS[5], 0));
    SixTokens(a, b, c, e, KeyField(KEYS[4], 0), KeyField(KEYS[5], 0));
  }

  lemma IoStatLineParses(d: Device)
    requires Renderable(d)
    ensures LineDevice(IoStatLine(d)) == Some(d)
    ensures '\n' !in IoStatLine(d)
  {
    DevStringParses(d);
    FieldsParse(d);
    var tokens := [DevString(d)] + IoStatFields(d);
    FieldsJoin(tokens);
    TokenLineIsOneLine(tokens);
    assert tokens[1..] == IoStatFields(d);
  }

  /** Parsing what io.stat prints gives the devices back. */
  lemma IoStatRoundTrip(ds: seq<Device>)
    requires forall d :: d in ds ==> Renderable(d)
    ensures LineDevices(Lines(RenderIoStat(ds))) == ds
  {
    forall i | 0 <= i < |ds|
      ensures LineDevice(IoStatLine(ds[i])) == Some(ds[i]) && '\n' !in IoStatLine(ds[i])
    {
      IoStatLineParses(ds[i]);
    }
    assert Fields("") == [];
    PrintedParses(IoStatLine, LineDevice, d => d, ds);
    assert Mapped(d => d, ds) == ds;
  }
}
