/** The paired-line protocol counters of /proc/net/snmp and /proc/net/netstat. */
module NetProto {
  import opened Outcomes
  import opened Text

  type Counters = map<string, int>
  type Table = map<string, Counters>

  /** A line that names a protocol and has at least one column. */
  datatype Row = Row(proto: string, cols: seq<string>)

  function RowOf(line: string): (r: Option<Row>)
    ensures r.Some? ==> r.value.cols != []
  {
    var fs := Fields(line);
    if |fs| < 2 || !HasSuffix(fs[0], ":") then None else Some(Row(TrimSuffix(fs[0], ":"), fs[1..]))
  }

  function Min(a: nat, b: nat): nat {
    if a < b then a else b
  }

  /** `base` with the first `n` columns entered; columns that are not numbers are passed over. */
  function Zip(header: seq<string>, cols: seq<string>, base: Counters, n: nat): Counters
    requires n <= |header| && n <= |cols|
  {
    if n == 0 then base
    else
      var z := Zip(header, cols, base, n - 1);
      var v := ParseInt(cols[n - 1]);
      if v.error == NoError then z[header[n - 1] := v.value] else z
  }

  function ZipAll(header: seq<string>, cols: seq<string>, base: Counters): Counters {
    Zip(header, cols, base, Min(|header|, |cols|))
  }

  function CountersIn(table: Table, proto: string): Counters {
    if proto in table then table[proto] else map[]
  }

  /** Parser state: the header line waiting for its value line, and the table so far. */
  datatype Scan = Scan(proto: string, header: seq<string>, table: Table)

  function ScanRow(s: Scan, row: Option<Row>): Scan {
    if row.None? then s
    else if s.proto == row.value.proto then
      Scan("", [], s.table[s.proto := ZipAll(s.header, row.value.cols, CountersIn(s.table, s.proto))])
    else Scan(row.value.proto, row.value.cols, s.table)
  }

  function ScanLines(s: Scan, lines: seq<string>): Scan {
    if lines == [] then s
    else ScanRow(ScanLines(s, lines[..|lines| - 1]), RowOf(lines[|lines| - 1]))
  }

  function Parsed(content: string, table: Table): Table {
    ScanLines(Scan("", [], table), Lines(content)).table
  }

  /** The map the caller hands in, filled in place. */
  class ProtocolTable {
    var protocols: Table

    constructor ()
      ensures protocols == map[]
    {
      protocols := map[];
    }

    method Parse(content: string)
      modifies this
      ensures protocols == Parsed(content, old(protocols))
    {
      var pendingProto, pendingHeader := "", [];
      var lines := Lines(content);
      ghost var start := Scan("", [], protocols);
      for n := 0 to |lines|
        invariant Scan(pendingProto, pendingHeader, protocols) == ScanLines(start, lines[..n])
      {
        assert lines[..n + 1][..n] == lines[..n];
        var fs := Fields(lines[n]);
        if |fs| < 2 || !HasSuffix(fs[0], ":") {
          continue;
        }
        var proto, cols := TrimSuffix(fs[0], ":"), fs[1..];
        if pendingProto == proto {
          var counters := CountersIn(protocols, proto);
          ghost var before := counters;
          var width := if |cols| < |pendingHeader| then |cols| else |pendingHeader|;
          for i := 0 to width
            invariant counters == Zip(pendingHeader, cols, before, i)
          {
            var v := ParseInt(cols[i]);
            if v.error == NoError {
              counters := counters[pendingHeader[i] := v.value];
            }
          }
          protocols := protocols[proto := counters];
          pendingProto, pendingHeader := "", [];
        } else {
          pendingProto, pendingHeader := proto, cols;
        }
      }
      assert lines[..|lines|] == lines;
    }

    /** A counter, and whether it is there at all. */
    method Value(proto: string, counter: string) returns (v: int, ok: bool)
      ensures ok <==> proto in protocols && counter in protocols[proto]
      ensures v == if ok then protocols[proto][counter] else 0
    {
      if proto !in protocols || counter !in protocols[proto] {
        return 0, false;
      }
      return protocols[proto][counter], true;
    }
  }

  /** Both files go into one map; a missing file is passed over. */
  method GetProtocolStats(snmp: Option<string>, netstat: Option<string>) returns (t: ProtocolTable)
    ensures fresh(t)
    ensures t.protocols == ParsedFile(netstat, ParsedFile(snmp, map[]))
  {
    t := new ProtocolTable();
    if snmp.Some? {
      t.Parse(snmp.value);
    }
    if netstat.Some? {
      t.Parse(netstat.value);
    }
  }

  function ParsedFile(content: Option<string>, table: Table): Table {
    if content.None? then table else Parsed(content.value, table)
  }

  // ---------- any content: no name meets another protocol's value ----------

  /** Lines `i` and `j` name the same protocol with nothing to parse between them; column `k` of
      the one is the name and of the other the value. */
  ghost predicate FromPair(lines: seq<string>, proto: string, name: string, v: int, i: nat, j: nat, k: nat) {
    && i < j < |lines| && RowOf(lines[i]).Some? && RowOf(lines[j]).Some?
    && (forall m | i < m < j :: RowOf(lines[m]).None?)
    && var header, values := RowOf(lines[i]).value, RowOf(lines[j]).value;
    && header.proto == proto && values.proto == proto
    && k < |header.cols| && k < |values.cols|
    && header.cols[k] == name && ParseInt(values.cols[k]) == Number(v, NoError)
  }

  ghost predicate Justified(lines: seq<string>, proto: string, name: string, v: int) {
    exists i: nat, j: nat, k: nat :: FromPair(lines, proto, name, v, i, j, k)
  }

  /** The pending header is the last line that parsed. */
  ghost predicate PendingIsLast(lines: seq<string>, s: Scan, i: nat) {
    i < |lines| && RowOf(lines[i]) == Some(Row(s.proto, s.header))
    && forall m | i < m < |lines| :: RowOf(lines[m]).None?
  }

  lemma StillPending(lines: seq<string>, s: Scan, i: nat)
    requires lines != [] && RowOf(lines[|lines| - 1]).None? && PendingIsLast(lines[..|lines| - 1], s, i)
    ensures PendingIsLast(lines, s, i)
  {
    forall m | i < m < |lines| - 1 ensures RowOf(lines[m]).None? {
      assert lines[..|lines| - 1][m] == lines[m];
    }
  }

  lemma {:induction false} PendingHeader(start: Scan, lines: seq<string>) returns (i: nat)
    requires start.header == [] && ScanLines(start, lines).header != []
    ensures PendingIsLast(lines, ScanLines(start, lines), i)
  {
    var n := |lines| - 1;
    var s := ScanLines(start, lines[..n]);
    if RowOf(lines[n]).Some? {
      i := n;
    } else {
      i := PendingHeader(start, lines[..n]);
      StillPending(lines, s, i);
      assert ScanLines(start, lines) == s;
    }
  }

  lemma {:induction false} ZipEntries(header: seq<string>, cols: seq<string>, base: Counters, n: nat, name: string)
    returns (k: nat)
    requires n <= |header| && n <= |cols| && name in Zip(header, cols, base, n)
    ensures (name in base && Zip(header, cols, base, n)[name] == base[name])
         || (k < n && header[k] == name && ParseInt(cols[k]) == Number(Zip(header, cols, base, n)[name], NoError))
  {
    k := 0;
    if n == 0 {
    } else {
      var v := ParseInt(cols[n - 1]);
      if v.error == NoError && header[n - 1] == name {
        k := n - 1;
      } else {
        k := ZipEntries(header, cols, base, n - 1, name);
      }
    }
  }

  lemma JustifiedEarlier(lines: seq<string>, n: nat, proto: string, name: string, v: int)
    requires n <= |lines| && Justified(lines[..n], proto, name, v)
    ensures Justified(lines, proto, name, v)
  {
    var init := lines[..n];
    var i: nat, j: nat, k: nat :| FromPair(init, proto, name, v, i, j, k);
    assert forall m | 0 <= m < n :: init[m] == lines[m];
    assert FromPair(lines, proto, name, v, i, j, k);
  }

  /** What one more row does to one protocol's counters. */
  lemma RowCounters(s: Scan, row: Option<Row>, proto: string)
    ensures CountersIn(ScanRow(s, row).table, proto) ==
      if row.Some? && s.proto == row.value.proto == proto
      then ZipAll(s.header, row.value.cols, CountersIn(s.table, proto)) else CountersIn(s.table, proto)
  {
  }

  lemma PairIsJustified(lines: seq<string>, table: Table, proto: string, name: string, k: nat)
    requires lines != []
    requires var s, row := ScanLines(Scan("", [], table), lines[..|lines| - 1]), RowOf(lines[|lines| - 1]);
      && row.Some? && s.proto == row.value.proto == proto
      && k < |s.header| && k < |row.value.cols| && s.header[k] == name && ParseInt(row.value.cols[k]).error == NoError
    ensures Justified(lines, proto, name, ParseInt(RowOf(lines[|lines| - 1]).value.cols[k]).value)
  {
    var n := |lines| - 1;
    var init := lines[..n];
    var i := PendingHeader(Scan("", [], table), init);
    assert forall m | 0 <= m < n :: init[m] == lines[m];
    assert FromPair(lines, proto, name, ParseInt(RowOf(lines[n]).value.cols[k]).value, i, n, k);
  }

  /** Whatever the content, every counter the parse leaves either was there before or joins a
      name and a value from the same column of two consecutive lines of its own protocol. */
  lemma {:induction false} CountersAreJustified(lines: seq<string>, table: Table, proto: string, name: string)
    requires name in CountersIn(ScanLines(Scan("", [], table), lines).table, proto)
    ensures var v := CountersIn(ScanLines(Scan("", [], table), lines).table, proto)[name];
      || (name in CountersIn(table, proto) && CountersIn(table, proto)[name] == v)
      || Justified(lines, proto, name, v)
  {
    if lines == [] {
    } else {
      var n := |lines| - 1;
      var s, row := ScanLines(Scan("", [], table), lines[..n]), RowOf(lines[n]);
      var before := CountersIn(s.table, proto);
      RowCounters(s, row, proto);
      var v := CountersIn(ScanRow(s, row).table, proto)[name];
      var inherited := name in before && before[name] == v;
      if !inherited {
        var k := ZipEntries(s.header, row.value.cols, before, Min(|s.header|, |row.value.cols|), name);
        PairIsJustified(lines, table, proto, name, k);
      } else {
        CountersAreJustified(lines[..n], table, proto, name);
        if !(name in CountersIn(table, proto) && CountersIn(table, proto)[name] == v) {
          JustifiedEarlier(lines, n, proto, name, v);
        }
      }
    }
  }

  // ---------- a rendered file that loses lines and trailing columns ----------

  datatype Protocol = Protocol(name: string, header: seq<string>, values: seq<string>)

  /** How much of a protocol's two lines a torn read leaves: None when the line is gone, else how
      many columns. */
  datatype Torn = Torn(header: Option<nat>, values: Option<nat>)

  function Cols(cols: seq<string>, left: Option<nat>): seq<string> {
    match left
    case None => []
    case Some(k) => cols[..Min(k, |cols|)]
  }

  function Line(name: string, cols: seq<string>): string {
    Join([name + ":"] + cols, ' ')
  }

  function TornLine(name: string, cols: seq<string>, left: Option<nat>): seq<string> {
    if left.None? then [] else [Line(name, Cols(cols, left))]
  }

  function TornLines(ps: seq<Protocol>, ts: seq<Torn>): seq<string>
    requires |ps| == |ts|
  {
    if ps == [] then []
    else
      var n := |ps| - 1;
      TornLines(ps[..n], ts[..n]) + LinesFor(ps[n], ts[n])
  }

  /** The file as read: every surviving line with its line break. */
  function TornFile(ps: seq<Protocol>, ts: seq<Torn>): string
    requires |ps| == |ts|
  {
    JoinLines(TornLines(ps, ts) + [""])
  }

  predicate WellFormed(p: Protocol) {
    IsToken(p.name) && Tokens(p.header) && Tokens(p.values)
  }

  predicate DistinctNames(ps: seq<Protocol>) {
    forall i, j | 0 <= i < j < |ps| :: ps[i].name != ps[j].name
  }

  /** Both lines are left with at least one column. */
  predicate Survives(p: Protocol, t: Torn) {
    Cols(p.header, t.header) != [] && Cols(p.values, t.values) != []
  }

  function Updated(p: Protocol, t: Torn, table: Table): Table {
    if Survives(p, t)
    then table[p.name := ZipAll(Cols(p.header, t.header), Cols(p.values, t.values), CountersIn(table, p.name))]
    else table
  }

  function Expected(ps: seq<Protocol>, ts: seq<Torn>, table: Table): Table
    requires |ps| == |ts|
  {
    if ps == [] then table
    else var n := |ps| - 1; Updated(ps[n], ts[n], Expected(ps[..n], ts[..n], table))
  }

  lemma RowOfLine(name: string, cols: seq<string>)
    requires IsToken(name) && Tokens(cols)
    ensures RowOf(Line(name, cols)) == if cols == [] then None else Some(Row(name, cols))
    ensures '\n' !in Line(name, cols)
  {
    var tokens := [name + ":"] + cols;
    assert IsToken(name + ":");
    FieldsJoin(tokens);
    TokenLineIsOneLine(tokens);
    assert tokens[1..] == cols;
    assert TrimSuffix(name + ":", ":") == name;
  }

  lemma {:induction false} ScanConcat(s: Scan, a: seq<string>, b: seq<string>)
    ensures ScanLines(s, a + b) == ScanLines(ScanLines(s, a), b)
  {
    if b == [] {
      assert a + b == a;
    } else {
      var n := |b| - 1;
      ScanConcat(s, a, b[..n]);
      assert (a + b)[..|a| + n] == a + b[..n] && (a + b)[|a| + n] == b[n];
      assert ScanLines(s, a + b) == ScanRow(ScanLines(s, a + b[..n]), RowOf(b[n]));
    }
  }

  lemma ScanTornLine(s: Scan, name: string, cols: seq<string>, left: Option<nat>)
    requires IsToken(name) && Tokens(cols)
    ensures ScanLines(s, TornLine(name, cols, left))
         == ScanRow(s, if Cols(cols, left) == [] then None else Some(Row(name, Cols(cols, left))))
    ensures forall l :: l in TornLine(name, cols, left) ==> '\n' !in l
  {
    if left.Some? {
      assert Tokens(Cols(cols, left));
      RowOfLine(name, Cols(cols, left));
      assert ScanLines(s, []) == s;
      assert TornLine(name, cols, left)[..0] == [];
    }
  }

  /** The row a torn line still makes. */
  function TornRow(name: string, cols: seq<string>, left: Option<nat>): Option<Row> {
    if Cols(cols, left) == [] then None else Some(Row(name, Cols(cols, left)))
  }

  lemma TwoRows(s: Scan, p: Protocol, t: Torn)
    requires p.name != "" && s.proto != p.name
    ensures var s' := ScanRow(ScanRow(s, TornRow(p.name, p.header, t.header)), TornRow(p.name, p.values, t.values));
      s'.table == Updated(p, t, s.table) && s'.proto in {s.proto, "", p.name}
  {
  }

  function LinesFor(p: Protocol, t: Torn): seq<string> {
    TornLine(p.name, p.header, t.header) + TornLine(p.name, p.values, t.values)
  }

  lemma ScanProtocol(s: Scan, p: Protocol, t: Torn)
    requires WellFormed(p) && s.proto != p.name
    ensures var s' := ScanLines(s, LinesFor(p, t));
      s'.table == Updated(p, t, s.table) && s'.proto in {s.proto, "", p.name}
    ensures forall l :: l in LinesFor(p, t) ==> '\n' !in l
  {
    var head, tail := TornLine(p.name, p.header, t.header), TornLine(p.name, p.values, t.values);
    ScanConcat(s, head, tail);
    ScanTornLine(s, p.name, p.header, t.header);
    ScanTornLine(ScanLines(s, head), p.name, p.values, t.values);
    TwoRows(s, p, t);
  }

  ghost predicate NamesOneOf(ps: seq<Protocol>, name: string) {
    name == "" || exists i :: 0 <= i < |ps| && ps[i].name == name
  }

  lemma NamesOneOfMore(ps: seq<Protocol>, name: string)
    requires ps != [] && DistinctNames(ps) && NamesOneOf(ps[..|ps| - 1], name)
    ensures NamesOneOf(ps, name) && (name != "" ==> name != ps[|ps| - 1].name)
  {
    if name != "" {
      var i :| 0 <= i < |ps| - 1 && ps[..|ps| - 1][i].name == name;
      assert ps[i].name == name;
    }
  }

  /** After some protocols' lines the pending header belongs to none of the protocols to come,
      and the table is as expected. */
  lemma {:induction false} ScanTorn(ps: seq<Protocol>, ts: seq<Torn>, table: Table)
    requires |ps| == |ts| && DistinctNames(ps) && forall p :: p in ps ==> WellFormed(p)
    ensures var s := ScanLines(Scan("", [], table), TornLines(ps, ts));
      s.table == Expected(ps, ts, table) && NamesOneOf(ps, s.proto)
    ensures forall l :: l in TornLines(ps, ts) ==> '\n' !in l
  {
    if ps == [] {
    } else {
      var n := |ps| - 1;
      var start := Scan("", [], table);
      var before := TornLines(ps[..n], ts[..n]);
      var s0 := ScanLines(start, before);
      assert ps[n] in ps;
      ScanTorn(ps[..n], ts[..n], table);
      NamesOneOfMore(ps, s0.proto);
      ScanConcat(start, before, LinesFor(ps[n], ts[n]));
      ScanProtocol(s0, ps[n], ts[n]);
    }
  }

  /** The torn-read theorem: a file of distinct protocols from which any lines and any trailing
      columns are missing parses to exactly the protocols both of whose lines survive. */
  lemma TornReadsAreSafe(ps: seq<Protocol>, ts: seq<Torn>, table: Table)
    requires |ps| == |ts| && DistinctNames(ps) && forall p :: p in ps ==> WellFormed(p)
    ensures Parsed(TornFile(ps, ts), table) == Expected(ps, ts, table)
  {
    ScanTorn(ps, ts, table);
    var lines := TornLines(ps, ts);
    SplitJoin(lines + [""], '\n');
    var start := Scan("", [], table);
    ScanConcat(start, lines, [""]);
    assert Fields("") == [];
    assert [""][..0] == [];
  }

  /** What that means for a protocol of the file: its counters are the surviving columns, or
      nothing about it changed. */
  lemma {:induction false} ExpectedAt(ps: seq<Protocol>, ts: seq<Torn>, table: Table, i: nat)
    requires |ps| == |ts| && DistinctNames(ps) && i < |ps|
    ensures var result, q := Expected(ps, ts, table), ps[i].name;
      if Survives(ps[i], ts[i])
      then q in result && result[q]
             == ZipAll(Cols(ps[i].header, ts[i].header), Cols(ps[i].values, ts[i].values), CountersIn(table, q))
      else (q in result <==> q in table) && CountersIn(result, q) == CountersIn(table, q)
  {
    var n := |ps| - 1;
    if i < n {
      ExpectedAt(ps[..n], ts[..n], table, i);
      assert ps[n].name != ps[i].name;
    } else {
      ExpectedElsewhere(ps[..n], ts[..n], table, ps[n].name);
    }
  }

  /** And for any other protocol: it is left alone. */
  lemma {:induction false} ExpectedElsewhere(ps: seq<Protocol>, ts: seq<Torn>, table: Table, q: string)
    requires |ps| == |ts| && forall i | 0 <= i < |ps| :: ps[i].name != q
    ensures var result := Expected(ps, ts, table);
      (q in result <==> q in table) && CountersIn(result, q) == CountersIn(table, q)
  {
    if ps == [] {
    } else {
      ExpectedElsewhere(ps[..|ps| - 1], ts[..|ts| - 1], table, q);
    }
  }

  /** A column that no later numeric column of the same name overrides. */
  ghost predicate IsLastColumn(header: seq<string>, cols: seq<string>, n: nat, name: string, k: nat) {
    && n <= |header| && n <= |cols| && k < n && header[k] == name && ParseInt(cols[k]).error == NoError
    && forall m | k < m < n :: header[m] != name || ParseInt(cols[m]).error != NoError
  }

  /** Names and values meet column by column; losing trailing columns loses only those. */
  lemma {:induction false} LastColumnWins(header: seq<string>, cols: seq<string>, base: Counters, n: nat,
                                          name: string, k: nat)
    requires n <= |header| && n <= |cols| && IsLastColumn(header, cols, n, name, k)
    ensures name in Zip(header, cols, base, n) && Zip(header, cols, base, n)[name] == ParseInt(cols[k]).value
  {
    if k < n - 1 {
      assert IsLastColumn(header, cols, n - 1, name, k);
      LastColumnWins(header, cols, base, n - 1, name, k);
    }
  }

  lemma {:induction false} OtherNamesKept(header: seq<string>, cols: seq<string>, base: Counters, n: nat, name: string)
    requires n <= |header| && n <= |cols|
    requires forall k | 0 <= k < n :: header[k] != name || ParseInt(cols[k]).error != NoError
    ensures name in Zip(header, cols, base, n) <==> name in base
    ensures name in base ==> Zip(header, cols, base, n)[name] == base[name]
  {
    if n == 0 {
    } else {
      OtherNamesKept(header, cols, base, n - 1, name);
    }
  }

  // ---------- the torn-read theorem, column by column ----------

  /** Column `k` is there in both lines of the protocol as they were read. */
  predicate InBoth(p: Protocol, t: Torn, k: nat) {
    && t.header.Some? && k < t.header.value && k < |p.header|
    && t.values.Some? && k < t.values.value && k < |p.values|
  }

  /** Column `k` gives `name` the value `v`. */
  predicate Gives(p: Protocol, t: Torn, k: nat, name: string, v: int) {
    InBoth(p, t, k) && p.header[k] == name && ParseInt(p.values[k]) == Number(v, NoError)
  }

  /** ...and no column after it gives the same name a value. */
  ghost predicate GivesLast(p: Protocol, t: Torn, k: nat, name: string, v: int) {
    Gives(p, t, k, name, v) && forall m: nat, w: int | k < m :: !Gives(p, t, m, name, w)
  }

  lemma ColumnsLeft(p: Protocol, t: Torn, k: nat)
    ensures var hs, vs := Cols(p.header, t.header), Cols(p.values, t.values);
      && (InBoth(p, t, k) <==> k < |hs| && k < |vs|)
      && (InBoth(p, t, k) ==> hs[k] == p.header[k] && vs[k] == p.values[k])
    ensures Survives(p, t) <==> InBoth(p, t, 0)
  {
  }

  lemma ZippedLast(p: Protocol, t: Torn, base: Counters, k: nat, name: string, v: int)
    requires GivesLast(p, t, k, name, v)
    ensures var z := ZipAll(Cols(p.header, t.header), Cols(p.values, t.values), base); name in z && z[name] == v
  {
    var hs, vs := Cols(p.header, t.header), Cols(p.values, t.values);
    var n := Min(|hs|, |vs|);
    ColumnsLeft(p, t, k);
    forall m: nat | k < m < n ensures hs[m] != name || ParseInt(vs[m]).error != NoError {
      ColumnsLeft(p, t, m);
      assert !Gives(p, t, m, name, ParseInt(vs[m]).value);
    }
    LastColumnWins(hs, vs, base, n, name, k);
  }

  lemma ZippedOther(p: Protocol, t: Torn, base: Counters, name: string)
    requires forall k: nat, v: int :: !Gives(p, t, k, name, v)
    ensures var z := ZipAll(Cols(p.header, t.header), Cols(p.values, t.values), base);
      (name in z <==> name in base) && (name in base ==> z[name] == base[name])
  {
    var hs, vs := Cols(p.header, t.header), Cols(p.values, t.values);
    var n := Min(|hs|, |vs|);
    forall k: nat | k < n ensures hs[k] != name || ParseInt(vs[k]).error != NoError {
      ColumnsLeft(p, t, k);
      assert !Gives(p, t, k, name, ParseInt(vs[k]).value);
    }
    OtherNamesKept(hs, vs, base, n, name);
  }

  /** What a torn file leaves of one of its protocols, whatever else was torn. With both lines left,
      every column both still have counts: a name has the number of the last such column that gives
      it one, and is as before when none does. Otherwise nothing about the protocol changes. */
  lemma TornColumns(ps: seq<Protocol>, ts: seq<Torn>, table: Table, i: nat, name: string)
    requires |ps| == |ts| && DistinctNames(ps) && (forall p :: p in ps ==> WellFormed(p)) && i < |ps|
    ensures var result, q := Parsed(TornFile(ps, ts), table), ps[i].name;
      if InBoth(ps[i], ts[i], 0) then
        && q in result
        && (forall k: nat, v: int | GivesLast(ps[i], ts[i], k, name, v) :: name in result[q] && result[q][name] == v)
        && ((forall k: nat, v: int :: !Gives(ps[i], ts[i], k, name, v)) ==>
              (name in result[q] <==> q in table && name in table[q])
              && (name in result[q] ==> result[q][name] == table[q][name]))
      else
        && (q in result <==> q in table) && (q in table ==> result[q] == table[q])
  {
    TornReadsAreSafe(ps, ts, table);
    ExpectedAt(ps, ts, table, i);
    ColumnsLeft(ps[i], ts[i], 0);
    var base := CountersIn(table, ps[i].name);
    if Survives(ps[i], ts[i]) {
      forall k: nat, v: int | GivesLast(ps[i], ts[i], k, name, v)
        ensures var z := ZipAll(Cols(ps[i].header, ts[i].header), Cols(ps[i].values, ts[i].values), base);
          name in z && z[name] == v
      {
        ZippedLast(ps[i], ts[i], base, k, name, v);
      }
      if forall k: nat, v: int :: !Gives(ps[i], ts[i], k, name, v) {
        ZippedOther(ps[i], ts[i], base, name);
      }
    }
  }

  // ---------- the bare colon ----------

  /** The empty protocol name also stands for no pending header: line `n` is a bare colon with its
      columns, and nothing is pending before it - at the start, after a pair, or after another bare
      colon that paired with nothing. */
  ghost predicate BareColonPairs(s: Scan, lines: seq<string>, n: nat) {
    n < |lines| && PairsBareColon(ScanLines(s, lines[..n]), RowOf(lines[n]))
  }

  predicate PairsBareColon(s: Scan, row: Option<Row>) {
    row.Some? && row.value.proto == "" && s.proto == ""
  }

  lemma RowEntersEmptyProtocol(s: Scan, row: Option<Row>)
    ensures "" in ScanRow(s, row).table <==> "" in s.table || PairsBareColon(s, row)
  {
  }

  lemma {:induction false} EmptyProtocolIff(s: Scan, lines: seq<string>)
    ensures "" in ScanLines(s, lines).table <==> "" in s.table || exists n: nat :: BareColonPairs(s, lines, n)
  {
    if lines == [] {
    } else {
      var last := |lines| - 1;
      var init := lines[..last];
      EmptyProtocolIff(s, init);
      RowEntersEmptyProtocol(ScanLines(s, init), RowOf(lines[last]));
      EarlierPairs(s, lines, last);
    }
  }

  lemma EarlierPairs(s: Scan, lines: seq<string>, last: nat)
    requires last == |lines| - 1
    ensures (exists n: nat :: BareColonPairs(s, lines, n)) <==>
      (exists n: nat :: BareColonPairs(s, lines[..last], n))
      || PairsBareColon(ScanLines(s, lines[..last]), RowOf(lines[last]))
  {
    var init := lines[..last];
    forall n: nat ensures BareColonPairs(s, init, n) <==> n < last && BareColonPairs(s, lines, n) {
      if n < last {
        assert init[..n] == lines[..n] && init[n] == lines[n];
      }
    }
    assert BareColonPairs(s, lines, last) <==> PairsBareColon(ScanLines(s, init), RowOf(lines[last]));
  }

  /** For ANY content: an empty protocol appears exactly when a bare-colon line meets the empty
      pending name. */
  lemma BareColonIsAProtocol(content: string, table: Table)
    ensures "" in Parsed(content, table) <==>
      "" in table || exists n: nat :: BareColonPairs(Scan("", [], table), Lines(content), n)
  {
    EmptyProtocolIff(Scan("", [], table), Lines(content));
  }

  /** In particular a file whose first line is a bare colon with columns. */
  lemma LeadingBareColon(cols: seq<string>, rest: string, table: Table)
    requires Tokens(cols) && cols != []
    ensures "" in Parsed(Line("", cols) + "\n" + rest, table)
  {
    var tokens := [":"] + cols;
    assert "" + ":" == ":";
    assert IsToken(":");
    FieldsJoin(tokens);
    TokenLineIsOneLine(tokens);
    assert tokens[1..] == cols;
    assert TrimSuffix(":", ":") == "";
    var content := Line("", cols) + "\n" + rest;
    SplitAtFirst(Line("", cols), rest, '\n');
    assert Lines(content)[0] == Line("", cols);
    assert BareColonPairs(Scan("", [], table), Lines(content), 0);
    BareColonIsAProtocol(content, table);
  }
}
