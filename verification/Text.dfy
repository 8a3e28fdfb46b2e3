/** The slice of Go's `strings` and `strconv` that the parsers rest on. A text is a sequence
    of characters (Unicode code points), a file's content is one text. */
module Text {
  import opened Outcomes
  import opened Words

  // ---------- splitting on a character ----------

  /** `strings.Split` with a one-character separator. */
  function Split(s: string, sep: char): (parts: seq<string>)
    ensures |parts| >= 1
    ensures forall p :: p in parts ==> sep !in p
  {
    if s == [] then [[]]
    else
      var rest := Split(s[1..], sep);
      if s[0] == sep then [[]] + rest
      else [[s[0]] + rest[0]] + rest[1..]
  }

  /** `strings.Join` with a one-character separator. */
  function Join(parts: seq<string>, sep: char): string {
    if parts == [] then []
    else if |parts| == 1 then parts[0]
    else parts[0] + [sep] + Join(parts[1..], sep)
  }

  lemma {:induction false} SplitAtFirst(p: string, rest: string, sep: char)
    requires sep !in p
    ensures Split(p, sep) == [p]
    ensures Split(p + [sep] + rest, sep) == [p] + Split(rest, sep)
  {
    if p == [] {
      assert p + [sep] + rest == [sep] + rest;
    } else {
      SplitAtFirst(p[1..], rest, sep);
      assert (p + [sep] + rest)[1..] == p[1..] + [sep] + rest;
      assert [p[0]] + p[1..] == p;
    }
  }

  /** Splitting a joined list gives the list back. */
  lemma {:induction false} SplitJoin(parts: seq<string>, sep: char)
    requires parts != []
    requires forall p :: p in parts ==> sep !in p
    ensures Split(Join(parts, sep), sep) == parts
  {
    assert parts[0] in parts;
    if |parts| == 1 {
      SplitAtFirst(parts[0], [], sep);
    } else {
      SplitJoin(parts[1..], sep);
      SplitAtFirst(parts[0], Join(parts[1..], sep), sep);
    }
  }

  function Lines(content: string): (lines: seq<string>)
    ensures |lines| >= 1
    ensures forall l :: l in lines ==> '\n' !in l
  {
    Split(content, '\n')
  }

  function JoinLines(lines: seq<string>): string {
    Join(lines, '\n')
  }

  /** A file printed line by line, each line ended. */
  function Printed<T>(show: T -> string, ts: seq<T>): string {
    JoinLines(PrintedLines(show, ts) + [""])
  }

  function PrintedLines<T>(show: T -> string, ts: seq<T>): seq<string> {
    if ts == [] then [] else PrintedLines(show, ts[..|ts| - 1]) + [show(ts[|ts| - 1])]
  }

  function Mapped<T, U>(f: T -> U, ts: seq<T>): seq<U> {
    seq(|ts|, i requires 0 <= i < |ts| => f(ts[i]))
  }

  lemma {:induction false} CollectPrinted<T, U>(show: T -> string, parse: string -> Option<U>, value: T -> U, ts: seq<T>)
    requires forall i | 0 <= i < |ts| :: parse(show(ts[i])) == Some(value(ts[i])) && '\n' !in show(ts[i])
    ensures Collect(parse, PrintedLines(show, ts)) == Mapped(value, ts)
    ensures forall l :: l in PrintedLines(show, ts) ==> '\n' !in l
  {
    if ts == [] {
    } else {
      var n := |ts| - 1;
      CollectPrinted(show, parse, value, ts[..n]);
      CollectConcat(parse, PrintedLines(show, ts[..n]), [show(ts[n])]);
      CollectOne(parse, show(ts[n]));
      assert Mapped(value, ts) == Mapped(value, ts[..n]) + [value(ts[n])];
    }
  }

  /** A line parser that inverts a line printer inverts whole files. */
  lemma PrintedParses<T, U>(show: T -> string, parse: string -> Option<U>, value: T -> U, ts: seq<T>)
    requires parse("") == None
    requires forall i | 0 <= i < |ts| :: parse(show(ts[i])) == Some(value(ts[i])) && '\n' !in show(ts[i])
    ensures Collect(parse, Lines(Printed(show, ts))) == Mapped(value, ts)
  {
    CollectPrinted(show, parse, value, ts);
    SplitJoin(PrintedLines(show, ts) + [""], '\n');
    CollectConcat(parse, PrintedLines(show, ts), [""]);
    CollectOne(parse, "");
  }

  datatype Halves = Halves(before: string, after: string, found: bool)

  /** `strings.Cut` with a one-character separator. */
  function Cut(s: string, sep: char): Halves {
    if s == [] then Halves([], [], false)
    else if s[0] == sep then Halves([], s[1..], true)
    else
      var r := Cut(s[1..], sep);
      Halves([s[0]] + r.before, r.after, r.found)
  }

  lemma {:induction false} CutAtFirst(p: string, rest: string, sep: char)
    requires sep !in p
    ensures Cut(p + [sep] + rest, sep) == Halves(p, rest, true)
  {
    if p == [] {
      assert p + [sep] + rest == [sep] + rest;
    } else {
      CutAtFirst(p[1..], rest, sep);
      assert (p + [sep] + rest)[1..] == p[1..] + [sep] + rest;
    }
  }

  // ---------- white space ----------

  /** `unicode.IsSpace`. */
  predicate IsSpace(c: char) {
    || '\t' <= c <= '\r'
    || c == ' '
    || c == '\U{85}' || c == '\U{A0}' || c == '\U{1680}'
    || '\U{2000}' <= c <= '\U{200A}'
    || c == '\U{2028}' || c == '\U{2029}' || c == '\U{202F}' || c == '\U{205F}' || c == '\U{3000}'
  }

  predicate Spaceless(s: string) {
    forall i | 0 <= i < |s| :: !IsSpace(s[i])
  }

  /** A non-empty text without white space: what `Fields` can return. */
  predicate IsToken(s: string) {
    s != [] && Spaceless(s)
  }

  predicate Tokens(ts: seq<string>) {
    forall t :: t in ts ==> IsToken(t)
  }

  function TokenLength(s: string): (n: nat)
    ensures n <= |s| && Spaceless(s[..n])
    ensures n < |s| ==> IsSpace(s[n])
    ensures s != [] && !IsSpace(s[0]) ==> n > 0
  {
    if s == [] || IsSpace(s[0]) then 0 else 1 + TokenLength(s[1..])
  }

  /** `strings.Fields`. */
  function Fields(s: string): (fs: seq<string>)
    ensures Tokens(fs)
    decreases |s|
  {
    if s == [] then []
    else if IsSpace(s[0]) then Fields(s[1..])
    else
      var n := TokenLength(s);
      [s[..n]] + Fields(s[n..])
  }

  lemma {:induction false} TokenLengthOf(t: string, rest: string)
    requires Spaceless(t) && (rest == [] || IsSpace(rest[0]))
    ensures TokenLength(t + rest) == |t|
  {
    if t == [] {
      assert t + rest == rest;
    } else {
      TokenLengthOf(t[1..], rest);
      assert (t + rest)[1..] == t[1..] + rest;
    }
  }

  lemma {:induction false} FieldsOfToken(t: string, rest: string)
    requires IsToken(t) && (rest == [] || IsSpace(rest[0]))
    ensures Fields(t + rest) == [t] + Fields(rest)
  {
    TokenLengthOf(t, rest);
    assert (t + rest)[..|t|] == t;
    assert (t + rest)[|t|..] == rest;
    assert !IsSpace((t + rest)[0]);
  }

  lemma {:induction false} FieldsOfBlank(s: string)
    requires forall i | 0 <= i < |s| :: IsSpace(s[i])
    ensures Fields(s) == []
  {
    if s == [] {
    } else {
      FieldsOfBlank(s[1..]);
    }
  }

  /** Blank space after the last token - a line break, say - makes no difference. */
  lemma {:induction false} FieldsJoinThen(ts: seq<string>, end: string)
    requires Tokens(ts) && forall i | 0 <= i < |end| :: IsSpace(end[i])
    ensures Fields(Join(ts, ' ') + end) == ts
  {
    FieldsOfBlank(end);
    if ts == [] {
      assert Join(ts, ' ') + end == end;
    } else {
      assert ts[0] in ts;
      if |ts| == 1 {
        FieldsOfToken(ts[0], end);
      } else {
        var rest := Join(ts[1..], ' ') + end;
        var tail := [' '] + rest;
        assert Join(ts, ' ') + end == ts[0] + tail;
        assert tail[1..] == rest && [ts[0]] + ts[1..] == ts;
        FieldsJoinThen(ts[1..], end);
        FieldsOfToken(ts[0], tail);
      }
    }
  }

  /** Joining tokens with blanks is undone by `Fields`. */
  lemma FieldsJoin(ts: seq<string>)
    requires Tokens(ts)
    ensures Fields(Join(ts, ' ')) == ts
  {
    FieldsJoinThen(ts, "");
    assert Join(ts, ' ') + "" == Join(ts, ' ');
  }

  lemma {:induction false} JoinAvoids(ts: seq<string>, sep: char, c: char)
    requires c != sep && forall t :: t in ts ==> c !in t
    ensures c !in Join(ts, sep)
  {
    if |ts| > 1 {
      assert ts[0] in ts;
      JoinAvoids(ts[1..], sep, c);
    }
  }

  /** Tokens contain no line break, so a line made of them is one line. */
  lemma {:induction false} TokenLineIsOneLine(ts: seq<string>)
    requires Tokens(ts)
    ensures '\n' !in Join(ts, ' ')
  {
    forall t | t in ts ensures '\n' !in t {
      assert IsToken(t);
      assert IsSpace('\n');
    }
    JoinAvoids(ts, ' ', '\n');
  }

  function TrimLeft(s: string): (t: string)
    ensures t == [] || !IsSpace(t[0])
  {
    if s != [] && IsSpace(s[0]) then TrimLeft(s[1..]) else s
  }

  function TrimRight(s: string): (t: string)
    ensures t == [] || !IsSpace(t[|t| - 1])
    ensures t <= s
  {
    if s != [] && IsSpace(s[|s| - 1]) then TrimRight(s[..|s| - 1]) else s
  }

  /** `strings.TrimSpace`. */
  function TrimSpace(s: string): string {
    TrimRight(TrimLeft(s))
  }

  // ---------- prefixes, suffixes, search ----------

  predicate HasPrefix(s: string, p: string) {
    p <= s
  }

  predicate HasSuffix(s: string, p: string) {
    |p| <= |s| && s[|s| - |p|..] == p
  }

  function TrimSuffix(s: string, p: string): string {
    if HasSuffix(s, p) then s[..|s| - |p|] else s
  }

  predicate Contains(s: string, p: string) {
    HasPrefix(s, p) || (s != [] && Contains(s[1..], p))
  }

  /** `strings.Index` of one character, -1 when absent. */
  function IndexOf(s: string, c: char): (i: int)
    ensures -1 <= i < |s|
  {
    if s == [] then -1
    else if s[0] == c then 0
    else
      var i := IndexOf(s[1..], c);
      if i == -1 then -1 else i + 1
  }

  /** `strings.LastIndex` of one character, -1 when absent. */
  function LastIndexOf(s: string, c: char): (i: int)
    ensures -1 <= i < |s|
  {
    if s == [] then -1
    else if s[|s| - 1] == c then |s| - 1
    else LastIndexOf(s[..|s| - 1], c)
  }

  /** How many times `c` occurs, `strings.Count`. */
  function Count(s: string, c: char): nat {
    if s == [] then 0 else (if s[0] == c then 1 else 0) + Count(s[1..], c)
  }

  lemma {:induction false} CountConcat(a: string, b: string, c: char)
    ensures Count(a + b, c) == Count(a, c) + Count(b, c)
  {
    if a == [] {
      assert a + b == b;
    } else {
      CountConcat(a[1..], b, c);
      assert (a + b)[1..] == a[1..] + b;
    }
  }

  lemma {:induction false} CountAbsent(a: string, c: char)
    requires c !in a
    ensures Count(a, c) == 0
  {
    if a == [] {
    } else {
      CountAbsent(a[1..], c);
    }
  }

  // ---------- decimal numbers ----------

  predicate IsDigit(c: char) {
    '0' <= c <= '9'
  }

  function Digit(c: char): (d: nat)
    requires IsDigit(c)
    ensures d < 10
  {
    (c - '0') as int
  }

  datatype ParseError = NoError | SyntaxError | RangeError
  datatype Number = Number(value: int, error: ParseError)

  /** The digit loop of `strconv.ParseUint(s, 10, 64)`: left to right, and a value that no
      longer fits stops it before later characters are looked at. */
  function ScanDigits(s: string, acc: nat): (r: Number)
    requires acc < TWO64
    ensures 0 <= r.value < TWO64
  {
    if s == [] then Number(acc, NoError)
    else if !IsDigit(s[0]) then Number(0, SyntaxError)
    else if acc * 10 + Digit(s[0]) >= TWO64 then Number(MAX_UINT64, RangeError)
    else ScanDigits(s[1..], acc * 10 + Digit(s[0]))
  }

  /** `strconv.ParseUint(s, 10, 64)`, the value returned beside the error included. */
  function ParseUint(s: string): (r: Number)
    ensures 0 <= r.value < TWO64
  {
    if s == [] then Number(0, SyntaxError) else ScanDigits(s, 0)
  }

  /** `strconv.ParseInt(s, 10, 64)` and, where int has 64 bits, `strconv.Atoi`. */
  function ParseInt(s: string): (r: Number)
    ensures -TWO63 <= r.value < TWO63
  {
    if s == [] then Number(0, SyntaxError)
    else
      var u := ParseUint(if s[0] == '+' || s[0] == '-' then s[1..] else s);
      if u.error == SyntaxError then Number(0, SyntaxError)
      else if s[0] != '-' && u.value >= TWO63 then Number(TWO63 - 1, RangeError)
      else if s[0] == '-' && u.value > TWO63 then Number(-TWO63, RangeError)
      else Number(if s[0] == '-' then -u.value else u.value, NoError)
  }

  /** `strops.ToUint64`: a malformed number panics. */
  function ToUint64(s: string): (r: Result<nat>)
    ensures r.Ok? ==> r.value < TWO64
  {
    var n := ParseUint(s);
    if n.error == NoError then Ok(n.value) else Err
  }

  /** Decimal printing, `strconv.FormatUint`. */
  function Format(n: nat): (s: string)
    ensures s != [] && forall i | 0 <= i < |s| :: IsDigit(s[i])
  {
    var d := [('0' as int + n % 10) as char];
    if n < 10 then d else Format(n / 10) + d
  }

  lemma {:induction false} ScanConcat(a: string, b: string, acc: nat)
    requires acc < TWO64 && ScanDigits(a, acc).error == NoError
    ensures ScanDigits(a + b, acc) == ScanDigits(b, ScanDigits(a, acc).value)
  {
    if a == [] {
      assert a + b == b;
    } else {
      ScanConcat(a[1..], b, acc * 10 + Digit(a[0]));
      assert (a + b)[1..] == a[1..] + b;
    }
  }

  lemma {:induction false} ScanFormat(n: nat)
    requires n < TWO64
    ensures ScanDigits(Format(n), 0) == Number(n, NoError)
  {
    var d := [('0' as int + n % 10) as char];
    assert Digit(d[0]) == n % 10;
    assert d[1..] == [];
    if n >= 10 {
      ScanFormat(n / 10);
      ScanConcat(Format(n / 10), d, 0);
    }
  }

  /** Parsing undoes printing, for every 64-bit unsigned number. */
  lemma ParseFormat(n: nat)
    requires n < TWO64
    ensures ParseUint(Format(n)) == Number(n, NoError)
    ensures IsToken(Format(n))
  {
    ScanFormat(n);
    forall i | 0 <= i < |Format(n)| ensures !IsSpace(Format(n)[i]) {
      assert IsDigit(Format(n)[i]);
    }
  }

  lemma FormatAvoids(n: nat, c: char)
    requires !IsDigit(c)
    ensures c !in Format(n)
  {
  }

  lemma FormatIsToken(n: nat)
    ensures IsToken(Format(n))
  {
    forall i | 0 <= i < |Format(n)| ensures !IsSpace(Format(n)[i]) {
      assert IsDigit(Format(n)[i]);
    }
  }

  /** Decimal printing of a signed number, `strconv.FormatInt`. */
  function FormatInt(n: int): string {
    if n < 0 then "-" + Format(-n) else Format(n)
  }

  /** Signed parsing undoes signed printing, and a plus sign does no harm; outside 64 bits it reports
      an error beside the nearest number there is. */
  lemma ParseFormatInt(n: int)
    requires -TWO64 < n < TWO64
    ensures ParseInt(FormatInt(n)) ==
      if n < -TWO63 then Number(-TWO63, RangeError)
      else if n >= TWO63 then Number(TWO63 - 1, RangeError)
      else Number(n, NoError)
    ensures n >= 0 ==> ParseInt("+" + Format(n)) == ParseInt(FormatInt(n))
  {
    var digits := Format(if n < 0 then -n else n);
    ParseFormat(if n < 0 then -n else n);
    assert IsDigit(digits[0]);
    assert ("-" + digits)[1..] == digits && ("+" + digits)[1..] == digits;
  }

  // ---------- white space around and between ----------

  predicate IsBlank(s: string) {
    forall i | 0 <= i < |s| :: IsSpace(s[i])
  }

  /** Neither begins nor ends with white space. */
  predicate Trimmed(s: string) {
    s != "" ==> !IsSpace(s[0]) && !IsSpace(s[|s| - 1])
  }

  lemma {:induction false} TrimLeftOf(a: string, t: string)
    requires IsBlank(a) && (t == "" || !IsSpace(t[0]))
    ensures TrimLeft(a + t) == t
  {
    if a == "" {
      assert a + t == t;
    } else {
      assert (a + t)[1..] == a[1..] + t;
      TrimLeftOf(a[1..], t);
    }
  }

  lemma {:induction false} TrimRightOf(t: string, b: string)
    requires IsBlank(b) && Trimmed(t)
    ensures TrimRight(t + b) == t
  {
    if b == "" {
      assert t + b == t;
    } else {
      assert (t + b)[..|t + b| - 1] == t + b[..|b| - 1];
      TrimRightOf(t, b[..|b| - 1]);
    }
  }

  lemma {:induction false} TrimLeftBlank(a: string)
    requires IsBlank(a)
    ensures TrimLeft(a) == ""
  {
    TrimLeftOf(a, "");
    assert a + "" == a;
  }

  /** Trimming takes off exactly the padding of a text. */
  lemma TrimPadded(a: string, t: string, b: string)
    requires IsBlank(a) && IsBlank(b) && Trimmed(t)
    ensures TrimSpace(a + t + b) == t
  {
    if t == "" {
      assert a + t + b == a + b;
      TrimLeftBlank(a + b);
    } else {
      assert a + t + b == a + (t + b);
      TrimLeftOf(a, t + b);
      TrimRightOf(t, b);
    }
  }

  /** A token and the blank space after it. */
  datatype Spaced = Spaced(token: string, gap: string)

  function Spread(ts: seq<Spaced>): string {
    if ts == [] then "" else ts[0].token + ts[0].gap + Spread(ts[1..])
  }

  function TokensOf(ts: seq<Spaced>): seq<string> {
    seq(|ts|, i requires 0 <= i < |ts| => ts[i].token)
  }

  /** Tokens with blank space between any two of them. */
  predicate WellSpaced(ts: seq<Spaced>) {
    forall i | 0 <= i < |ts| :: IsToken(ts[i].token) && IsBlank(ts[i].gap) && (i < |ts| - 1 ==> ts[i].gap != "")
  }

  lemma {:induction false} FieldsSkipBlank(a: string, s: string)
    requires IsBlank(a)
    ensures Fields(a + s) == Fields(s)
  {
    if a == "" {
      assert a + s == s;
    } else {
      assert (a + s)[1..] == a[1..] + s;
      FieldsSkipBlank(a[1..], s);
    }
  }

  lemma OneToken(t: Spaced, rest: string)
    requires IsToken(t.token) && IsBlank(t.gap) && (t.gap == "" ==> rest == "")
    ensures Fields(t.token + t.gap + rest) == [t.token] + Fields(rest)
  {
    var after := t.gap + rest;
    assert t.token + t.gap + rest == t.token + after;
    assert after == "" || IsSpace(after[0]);
    FieldsOfToken(t.token, after);
    FieldsSkipBlank(t.gap, rest);
  }

  lemma WellSpacedRest(ts: seq<Spaced>)
    requires WellSpaced(ts) && ts != []
    ensures IsToken(ts[0].token) && IsBlank(ts[0].gap) && WellSpaced(ts[1..])
    ensures ts[0].gap == "" ==> ts[1..] == []
    ensures TokensOf(ts) == [ts[0].token] + TokensOf(ts[1..])
  {
    forall i | 0 <= i < |ts| - 1 ensures ts[1..][i] == ts[i + 1] {
    }
  }

  lemma {:induction false} SpreadFields(ts: seq<Spaced>)
    requires WellSpaced(ts)
    ensures Fields(Spread(ts)) == TokensOf(ts)
  {
    if ts == [] {
    } else {
      WellSpacedRest(ts);
      SpreadFields(ts[1..]);
      OneToken(ts[0], Spread(ts[1..]));
    }
  }

  /** `Fields` finds the tokens of a text however much white space of whatever kind is around them. */
  lemma FieldsOfSpread(lead: string, ts: seq<Spaced>)
    requires IsBlank(lead) && WellSpaced(ts)
    ensures Fields(lead + Spread(ts)) == TokensOf(ts)
  {
    FieldsSkipBlank(lead, Spread(ts));
    SpreadFields(ts);
  }

  // ---------- cutting ----------

  lemma {:induction false} CutAbsent(s: string, sep: char)
    requires sep !in s
    ensures Cut(s, sep) == Halves(s, "", false)
  {
    if s == "" {
    } else {
      CutAbsent(s[1..], sep);
      assert s == [s[0]] + s[1..];
    }
  }
}
