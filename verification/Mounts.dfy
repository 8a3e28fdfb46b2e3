/** The mount table of /proc/mounts: parsing, and the printing it undoes. */
module Mounts {
  import opened Outcomes
  import opened Text

  datatype MountEntry = MountEntry(device: string, mountPoint: string, fsType: string)

  /** One left-to-right pass over the field: what a replacement writes is not looked at again. */
  function Unescape(s: string): string {
    if s == "" then ""
    else if HasPrefix(s, "\\040") then " " + Unescape(s[4..])
    else if HasPrefix(s, "\\011") then "\t" + Unescape(s[4..])
    else if HasPrefix(s, "\\012") then "\n" + Unescape(s[4..])
    else if HasPrefix(s, "\\134") then "\\" + Unescape(s[4..])
    else [s[0]] + Unescape(s[1..])
  }

  function MountOf(line: string): Option<MountEntry> {
    var fs := Fields(line);
    if |fs| < 3 then None else Some(MountEntry(Unescape(fs[0]), Unescape(fs[1]), fs[2]))
  }

  method ParseMounts(content: string) returns (entries: seq<MountEntry>)
    ensures entries == Collect(MountOf, Lines(content))
  {
    entries := [];
    var lines := Lines(content);
    for n := 0 to |lines|
      invariant entries == Collect(MountOf, lines[..n])
    {
      CollectMore(MountOf, lines, n);
      var fs := Fields(lines[n]);
      if |fs| < 3 {
        continue;
      }
      entries := entries + [MountEntry(Unescape(fs[0]), Unescape(fs[1]), fs[2])];
    }
    assert lines[..|lines|] == lines;
  }

  // ---------- printing ----------

  /** The kernel's octal escapes in mount table fields. */
  function EscapeChar(c: char): string {
    if c == ' ' then "\\040"
    else if c == '\t' then "\\011"
    else if c == '\n' then "\\012"
    else if c == '\\' then "\\134"
    else [c]
  }

  function Escape(s: string): string {
    if s == "" then "" else EscapeChar(s[0]) + Escape(s[1..])
  }

  /** A row of the table; what follows the type is not looked at. */
  datatype Row = Row(entry: MountEntry, rest: seq<string>)

  function RowLine(row: Row): string {
    Join([Escape(row.entry.device), Escape(row.entry.mountPoint), row.entry.fsType] + row.rest, ' ')
  }

  /** White space other than what gets escaped would split a field. */
  predicate Escapable(s: string) {
    s != "" && forall i | 0 <= i < |s| :: IsSpace(s[i]) ==> s[i] == ' ' || s[i] == '\t' || s[i] == '\n'
  }

  predicate Printable(row: Row) {
    Escapable(row.entry.device) && Escapable(row.entry.mountPoint) && IsToken(row.entry.fsType) && Tokens(row.rest)
  }

  lemma UnescapeOne(c: char, rest: string)
    ensures Unescape(EscapeChar(c) + rest) == [c] + Unescape(rest)
  {
    var s := EscapeChar(c) + rest;
    if |EscapeChar(c)| == 4 {
      assert s[..4] == EscapeChar(c) && s[4..] == rest;
      assert s[0] == '\\' && s[1] == EscapeChar(c)[1] && s[2] == EscapeChar(c)[2] && s[3] == EscapeChar(c)[3];
    } else {
      assert s[0] == c && s[1..] == rest;
    }
  }

  /** Unescaping undoes escaping for every text, one that spells out an escape included. */
  lemma {:induction false} UnescapeEscape(s: string)
    ensures Unescape(Escape(s)) == s
  {
    if s == "" {
    } else {
      UnescapeOne(s[0], Escape(s[1..]));
      UnescapeEscape(s[1..]);
      assert [s[0]] + s[1..] == s;
    }
  }

  lemma EscapedCharIsSpaceless(c: char)
    requires IsSpace(c) ==> c == ' ' || c == '\t' || c == '\n'
    ensures IsToken(EscapeChar(c))
  {
  }

  lemma {:induction false} EscapedIsToken(s: string)
    requires Escapable(s)
    ensures IsToken(Escape(s))
  {
    EscapedCharIsSpaceless(s[0]);
    if |s| > 1 {
      EscapedIsToken(s[1..]);
    } else {
      assert Escape(s[1..]) == "";
    }
  }

  lemma RowParses(row: Row)
    requires Printable(row)
    ensures MountOf(RowLine(row)) == Some(row.entry) && '\n' !in RowLine(row)
  {
    EscapedIsToken(row.entry.device);
    EscapedIsToken(row.entry.mountPoint);
    UnescapeEscape(row.entry.device);
    UnescapeEscape(row.entry.mountPoint);
    var tokens := [Escape(row.entry.device), Escape(row.entry.mountPoint), row.entry.fsType] + row.rest;
    FieldsJoin(tokens);
    TokenLineIsOneLine(tokens);
  }

  /** Parsing a printed mount table gives its entries back: device and mount point exactly as
      they were, with their blanks, tabs, line breaks and backslashes. */
  lemma MountTableRoundTrip(rows: seq<Row>)
    requires forall row :: row in rows ==> Printable(row)
    ensures Collect(MountOf, Lines(Printed(RowLine, rows))) == Mapped((row: Row) => row.entry, rows)
  {
    forall i | 0 <= i < |rows|
      ensures MountOf(RowLine(rows[i])) == Some(rows[i].entry) && '\n' !in RowLine(rows[i])
    {
      RowParses(rows[i]);
    }
    assert Fields("") == [];
    PrintedParses(RowLine, MountOf, (row: Row) => row.entry, rows);
  }
}
