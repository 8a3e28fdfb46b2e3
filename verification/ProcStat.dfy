/** /proc/<pid>/stat: fields by position after a command name that may contain anything. */
module ProcStat {
  import opened Outcomes
  import opened Text

  datatype Stat = Stat(comm: string, state: string, ppid: int, utime: nat, stime: nat, numThreads: int, starttime: nat)

  /** The fields after the command name. The parent and thread counts take whatever the number
      parser returns beside an error; the times panic. */
  function ParseFields(comm: string, fields: seq<string>): Result<Stat> {
    if |fields| < 20 then Err
    else
      var utime :- ToUint64(fields[11]);
      var stime :- ToUint64(fields[12]);
      var starttime :- ToUint64(fields[19]);
      Ok(Stat(comm, fields[0], ParseInt(fields[1]).value, utime, stime, ParseInt(fields[17]).value, starttime))
  }

  datatype Located = Located(comm: string, rest: string)

  /** The command name lies between the first '(' and the last ')'; the fields start one character
      after that ')'. */
  function Locate(content: string): Option<Located> {
    Between(content, IndexOf(content, '('), LastIndexOf(content, ')'))
  }

  function Between(content: string, open: int, close: int): Option<Located>
    requires -1 <= open && -1 <= close
  {
    if close == -1 || close + 2 > |content| then None
    else Some(Located(if open != -1 && open < close then content[open + 1..close] else "", content[close + 2..]))
  }

  function Parse(content: string): Result<Stat> {
    match Locate(content)
    case None => Err
    case Some(l) => ParseFields(l.comm, Fields(l.rest))
  }

  function Line(pid: string, comm: string, rest: string): string {
    pid + " (" + comm + ") " + rest
  }

  /** The line as the kernel prints it, from the third field on given as a list. */
  function Print(pid: string, comm: string, fields: seq<string>): string {
    Line(pid, comm, Join(fields, ' ') + "\n")
  }

  predicate Numeric(s: string) {
    ParseUint(s).error == NoError
  }

  /** What the fields after the command name have to be. */
  predicate GoodFields(fields: seq<string>) {
    && |fields| >= 20 && Tokens(fields) && (forall f :: f in fields ==> ')' !in f)
    && Numeric(fields[11]) && Numeric(fields[12]) && Numeric(fields[19])
  }

  lemma {:induction false} LastIndexIs(a: string, b: string, c: char)
    requires c !in b
    ensures LastIndexOf(a + [c] + b, c) == |a|
  {
    var s := a + [c] + b;
    if b == [] {
    } else {
      var n := |b| - 1;
      assert s[..|s| - 1] == a + [c] + b[..n];
      LastIndexIs(a, b[..n], c);
    }
  }

  lemma {:induction false} IndexIs(a: string, b: string, c: char)
    requires c !in a
    ensures IndexOf(a + [c] + b, c) == |a|
  {
    var s := a + [c] + b;
    if a == [] {
    } else {
      assert s[1..] == a[1..] + [c] + b;
      IndexIs(a[1..], b, c);
    }
  }

  /** Where the parentheses of a printed line are. */
  lemma Parentheses(pid: string, comm: string, rest: string)
    requires '(' !in pid && ')' !in rest
    ensures IndexOf(Line(pid, comm, rest), '(') == |pid| + 1
    ensures LastIndexOf(Line(pid, comm, rest), ')') == |pid| + 2 + |comm|
  {
    assert Line(pid, comm, rest) == (pid + " (" + comm) + [')'] + (" " + rest);
    assert Line(pid, comm, rest) == (pid + " ") + ['('] + (comm + ") " + rest);
    LastIndexIs(pid + " (" + comm, " " + rest, ')');
    IndexIs(pid + " ", comm + ") " + rest, '(');
  }

  lemma Parts(pid: string, comm: string, rest: string)
    ensures Between(Line(pid, comm, rest), |pid| + 1, |pid| + 2 + |comm|) == Some(Located(comm, rest))
  {
    var line := Line(pid, comm, rest);
    assert line[|pid| + 2..|pid| + 2 + |comm|] == comm;
    assert line[|pid| + 4 + |comm|..] == rest;
  }

  /** The command name is found whatever it contains. */
  lemma LocateLine(pid: string, comm: string, rest: string)
    requires '(' !in pid && ')' !in rest
    ensures Locate(Line(pid, comm, rest)) == Some(Located(comm, rest))
  {
    Parts(pid, comm, rest);
    Parentheses(pid, comm, rest);
  }

  lemma GoodFieldsParse(comm: string, fields: seq<string>)
    requires GoodFields(fields)
    ensures ParseFields(comm, fields) ==
      Ok(Stat(comm, fields[0], ParseInt(fields[1]).value, ParseUint(fields[11]).value, ParseUint(fields[12]).value,
              ParseInt(fields[17]).value, ParseUint(fields[19]).value))
  {
  }

  /** Parsing undoes printing for EVERY command name: blanks, line breaks and unbalanced
      parentheses included. */
  lemma ParsePrint(pid: string, comm: string, fields: seq<string>)
    requires '(' !in pid && GoodFields(fields)
    ensures Parse(Print(pid, comm, fields)) ==
      Ok(Stat(comm, fields[0], ParseInt(fields[1]).value, ParseUint(fields[11]).value, ParseUint(fields[12]).value,
              ParseInt(fields[17]).value, ParseUint(fields[19]).value))
  {
    var rest := Join(fields, ' ') + "\n";
    JoinAvoids(fields, ' ', ')');
    LocateLine(pid, comm, rest);
    FieldsJoinThen(fields, "\n");
    GoodFieldsParse(comm, fields);
  }
}
