/** Which directory holds a controller's files for a cgroup, and the key/value files in it. */
module Cgroup {
  import opened Outcomes
  import opened Text
  import opened Words

  datatype Version = NoCgroup | V1 | V2

  // ---------- paths ----------

  /** The component stack of `path.Clean`. */
  function CleanParts(parts: seq<string>, rooted: bool, done: seq<string>): seq<string>
    decreases |parts|
  {
    if parts == [] then done
    else if parts[0] == "" || parts[0] == "." then CleanParts(parts[1..], rooted, done)
    else if parts[0] != ".." then CleanParts(parts[1..], rooted, done + [parts[0]])
    else if done != [] && done[|done| - 1] != ".." then CleanParts(parts[1..], rooted, done[..|done| - 1])
    else if rooted then CleanParts(parts[1..], rooted, done)
    else CleanParts(parts[1..], rooted, done + [".."])
  }

  function Clean(p: string): string {
    var rooted := HasPrefix(p, "/");
    var body := Join(CleanParts(Split(p, '/'), rooted, []), '/');
    if rooted then "/" + body else if body == "" then "." else body
  }

  function NonEmpty(elems: seq<string>): seq<string> {
    if elems == [] then []
    else (if elems[0] == "" then [] else [elems[0]]) + NonEmpty(elems[1..])
  }

  /** `path.Join`. */
  function PathJoin(elems: seq<string>): string {
    var es := NonEmpty(elems);
    if es == [] then "" else Clean(Join(es, '/'))
  }

  // ---------- /proc/self/cgroup ----------

  /** One line "hierarchy-ID:controller-list:path". */
  datatype Hierarchy = Hierarchy(id: string, controllers: string, path: string)

  /** `strings.SplitN(strings.TrimSpace(line), ":", 3)`, when it has three parts. */
  function ParseHierarchy(line: string): Option<Hierarchy> {
    var a := Cut(TrimSpace(line), ':');
    var b := Cut(a.after, ':');
    if a.found && b.found then Some(Hierarchy(a.before, b.before, b.after)) else None
  }

  /** The line names the controller as an exact element of its controller list. */
  predicate Lists(line: string, controller: string) {
    var h := ParseHierarchy(line);
    h.Some? && controller in Split(h.value.controllers, ',')
  }

  function Listing(controller: string): string -> bool {
    line => Lists(line, controller)
  }

  /** The controller list of a line, which doubles as a directory name; "" when it has none. */
  function ControllersOf(line: string): string {
    match ParseHierarchy(line)
    case Some(h) => h.controllers
    case None => ""
  }

  ghost predicate FirstAt<T>(p: T -> bool, s: seq<T>, i: nat) {
    i < |s| && p(s[i]) && forall j | 0 <= j < i :: !p(s[j])
  }

  ghost predicate LastAt<T>(p: T -> bool, s: seq<T>, i: nat) {
    i < |s| && p(s[i]) && forall j | i < j < |s| :: !p(s[j])
  }

  ghost predicate Nowhere<T>(p: T -> bool, s: seq<T>) {
    forall i | 0 <= i < |s| :: !p(s[i])
  }

  ghost predicate IsFirstListing(lines: seq<string>, controller: string, i: nat) {
    FirstAt(Listing(controller), lines, i)
  }

  ghost predicate IsLastListing(lines: seq<string>, controller: string, i: nat) {
    LastAt(Listing(controller), lines, i)
  }

  ghost predicate Unlisted(lines: seq<string>, controller: string) {
    Nowhere(Listing(controller), lines)
  }

  method ParseSelfCgroupV1(content: string, controller: string) returns (r: Result<Hierarchy>)
    ensures r.Err? <==> Unlisted(Lines(content), controller)
    ensures r.Ok? ==> exists i: nat :: IsFirstListing(Lines(content), controller, i)
                                       && ParseHierarchy(Lines(content)[i]) == Some(r.value)
  {
    var lines := Lines(content);
    for n := 0 to |lines|
      invariant forall j | 0 <= j < n :: !Lists(lines[j], controller)
    {
      var h := ParseHierarchy(lines[n]);
      if h.None? {
        continue;
      }
      var cs := Split(h.value.controllers, ',');
      for k := 0 to |cs|
        invariant controller !in cs[..k]
      {
        if cs[k] == controller {
          assert IsFirstListing(lines, controller, n);
          return Ok(h.value);
        }
      }
    }
    r := Err;
  }

  function ParseSelfCgroupV2(content: string): Result<string> {
    var h := ParseHierarchy(content);
    if h.None? || h.value.id != "0" then Err else Ok(h.value.path)
  }

  /** The six controllers whose directories are kept. */
  datatype Controller = Memory | Cpu | Cpuacct | Pids | Blkio | Freezer

  function NameOf(c: Controller): string {
    match c
    case Memory => "memory"
    case Cpu => "cpu"
    case Cpuacct => "cpuacct"
    case Pids => "pids"
    case Blkio => "blkio"
    case Freezer => "freezer"
  }

  const DEFAULT_V1_DIRS: map<string, string> :=
    map["memory" := "memory", "cpu" := "cpu,cpuacct", "cpuacct" := "cpu,cpuacct",
        "pids" := "pids", "blkio" := "blkio", "freezer" := "freezer"]

  lemma KnownControllers()
    ensures forall c: Controller :: NameOf(c) in DEFAULT_V1_DIRS
    ensures "" !in DEFAULT_V1_DIRS
  {
    forall c: Controller ensures NameOf(c) in DEFAULT_V1_DIRS {
      match c case Memory => case Cpu => case Cpuacct => case Pids => case Blkio => case Freezer =>
    }
    assert forall k | k in DEFAULT_V1_DIRS :: k != "";
  }

  /** The directory name the last line with property `lists` gives, else the default. */
  ghost predicate IsLastValue<T>(lists: T -> bool, valueOf: T -> string, lines: seq<T>, dir: string, fallback: string) {
    && (Nowhere(lists, lines) ==> dir == fallback)
    && forall i: nat | LastAt(lists, lines, i) :: dir == valueOf(lines[i])
  }

  ghost predicate IsDirName(lines: seq<string>, controller: string, dir: string, fallback: string) {
    IsLastValue(Listing(controller), ControllersOf, lines, dir, fallback)
  }

  ghost predicate AreDirNames(lines: seq<string>, names: map<string, string>, defaults: map<string, string>) {
    && names.Keys == defaults.Keys
    && forall c | c in defaults :: IsDirName(lines, c, names[c], defaults[c])
  }

  lemma LastValueStep<T>(lists: T -> bool, valueOf: T -> string, lines: seq<T>, n: nat, dir: string, fallback: string)
    requires n < |lines| && IsLastValue(lists, valueOf, lines[..n], dir, fallback)
    ensures IsLastValue(lists, valueOf, lines[..n + 1], if lists(lines[n]) then valueOf(lines[n]) else dir, fallback)
  {
    var before, after := lines[..n], lines[..n + 1];
    assert forall j | 0 <= j < n :: before[j] == after[j];
    assert after[n] == lines[n];
    forall i: nat | LastAt(lists, after, i)
      ensures if lists(lines[n]) then i == n else LastAt(lists, before, i)
    {
    }
    if Nowhere(lists, after) {
      assert !lists(after[n]);
      assert Nowhere(lists, before) by {
        forall i | 0 <= i < n ensures !lists(before[i]) {
          assert !lists(after[i]);
        }
      }
    }
  }

  /** One pass over a controller list: every known controller in it gets that list's directory. */
  method RecordListing(list: string, names: map<string, string>) returns (updated: map<string, string>)
    ensures updated.Keys == names.Keys
    ensures forall c | c in names ::
      updated[c] == if c in Split(list, ',') then list else names[c]
  {
    updated := names;
    var cs := Split(list, ',');
    for k := 0 to |cs|
      invariant updated.Keys == names.Keys
      invariant forall c | c in names :: updated[c] == if c in cs[..k] then list else names[c]
    {
      assert cs[..k + 1] == cs[..k] + [cs[k]];
      if cs[k] in updated {
        updated := updated[cs[k] := list];
      }
    }
    assert cs[..|cs|] == cs;
  }

  lemma DirNamesStep(lines: seq<string>, n: nat, names: map<string, string>, names': map<string, string>,
                     defaults: map<string, string>)
    requires n < |lines| && AreDirNames(lines[..n], names, defaults) && names'.Keys == names.Keys
    requires forall c | c in names ::
      names'[c] == if Lists(lines[n], c) then ControllersOf(lines[n]) else names[c]
    ensures AreDirNames(lines[..n + 1], names', defaults)
  {
    forall c | c in defaults
      ensures IsDirName(lines[..n + 1], c, names'[c], defaults[c])
    {
      LastValueStep(Listing(c), ControllersOf, lines, n, names[c], defaults[c]);
    }
  }

  lemma EmptyListListsNothingKnown(line: string, c: string)
    requires c != "" && (ParseHierarchy(line).Some? ==> ParseHierarchy(line).value.controllers == "")
    ensures !Lists(line, c)
  {
    assert Split("", ',') == [""];
  }

  method DirNames(content: string, defaults: map<string, string>) returns (names: map<string, string>)
    requires "" !in defaults
    ensures AreDirNames(Lines(content), names, defaults)
  {
    names := defaults;
    var lines := Lines(content);
    for n := 0 to |lines|
      invariant AreDirNames(lines[..n], names, defaults)
    {
      ghost var before := names;
      var h := ParseHierarchy(lines[n]);
      if h.None? || h.value.controllers == "" {
        forall c | c in names ensures !Lists(lines[n], c) {
          EmptyListListsNothingKnown(lines[n], c);
        }
        DirNamesStep(lines, n, names, names, defaults);
        continue;
      }
      names := RecordListing(h.value.controllers, names);
      DirNamesStep(lines, n, before, names, defaults);
    }
    assert lines[..|lines|] == lines;
  }

  method V1ControllerDirNames(content: string) returns (names: map<string, string>)
    ensures AreDirNames(Lines(content), names, DEFAULT_V1_DIRS)
  {
    KnownControllers();
    names := DirNames(content, DEFAULT_V1_DIRS);
  }

  lemma TheDefaults()
    ensures DEFAULT_V1_DIRS.Keys == {"memory", "cpu", "cpuacct", "pids", "blkio", "freezer"}
    ensures DEFAULT_V1_DIRS["memory"] == "memory" && DEFAULT_V1_DIRS["cpu"] == "cpu,cpuacct"
    ensures DEFAULT_V1_DIRS["cpuacct"] == "cpu,cpuacct" && DEFAULT_V1_DIRS["pids"] == "pids"
    ensures DEFAULT_V1_DIRS["blkio"] == "blkio" && DEFAULT_V1_DIRS["freezer"] == "freezer"
  {
  }

  lemma DefaultDir(content: string, names: map<string, string>, defaults: map<string, string>, c: string)
    requires AreDirNames(Lines(content), names, defaults) && c in defaults
    ensures c in names && (Unlisted(Lines(content), c) ==> names[c] == defaults[c])
  {
    assert IsDirName(Lines(content), c, names[c], defaults[c]);
  }

  /** The table has the six known controllers and no others; those no line lists keep the directory
      they conventionally have. */
  lemma DefaultDirs(content: string, names: map<string, string>, c: string, dir: string)
    requires AreDirNames(Lines(content), names, DEFAULT_V1_DIRS)
    requires (c, dir) in {("memory", "memory"), ("cpu", "cpu,cpuacct"), ("cpuacct", "cpu,cpuacct"),
                          ("pids", "pids"), ("blkio", "blkio"), ("freezer", "freezer")}
    ensures names.Keys == {"memory", "cpu", "cpuacct", "pids", "blkio", "freezer"}
    ensures c in names && (Unlisted(Lines(content), c) ==> names[c] == dir)
  {
    TheDefaults();
    DefaultDir(content, names, DEFAULT_V1_DIRS, c);
  }

  // ---------- a printed line ----------

  /** A line of /proc/self/cgroup as the kernel prints it, white space around it or not. */
  lemma HierarchyRoundTrip(lead: string, h: Hierarchy, tail: string)
    requires IsBlank(lead) && IsBlank(tail)
    requires ':' !in h.id && ':' !in h.controllers && Trimmed(h.id + ":" + h.controllers + ":" + h.path)
    ensures ParseHierarchy(lead + (h.id + ":" + h.controllers + ":" + h.path) + tail) == Some(h)
  {
    var text := h.id + ":" + h.controllers + ":" + h.path;
    TrimPadded(lead, text, tail);
    assert lead + (h.id + ":" + h.controllers + ":" + h.path) + tail == lead + text + tail;
    ThreeParts(h.id, h.controllers, h.path);
  }

  lemma ThreeParts(a: string, b: string, c: string)
    requires ':' !in a && ':' !in b
    ensures Cut(a + ":" + b + ":" + c, ':') == Halves(a, b + ":" + c, true)
    ensures Cut(b + ":" + c, ':') == Halves(b, c, true)
  {
    assert a + ":" + b + ":" + c == a + [':'] + (b + ":" + c);
    CutAtFirst(a, b + ":" + c, ':');
    CutAtFirst(b, c, ':');
  }

  /** It lists the controllers it was printed with, and no others. */
  lemma PrintedLineLists(id: string, list: seq<string>, path: string, controller: string)
    requires ':' !in id && list != [] && forall c :: c in list ==> ',' !in c && ':' !in c
    requires Trimmed(id + ":" + Join(list, ',') + ":" + path)
    ensures Lists(id + ":" + Join(list, ',') + ":" + path, controller) <==> controller in list
    ensures ControllersOf(id + ":" + Join(list, ',') + ":" + path) == Join(list, ',')
  {
    var line := id + ":" + Join(list, ',') + ":" + path;
    JoinAvoids(list, ',', ':');
    HierarchyRoundTrip("", Hierarchy(id, Join(list, ','), path), "");
    assert "" + line + "" == line;
    SplitJoin(list, ',');
  }

  /** Under v2 there is one line, of hierarchy 0 and without controllers. */
  lemma UnifiedRoundTrip(id: string, list: string, path: string)
    requires ':' !in id && ':' !in list && Trimmed(id + ":" + list + ":" + path)
    ensures ParseSelfCgroupV2(id + ":" + list + ":" + path + "\n") == if id == "0" then Ok(path) else Err
  {
    var text := id + ":" + list + ":" + path;
    HierarchyRoundTrip("", Hierarchy(id, list, path), "\n");
    assert "" + text + "\n" == text + "\n";
  }

  // ---------- the two resolvers ----------

  datatype Dirs = Dirs(version: Version, memory: string, cpu: string, cpuacct: string,
                       pids: string, blkio: string, freezer: string)

  function V1Name(names: map<string, string>, controller: Controller): string {
    if NameOf(controller) in names then names[NameOf(controller)] else ""
  }

  function DirsFor(version: Version, root: string, relPath: string, names: map<string, string>): Dirs {
    if version == V2 then
      var dir := PathJoin([root, relPath]);
      Dirs(version, dir, dir, dir, dir, dir, dir)
    else
      var at := (c: Controller) => PathJoin([root, V1Name(names, c), relPath]);
      Dirs(version, at(Memory), at(Cpu), at(Cpuacct), at(Pids), at(Blkio), at(Freezer))
  }

  function DirOf(d: Dirs, controller: Controller): string {
    match controller
    case Memory => d.memory
    case Cpu => d.cpu
    case Cpuacct => d.cpuacct
    case Pids => d.pids
    case Blkio => d.blkio
    case Freezer => d.freezer
  }

  /** The calling process's own directory for a controller; `selfCgroup` is the content of
      /proc/self/cgroup, None when it cannot be read. */
  method ResolveControllerPath(selfCgroup: Option<string>, root: string, version: Version, controller: string)
    returns (r: Result<string>)
    ensures selfCgroup.None? || version == NoCgroup ==> r == Err
    ensures selfCgroup.Some? && version == V2 ==>
      r == match ParseSelfCgroupV2(selfCgroup.value) case Err => Err case Ok(p) => Ok(PathJoin([root, p]))
    ensures selfCgroup.Some? && version == V1 ==>
      (r.Err? <==> Unlisted(Lines(selfCgroup.value), controller))
    ensures selfCgroup.Some? && version == V1 && r.Ok? ==>
      exists i: nat ::
        && IsFirstListing(Lines(selfCgroup.value), controller, i)
        && r.value == ListedDir(root, Lines(selfCgroup.value)[i])
  {
    if selfCgroup.None? || version == NoCgroup {
      return Err;
    }
    if version == V2 {
      var p := ParseSelfCgroupV2(selfCgroup.value);
      return if p.Err? then Err else Ok(PathJoin([root, p.value]));
    }
    var h := ParseSelfCgroupV1(selfCgroup.value, controller);
    if h.Err? {
      return Err;
    }
    r := Ok(PathJoin([root, h.value.controllers, h.value.path]));
  }

  /** Where a /proc/self/cgroup line puts the cgroup it names. */
  ghost function ListedDir(root: string, line: string): string {
    match ParseHierarchy(line)
    case Some(h) => PathJoin([root, h.controllers, h.path])
    case None => ""
  }

  // ---------- paths with a directory name in the middle ----------

  lemma {:induction false} SplitConcat(a: string, b: string, sep: char)
    ensures Split(a + [sep] + b, sep) == Split(a, sep) + Split(b, sep)
  {
    if a == [] {
      assert a + [sep] + b == [sep] + b;
    } else {
      var below := a[1..] + [sep] + b;
      SplitConcat(a[1..], b, sep);
      assert a + [sep] + b == [a[0]] + below && a == [a[0]] + a[1..];
      SplitStep(a[0], below, sep);
      SplitStep(a[0], a[1..], sep);
      GrowFirst(a[0], Split(a[1..], sep), Split(b, sep));
    }
  }

  lemma SplitStep(c: char, s: string, sep: char)
    ensures Split([c] + s, sep)
         == if c == sep then [[]] + Split(s, sep) else [[c] + Split(s, sep)[0]] + Split(s, sep)[1..]
  {
    assert ([c] + s)[1..] == s;
  }

  lemma GrowFirst(c: char, x: seq<string>, y: seq<string>)
    requires x != []
    ensures [[c] + (x + y)[0]] + (x + y)[1..] == [[c] + x[0]] + x[1..] + y
    ensures [[]] + (x + y) == [[]] + x + y
  {
  }

  lemma {:induction false} CleanConcat(x: seq<string>, y: seq<string>, rooted: bool, done: seq<string>)
    ensures CleanParts(x + y, rooted, done) == CleanParts(y, rooted, CleanParts(x, rooted, done))
    decreases |x|
  {
    if x == [] {
      assert x + y == y;
    } else {
      assert (x + y)[1..] == x[1..] + y;
      if x[0] == "" || x[0] == "." {
        CleanConcat(x[1..], y, rooted, done);
      } else if x[0] != ".." {
        CleanConcat(x[1..], y, rooted, done + [x[0]]);
      } else if done != [] && done[|done| - 1] != ".." {
        CleanConcat(x[1..], y, rooted, done[..|done| - 1]);
      } else if rooted {
        CleanConcat(x[1..], y, rooted, done);
      } else {
        CleanConcat(x[1..], y, rooted, done + [".."]);
      }
    }
  }

  /** Components that do not lead back up are appended. */
  lemma {:induction false} CleanAppends(parts: seq<string>, rooted: bool, done: seq<string>)
    requires ".." !in parts
    ensures CleanParts(parts, rooted, done) == done + CleanParts(parts, rooted, [])
    decreases |parts|
  {
    if parts == [] {
    } else if parts[0] == "" || parts[0] == "." {
      CleanAppends(parts[1..], rooted, done);
    } else {
      CleanAppends(parts[1..], rooted, done + [parts[0]]);
      CleanAppends(parts[1..], rooted, [parts[0]]);
      assert [] + [parts[0]] == [parts[0]];
      var rest := CleanParts(parts[1..], rooted, []);
      assert done + [parts[0]] + rest == done + ([parts[0]] + rest);
    }
  }

  lemma {:induction false} CleanKeepsSlashesOut(parts: seq<string>, rooted: bool, done: seq<string>)
    requires forall p :: p in parts || p in done ==> '/' !in p
    ensures forall p :: p in CleanParts(parts, rooted, done) ==> '/' !in p
    decreases |parts|
  {
    if parts == [] {
    } else if parts[0] == "" || parts[0] == "." {
      CleanKeepsSlashesOut(parts[1..], rooted, done);
    } else if parts[0] != ".." {
      assert parts[0] in parts;
      CleanKeepsSlashesOut(parts[1..], rooted, done + [parts[0]]);
    } else if done != [] && done[|done| - 1] != ".." {
      CleanKeepsSlashesOut(parts[1..], rooted, done[..|done| - 1]);
    } else if rooted {
      CleanKeepsSlashesOut(parts[1..], rooted, done);
    } else {
      CleanKeepsSlashesOut(parts[1..], rooted, done + [".."]);
    }
  }

  /** One directory name: not empty, no separator, and not "." or "..". */
  predicate IsPlain(name: string) {
    name != "" && '/' !in name && name != "." && name != ".."
  }

  /** The components a path joined from a root, a plain name and a path that stays below it has. */
  function MiddleParts(root: string, name: string, path: string): seq<string> {
    CleanParts(Split(root, '/'), HasPrefix(root, "/"), []) + [name]
    + CleanParts(Split(path, '/'), HasPrefix(root, "/"), [])
  }

  /** An empty root or path is left out of a join, which makes no difference to its components. */
  lemma JoinMiddle(root: string, name: string, path: string, rooted: bool)
    requires IsPlain(name)
    ensures var p := Join(NonEmpty([root, name, path]), '/');
      && p != "" && HasPrefix(p, "/") == HasPrefix(root, "/")
      && CleanParts(Split(p, '/'), rooted, [])
         == CleanParts(Split(root, '/') + [name] + Split(path, '/'), rooted, [])
  {
    var r, m, e := Split(root, '/'), [name], Split(path, '/');
    var below := if path == "" then m else m + e;
    var tail := if path == "" then name else name + ['/'] + path;
    JoinsTo(root, name, path);
    SplitAtFirst(name, path, '/');
    assert Split("", '/') == [""] && [""][1..] == [];
    assert Split(tail, '/') == below;
    if path == "" {
      CleanConcat(r + m, e, rooted, []);
    } else {
      assert r + m + e == r + below;
    }
    if root == "" {
      assert ([""] + below)[1..] == below;
    } else {
      SplitConcat(root, tail, '/');
    }
  }

  lemma JoinsTo(root: string, name: string, path: string)
    requires name != ""
    ensures var tail := if path == "" then name else name + ['/'] + path;
      Join(NonEmpty([root, name, path]), '/') == if root == "" then tail else root + ['/'] + tail
  {
    var below := if path == "" then [name] else [name, path];
    assert [root, name, path][1..] == [name, path] && [name, path][1..] == [path] && [path][1..] == [];
    assert NonEmpty([path]) == if path == "" then [] else [path];
    assert NonEmpty([name, path]) == below;
    assert Join([path], '/') == path && Join([name], '/') == name;
    assert Join(below, '/') == if path == "" then name else name + ['/'] + path;
    assert NonEmpty([root, name, path]) == if root == "" then [] + below else [root] + below;
    assert [] + below == below && ([root] + below)[1..] == below;
  }

  lemma PathJoinMiddle(root: string, name: string, path: string)
    requires IsPlain(name) && ".." !in Split(path, '/')
    ensures PathJoin([root, name, path])
         == (if HasPrefix(root, "/") then "/" else "") + Join(MiddleParts(root, name, path), '/')
    ensures forall p :: p in MiddleParts(root, name, path) ==> '/' !in p
    ensures Join(MiddleParts(root, name, path), '/') != ""
  {
    var rooted := HasPrefix(root, "/");
    var r, e := Split(root, '/'), Split(path, '/');
    JoinMiddle(root, name, path, rooted);
    var up := CleanParts(r, rooted, []);
    CleanConcat(r + [name], e, rooted, []);
    CleanConcat(r, [name], rooted, []);
    assert CleanParts([name], rooted, up) == up + [name];
    CleanAppends(e, rooted, up + [name]);
    CleanKeepsSlashesOut(r, rooted, []);
    CleanKeepsSlashesOut(e, rooted, []);
    var parts := MiddleParts(root, name, path);
    assert name in parts;
    SplitJoin(parts, '/');
  }

  /** A plain directory name in the middle of a path can be told from the path. */
  lemma MiddleIsDetermined(root: string, a: string, b: string, path: string)
    requires IsPlain(a) && IsPlain(b) && ".." !in Split(path, '/')
    ensures PathJoin([root, a, path]) == PathJoin([root, b, path]) <==> a == b
  {
    PathJoinMiddle(root, a, path);
    PathJoinMiddle(root, b, path);
    var x, y := MiddleParts(root, a, path), MiddleParts(root, b, path);
    var prefix := if HasPrefix(root, "/") then "/" else "";
    if PathJoin([root, a, path]) == PathJoin([root, b, path]) {
      assert (prefix + Join(x, '/'))[|prefix|..] == Join(x, '/');
      assert (prefix + Join(y, '/'))[|prefix|..] == Join(y, '/');
      SplitJoin(x, '/');
      SplitJoin(y, '/');
      var k := |CleanParts(Split(root, '/'), HasPrefix(root, "/"), [])|;
      assert x[k] == a && y[k] == b;
    }
  }

  // ---------- paths without detours ----------

  predicate ArePlain(parts: seq<string>) {
    forall i | 0 <= i < |parts| :: IsPlain(parts[i])
  }

  function Absolute(parts: seq<string>): string {
    "/" + Join(parts, '/')
  }

  lemma {:induction false} CleanOfPlain(parts: seq<string>, rooted: bool, done: seq<string>)
    requires ArePlain(parts)
    ensures CleanParts(parts, rooted, done) == done + parts
    ensures CleanParts([""] + parts, rooted, done) == done + parts
    decreases |parts|
  {
    assert ([""] + parts)[1..] == parts;
    if parts == [] {
    } else {
      assert IsPlain(parts[0]);
      CleanOfPlain(parts[1..], rooted, done + [parts[0]]);
      assert done + [parts[0]] + parts[1..] == done + parts;
    }
  }

  lemma SplitAbsolute(parts: seq<string>)
    requires ArePlain(parts) && parts != []
    ensures Split(Absolute(parts), '/') == [""] + parts
  {
    SplitAtFirst("", Join(parts, '/'), '/');
    forall p | p in parts ensures '/' !in p {
      var i :| 0 <= i < |parts| && parts[i] == p;
    }
    SplitJoin(parts, '/');
    assert "" + ['/'] + Join(parts, '/') == Absolute(parts);
  }

  /** Joining paths without detours puts their components one after the other: root and cgroup under
      v2, root, hierarchy and cgroup under v1. */
  lemma JoinOfPlainPaths(root: seq<string>, name: string, path: seq<string>)
    requires ArePlain(root) && root != [] && ArePlain(path) && path != [] && IsPlain(name)
    ensures PathJoin([Absolute(root), Absolute(path)]) == Absolute(root + path)
    ensures PathJoin([Absolute(root), name, Absolute(path)]) == Absolute(root + [name] + path)
  {
    var r, e := Absolute(root), Absolute(path);
    SplitAbsolute(root);
    SplitAbsolute(path);
    CleanOfPlain(root, true, []);
    CleanOfPlain(path, true, root);
    CleanOfPlain(path, true, []);
    assert [] + root == root && [] + path == path;
    assert ".." !in Split(e, '/') by {
      assert forall i | 0 <= i < |path| :: IsPlain(path[i]);
    }
    PathJoinMiddle(r, name, e);
    SplitConcat(r, e, '/');
    CleanConcat(Split(r, '/'), Split(e, '/'), true, []);
    JoinTwo(r, e);
  }

  lemma JoinTwo(a: string, b: string)
    requires a != "" && b != ""
    ensures Join(NonEmpty([a, b]), '/') == a + ['/'] + b
  {
    assert [a, b][1..] == [b] && [b][1..] == [];
    assert NonEmpty([b]) == [b] && NonEmpty([a, b]) == [a] + [b];
  }

  /** A step up undoes the step before it, and goes nowhere from the top of a rooted path; empty
      components and "." do nothing. */
  lemma DetoursCancel(name: string, rest: seq<string>, rooted: bool, done: seq<string>)
    requires IsPlain(name)
    ensures CleanParts([name, ".."] + rest, rooted, done) == CleanParts(rest, rooted, done)
    ensures CleanParts([".."] + rest, true, []) == CleanParts(rest, true, [])
    ensures CleanParts([""] + rest, rooted, done) == CleanParts(["."] + rest, rooted, done) == CleanParts(rest, rooted, done)
  {
    assert ([name, ".."] + rest)[1..] == [".."] + rest && ([".."] + rest)[1..] == rest;
    assert ([""] + rest)[1..] == rest && (["."] + rest)[1..] == rest;
    assert (done + [name])[..|done|] == done;
  }

  /** A list that holds a controller's name is a plain directory name unless it holds a separator. */
  lemma ListsArePlain(line: string, c: Controller)
    requires Lists(line, NameOf(c)) && '/' !in ControllersOf(line)
    ensures IsPlain(ControllersOf(line))
  {
    var list := ControllersOf(line);
    assert |NameOf(c)| >= 3;
    if |list| < 3 {
      ElementsAreShorter(list, ',', NameOf(c));
    }
  }

  lemma {:induction false} ElementsAreShorter(s: string, sep: char, p: string)
    requires p in Split(s, sep)
    ensures |p| <= |s|
  {
    if s == [] {
    } else {
      var rest := Split(s[1..], sep);
      if s[0] != sep && p == [s[0]] + rest[0] {
        ElementsAreShorter(s[1..], sep, rest[0]);
      } else if p in rest {
        ElementsAreShorter(s[1..], sep, p);
      }
    }
  }

  /** For ANY /proc/self/cgroup: on the cgroup path of the first line that lists a controller, the
      last-wins table and the first-wins lookup give the same directory when the first and last
      line carry the same list - and only then, if no list holds a separator and the path does not
      lead back up. */
  lemma ResolversAgreeIff(content: string, root: string, c: Controller, names: map<string, string>,
                          first: nat, last: nat)
    requires AreDirNames(Lines(content), names, DEFAULT_V1_DIRS)
    requires IsFirstListing(Lines(content), NameOf(c), first)
    requires IsLastListing(Lines(content), NameOf(c), last)
    ensures
      var firstList, lastList := ControllersOf(Lines(content)[first]), ControllersOf(Lines(content)[last]);
      var path := ParseHierarchy(Lines(content)[first]).value.path;
      var agree := DirOf(DirsFor(V1, root, path, names), c) == ListedDir(root, Lines(content)[first]);
      && (firstList == lastList ==> agree)
      && ('/' !in firstList && '/' !in lastList && ".." !in Split(path, '/') ==> (agree ==> firstList == lastList))
  {
    KnownControllers();
    assert IsDirName(Lines(content), NameOf(c), names[NameOf(c)], DEFAULT_V1_DIRS[NameOf(c)]);
    var firstLine, lastLine := Lines(content)[first], Lines(content)[last];
    var a, b := ControllersOf(firstLine), ControllersOf(lastLine);
    var path := ParseHierarchy(firstLine).value.path;
    assert V1Name(names, c) == b;
    TableDir(root, path, c, names);
    if '/' !in a && '/' !in b && ".." !in Split(path, '/') {
      ListsArePlain(firstLine, c);
      ListsArePlain(lastLine, c);
      MiddleIsDetermined(root, a, b, path);
    }
  }

  lemma TableDir(root: string, path: string, c: Controller, names: map<string, string>)
    ensures DirOf(DirsFor(V1, root, path, names), c) == PathJoin([root, V1Name(names, c), path])
  {
  }

  /** With at most one line per controller, container discovery and the self-cgroup resolver
      give the same directory for the same cgroup path; unlisted controllers keep their default. */
  lemma ResolversAgree(content: string, root: string, c: Controller, names: map<string, string>)
    requires AreDirNames(Lines(content), names, DEFAULT_V1_DIRS)
    requires forall j, k | 0 <= j < k < |Lines(content)| ::
      !(Lists(Lines(content)[j], NameOf(c)) && Lists(Lines(content)[k], NameOf(c)))
    ensures forall i: nat | IsFirstListing(Lines(content), NameOf(c), i) ::
      DirOf(DirsFor(V1, root, ParseHierarchy(Lines(content)[i]).value.path, names), c)
        == ListedDir(root, Lines(content)[i])
    ensures Unlisted(Lines(content), NameOf(c)) ==>
      NameOf(c) in names && names[NameOf(c)] == DEFAULT_V1_DIRS[NameOf(c)]
  {
    KnownControllers();
    assert IsDirName(Lines(content), NameOf(c), names[NameOf(c)], DEFAULT_V1_DIRS[NameOf(c)]);
    forall i: nat | IsFirstListing(Lines(content), NameOf(c), i)
      ensures DirOf(DirsFor(V1, root, ParseHierarchy(Lines(content)[i]).value.path, names), c)
        == ListedDir(root, Lines(content)[i])
    {
      OnlyListing(Listing(NameOf(c)), Lines(content), i);
      SameDir(root, Lines(content)[i], c, names);
    }
  }

  lemma OnlyListing<T>(p: T -> bool, s: seq<T>, i: nat)
    requires FirstAt(p, s, i) && forall j, k | 0 <= j < k < |s| :: !(p(s[j]) && p(s[k]))
    ensures LastAt(p, s, i)
  {
  }

  lemma SameDir(root: string, line: string, c: Controller, names: map<string, string>)
    requires ParseHierarchy(line).Some? && V1Name(names, c) == ControllersOf(line)
    ensures DirOf(DirsFor(V1, root, ParseHierarchy(line).value.path, names), c) == ListedDir(root, line)
  {
    var h := ParseHierarchy(line).value;
    assert DirOf(DirsFor(V1, root, h.path, names), c) == PathJoin([root, V1Name(names, c), h.path]);
  }

  // ---------- key/value files ----------

  /** A usable line: exactly two fields, the second an unsigned number. */
  function StatEntry(line: string): Option<(string, nat)> {
    var fs := Fields(line);
    if |fs| != 2 || ParseUint(fs[1]).error != NoError then None
    else Some((fs[0], ParseUint(fs[1]).value as nat))
  }

  function StatOf(lines: seq<string>): map<string, nat> {
    if lines == [] then map[]
    else
      var m := StatOf(lines[..|lines| - 1]);
      match StatEntry(lines[|lines| - 1])
      case None => m
      case Some((k, v)) => m[k := v]
  }

  function KeyValueStat(content: string): map<string, nat> {
    StatOf(Lines(content))
  }

  method ParseKeyValueStat(content: string) returns (stats: map<string, nat>)
    ensures stats == KeyValueStat(content)
  {
    stats := map[];
    var lines := Lines(content);
    for n := 0 to |lines|
      invariant stats == StatOf(lines[..n])
    {
      assert lines[..n + 1][..n] == lines[..n];
      var fs := Fields(lines[n]);
      if |fs| != 2 {
        continue;
      }
      var v := ParseUint(fs[1]);
      if v.error != NoError {
        continue;
      }
      stats := stats[fs[0] := v.value as nat];
    }
    assert lines[..|lines|] == lines;
  }

  ghost predicate IsLastEntry(lines: seq<string>, key: string, i: nat, v: nat) {
    && i < |lines| && StatEntry(lines[i]) == Some((key, v))
    && forall j | i < j < |lines| :: StatEntry(lines[j]).None? || StatEntry(lines[j]).value.0 != key
  }

  /** A line is usable when it is a key and a number, however they are spaced, and nothing else. */
  lemma StatEntryIs(line: string, key: string, v: nat)
    requires v < TWO64
    ensures Fields(line) == [key, Format(v)] ==> StatEntry(line) == Some((key, v))
    ensures |Fields(line)| != 2 ==> StatEntry(line) == None
  {
    ParseFormat(v);
  }

  /** Each key holds the value of the last usable line for it, and only such keys are there. */
  lemma {:induction false} StatIsLastEntry(lines: seq<string>, key: string, i: nat, v: nat)
    requires IsLastEntry(lines, key, i, v)
    ensures key in StatOf(lines) && StatOf(lines)[key] == v
  {
    var n := |lines| - 1;
    if i < n {
      assert IsLastEntry(lines[..n], key, i, v);
      StatIsLastEntry(lines[..n], key, i, v);
    }
  }

  lemma {:induction false} StatHasOnlyEntries(lines: seq<string>, key: string) returns (i: nat)
    requires key in StatOf(lines)
    ensures IsLastEntry(lines, key, i, StatOf(lines)[key])
  {
    var n := |lines| - 1;
    var e := StatEntry(lines[n]);
    if e.Some? && e.value.0 == key {
      i := n;
    } else {
      i := StatHasOnlyEntries(lines[..n], key);
      assert forall j | 0 <= j < n :: lines[..n][j] == lines[j];
    }
  }

  /** A printed file of different keys gives every key its value, and has no other keys. */
  lemma StatRoundTrip(lines: seq<string>, keys: seq<string>, values: seq<nat>)
    requires |lines| == |keys| == |values|
    requires forall i | 0 <= i < |lines| :: Fields(lines[i]) == [keys[i], Format(values[i])] && values[i] < TWO64
    requires forall i, j | 0 <= i < j < |keys| :: keys[i] != keys[j]
    ensures forall i | 0 <= i < |keys| :: keys[i] in StatOf(lines) && StatOf(lines)[keys[i]] == values[i]
    ensures forall k :: k in StatOf(lines) ==> k in keys
  {
    forall i | 0 <= i < |lines| ensures StatEntry(lines[i]) == Some((keys[i], values[i])) {
      StatEntryIs(lines[i], keys[i], values[i]);
    }
    forall i | 0 <= i < |keys| ensures keys[i] in StatOf(lines) && StatOf(lines)[keys[i]] == values[i] {
      assert IsLastEntry(lines, keys[i], i, values[i]);
      StatIsLastEntry(lines, keys[i], i, values[i]);
    }
    forall k | k in StatOf(lines) ensures k in keys {
      var i := StatHasOnlyEntries(lines, k);
      assert keys[i] == k;
    }
  }
}
