/** Finding the containers on a host by walking its cgroup tree. */
module Discovery {
  import opened Outcomes
  import opened Text
  import opened Walk
  import Cgroup

  const MAX_DEPTH := 10

  /** A cgroup directory carries what reading its cgroup.procs yields: None when unreadable. */
  type Cg = Node<Option<string>>

  // ---------- recognising a container's cgroup ----------

  predicate IsHex(c: char) {
    '0' <= c <= '9' || 'a' <= c <= 'f'
  }

  predicate IsHexId(s: string) {
    |s| == 64 && forall i | 0 <= i < |s| :: IsHex(s[i])
  }

  /** What a pattern `^prefix(...)suffix$` captures. */
  function Middle(name: string, prefix: string, suffix: string): Option<string> {
    if HasPrefix(name, prefix) && HasSuffix(name, suffix) && |prefix| + |suffix| <= |name|
    then Some(name[|prefix|..|name| - |suffix|])
    else None
  }

  function HexMiddle(name: string, prefix: string, suffix: string): Option<string> {
    var m := Middle(name, prefix, suffix);
    if m.Some? && IsHexId(m.value) then m else None
  }

  /** `.+`: something, on one line. */
  function AnyMiddle(name: string, prefix: string, suffix: string): Option<string> {
    var m := Middle(name, prefix, suffix);
    if m.Some? && m.value != "" && '\n' !in m.value then m else None
  }

  /** systemd writes "-" inside a unit name component as "\x2d". */
  function UnescapeUnit(s: string): string {
    if s == "" then ""
    else if HasPrefix(s, "\\x2d") then "-" + UnescapeUnit(s[4..])
    else [s[0]] + UnescapeUnit(s[1..])
  }

  datatype Identity = Identity(id: string, runtime: string)

  function RelPath(path: seq<string>): string {
    "/" + Join(path, '/')
  }

  /** The patterns in the order they are tried; `path` lists the names below the walk root,
      which is itself never tried. */
  function Match(path: seq<string>): Option<Identity> {
    if path == [] then None else MatchName(path)
  }

  /** What the patterns find in a name. */
  datatype Found = Found(docker: Option<string>, podmanScope: Option<string>, podman: Option<string>,
                         containerd: Option<string>, crio: Option<string>, lxc: Option<string>, machine: Option<string>)

  function FoundIn(name: string): Found {
    Found(HexMiddle(name, "docker-", ".scope"), HexMiddle(name, "libpod-", ".scope"), HexMiddle(name, "libpod-", ""),
          HexMiddle(name, "cri-containerd-", ".scope"), HexMiddle(name, "crio-", ".scope"),
          AnyMiddle(name, "lxc.payload.", ""), AnyMiddle(name, "machine-", ".scope"))
  }

  /** The first that applies, in the order of the source's table. */
  function Choose(f: Found, name: string, parent: string, pods: bool): Option<Identity> {
    if f.docker.Some? then Some(Identity(f.docker.value, "docker"))
    else if parent == "docker" && IsHexId(name) then Some(Identity(name, "docker"))
    else if f.podmanScope.Some? then Some(Identity(f.podmanScope.value, "podman"))
    else if f.podman.Some? then Some(Identity(f.podman.value, "podman"))
    else if f.containerd.Some? then Some(Identity(f.containerd.value, "containerd"))
    else if f.crio.Some? then Some(Identity(f.crio.value, "cri-o"))
    else if f.lxc.Some? then Some(Identity(UnescapeUnit(f.lxc.value), "lxc"))
    else if parent == "machine.slice" && f.machine.Some? then Some(Identity(UnescapeUnit(f.machine.value), "machined"))
    else if IsHexId(name) && pods then Some(Identity(name, "kubernetes"))
    else None
  }

  function LastName(path: seq<string>): string
    requires path != []
  {
    path[|path| - 1]
  }

  function ParentName(path: seq<string>): string
    requires path != []
  {
    if |path| == 1 then "/" else path[|path| - 2]
  }

  function MatchName(path: seq<string>): Option<Identity>
    requires path != []
  {
    Choose(FoundIn(LastName(path)), LastName(path), ParentName(path), Contains(RelPath(path), "kubepods"))
  }

  lemma MiddleOf(prefix: string, id: string, suffix: string)
    ensures Middle(prefix + id + suffix, prefix, suffix) == Some(id)
  {
    var name := prefix + id + suffix;
    assert name[|name| - |suffix|..] == suffix;
    assert name[|prefix|..|name| - |suffix|] == id;
  }

  lemma MiddleIff(name: string, prefix: string, suffix: string, m: string)
    ensures Middle(name, prefix, suffix) == Some(m) <==> name == prefix + m + suffix
  {
    MiddleOf(prefix, m, suffix);
    if HasPrefix(name, prefix) && HasSuffix(name, suffix) && |prefix| + |suffix| <= |name| {
      var k := |name| - |suffix|;
      assert name == name[..|prefix|] + name[|prefix|..k] + name[k..];
    }
  }

  /** A 64-digit ID between a runtime's prefix and suffix is what `HexMiddle` finds. */
  lemma HexMiddleOf(prefix: string, id: string, suffix: string)
    requires IsHexId(id)
    ensures HexMiddle(prefix + id + suffix, prefix, suffix) == Some(id)
  {
    MiddleOf(prefix, id, suffix);
  }

  lemma OtherPrefix(name: string, prefix: string, suffix: string, k: nat)
    requires k < |prefix| && (k < |name| ==> name[k] != prefix[k])
    ensures Middle(name, prefix, suffix) == None
  {
  }

  /** A systemd scope is recognised, with its ID and its runtime, below whatever parent. */
  lemma ScopesAreRecognised(parents: seq<string>, id: string)
    requires IsHexId(id)
    ensures Match(parents + ["docker-" + id + ".scope"]) == Some(Identity(id, "docker"))
    ensures Match(parents + ["libpod-" + id + ".scope"]) == Some(Identity(id, "podman"))
    ensures Match(parents + ["cri-containerd-" + id + ".scope"]) == Some(Identity(id, "containerd"))
    ensures Match(parents + ["crio-" + id + ".scope"]) == Some(Identity(id, "cri-o"))
  {
    HexMiddleOf("docker-", id, ".scope");
    HexMiddleOf("libpod-", id, ".scope");
    HexMiddleOf("cri-containerd-", id, ".scope");
    HexMiddleOf("crio-", id, ".scope");
    var podman, containerd, crio :=
      "libpod-" + id + ".scope", "cri-containerd-" + id + ".scope", "crio-" + id + ".scope";
    assert |podman| > 64 && |containerd| > 64 && |crio| > 64;
    OtherPrefix(podman, "docker-", ".scope", 0);
    OtherPrefix(containerd, "docker-", ".scope", 0);
    OtherPrefix(containerd, "libpod-", ".scope", 0);
    OtherPrefix(containerd, "libpod-", "", 0);
    OtherPrefix(crio, "docker-", ".scope", 0);
    OtherPrefix(crio, "libpod-", ".scope", 0);
    OtherPrefix(crio, "libpod-", "", 0);
    OtherPrefix(crio, "cri-containerd-", ".scope", 3);
    LastOf(parents, "docker-" + id + ".scope");
    LastOf(parents, podman);
    LastOf(parents, containerd);
    LastOf(parents, crio);
  }

  lemma LastOf(parents: seq<string>, name: string)
    ensures (parents + [name])[|parents + [name]| - 1] == name
  {
  }

  /** Anchoring the IDs to exactly 64 digits keeps the monitor that podman runs beside a container
      from being taken for one, whatever its parent is called. */
  lemma MonitorIsNotAContainer(parents: seq<string>, id: string)
    requires IsHexId(id)
    ensures Match(parents + ["libpod-conmon-" + id + ".scope"]) == None
  {
    var name := "libpod-conmon-" + id + ".scope";
    var path := parents + [name];
    assert path[|path| - 1] == name && |name| == 84;
    assert name[0] == 'l' && name[1] == 'i' && name[7] == 'c';
    assert |HexMiddleText(name, "libpod-", ".scope")| == 71 && |HexMiddleText(name, "libpod-", "")| == 77;
  }

  /** The text between a prefix and a suffix of those lengths, whatever it is. */
  function HexMiddleText(name: string, prefix: string, suffix: string): string {
    if |prefix| + |suffix| <= |name| then name[|prefix|..|name| - |suffix|] else ""
  }

  // ---------- what is recognised, and as what ----------

  /** An escaped name between a runtime's prefix and suffix: not empty, and on one line. */
  ghost predicate IsEscapedIn(name: string, prefix: string, suffix: string, id: string) {
    exists raw :: name == prefix + raw + suffix && raw != "" && '\n' !in raw && id == UnescapeUnit(raw)
  }

  /** The naming schemes of the runtimes. */
  ghost predicate IsNamedBy(path: seq<string>, who: Identity)
    requires path != []
  {
    var name, parent, id := LastName(path), ParentName(path), who.id;
    match who.runtime
    case "docker" => IsHexId(id) && (name == "docker-" + id + ".scope" || (parent == "docker" && name == id))
    case "podman" => IsHexId(id) && (name == "libpod-" + id + ".scope" || name == "libpod-" + id)
    case "containerd" => IsHexId(id) && name == "cri-containerd-" + id + ".scope"
    case "cri-o" => IsHexId(id) && name == "crio-" + id + ".scope"
    case "lxc" => IsEscapedIn(name, "lxc.payload.", "", id)
    case "machined" => parent == "machine.slice" && IsEscapedIn(name, "machine-", ".scope", id)
    case "kubernetes" => IsHexId(id) && parent != "docker" && name == id && Contains("/" + Join(path, '/'), "kubepods")
    case _ => false
  }

  lemma HexMiddleIff(name: string, prefix: string, suffix: string, id: string)
    ensures HexMiddle(name, prefix, suffix) == Some(id) <==> name == prefix + id + suffix && IsHexId(id)
  {
    MiddleIff(name, prefix, suffix, id);
  }

  lemma AnyMiddleIff(name: string, prefix: string, suffix: string, id: string)
    ensures (AnyMiddle(name, prefix, suffix).Some? && UnescapeUnit(AnyMiddle(name, prefix, suffix).value) == id)
       <==> IsEscapedIn(name, prefix, suffix, id)
  {
    forall raw ensures Middle(name, prefix, suffix) == Some(raw) <==> name == prefix + raw + suffix {
      MiddleIff(name, prefix, suffix, raw);
    }
  }

  lemma FitsPrefix(name: string, prefix: string, suffix: string)
    ensures HexMiddle(name, prefix, suffix).Some? || AnyMiddle(name, prefix, suffix).Some? ==>
      |prefix| <= |name| && forall k | 0 <= k < |prefix| :: name[k] == prefix[k]
  {
  }

  /** The letters that tell the patterns apart. */
  lemma Letters(name: string)
    ensures var f := FoundIn(name);
      && (f.docker.Some? ==> |name| > 3 && name[0] == 'd' && name[1] == 'o')
      && (f.podmanScope.Some? || f.podman.Some? ==> |name| > 3 && name[0] == 'l' && name[1] == 'i')
      && (f.containerd.Some? ==> |name| > 3 && name[0] == 'c' && name[1] == 'r' && name[3] == '-')
      && (f.crio.Some? ==> |name| > 3 && name[0] == 'c' && name[1] == 'r' && name[3] == 'o')
      && (f.lxc.Some? ==> |name| > 3 && name[0] == 'l' && name[1] == 'x')
      && (f.machine.Some? ==> |name| > 3 && name[0] == 'm')
      && (f.podmanScope.Some? ==> |name| == 77) && (f.podman.Some? ==> |name| == 71)
  {
    FitsPrefix(name, "docker-", ".scope");
    FitsPrefix(name, "libpod-", ".scope");
    FitsPrefix(name, "libpod-", "");
    FitsPrefix(name, "cri-containerd-", ".scope");
    FitsPrefix(name, "crio-", ".scope");
    FitsPrefix(name, "lxc.payload.", "");
    FitsPrefix(name, "machine-", ".scope");
  }

  predicate AtMostOne(f: Found, hex: bool) {
    && (f.docker.Some? ==> f == Found(f.docker, None, None, None, None, None, None))
    && (f.podmanScope.Some? ==> f == Found(None, f.podmanScope, None, None, None, None, None))
    && (f.podman.Some? ==> f == Found(None, None, f.podman, None, None, None, None))
    && (f.containerd.Some? ==> f == Found(None, None, None, f.containerd, None, None, None))
    && (f.crio.Some? ==> f == Found(None, None, None, None, f.crio, None, None))
    && (f.lxc.Some? ==> f == Found(None, None, None, None, None, f.lxc, None))
    && (f.machine.Some? ==> f == Found(None, None, None, None, None, None, f.machine))
    && (hex ==> f == Found(None, None, None, None, None, None, None))
  }

  /** A name that fits one pattern fits no other, so the order they are tried in does not matter. */
  lemma OnePatternFits(name: string)
    ensures AtMostOne(FoundIn(name), IsHexId(name))
  {
    Letters(name);
    if IsHexId(name) {
      assert IsHex(name[0]) && IsHex(name[1]);
    }
  }

  predicate IsUnescaped(found: Option<string>, id: string) {
    found.Some? && UnescapeUnit(found.value) == id
  }

  /** Whose a name is when no two patterns fit it. */
  lemma ChooseIff(f: Found, name: string, parent: string, pods: bool, who: Identity)
    requires AtMostOne(f, IsHexId(name))
    ensures Choose(f, name, parent, pods) == Some(who) <==>
      match who.runtime
      case "docker" => f.docker == Some(who.id) || (parent == "docker" && IsHexId(name) && name == who.id)
      case "podman" => f.podmanScope == Some(who.id) || f.podman == Some(who.id)
      case "containerd" => f.containerd == Some(who.id)
      case "cri-o" => f.crio == Some(who.id)
      case "lxc" => IsUnescaped(f.lxc, who.id)
      case "machined" => parent == "machine.slice" && IsUnescaped(f.machine, who.id)
      case "kubernetes" => IsHexId(name) && parent != "docker" && name == who.id && pods
      case _ => false
  {
  }

  /** A cgroup is taken for a container exactly when one of the runtimes names it, and then as that
      runtime's, under the ID in the name. */
  lemma MatchIff(path: seq<string>, who: Identity)
    requires path != []
    ensures Match(path) == Some(who) <==> IsNamedBy(path, who)
  {
    var name, id := LastName(path), who.id;
    OnePatternFits(name);
    ChooseIff(FoundIn(name), name, ParentName(path), Contains(RelPath(path), "kubepods"), who);
    HexMiddleIff(name, "docker-", ".scope", id);
    HexMiddleIff(name, "libpod-", ".scope", id);
    HexMiddleIff(name, "libpod-", "", id);
    HexMiddleIff(name, "cri-containerd-", ".scope", id);
    HexMiddleIff(name, "crio-", ".scope", id);
    AnyMiddleIff(name, "lxc.payload.", "", id);
    AnyMiddleIff(name, "machine-", ".scope", id);
    assert "libpod-" + id + "" == "libpod-" + id;
  }

  /** systemd's escape for the one character at issue. */
  function EscapeUnit(s: string): string {
    if s == "" then "" else (if s[0] == '-' then "\\x2d" else [s[0]]) + EscapeUnit(s[1..])
  }

  /** A name survives systemd's escaping of its dashes exactly when it does not spell the escape
      itself; a backslash does no harm. */
  lemma {:induction false} UnitNameRoundTrip(s: string)
    ensures UnescapeUnit(EscapeUnit(s)) == s <==> !Contains(s, "\\x2d")
  {
    if s == "" {
    } else {
      var rest := EscapeUnit(s[1..]);
      UnitNameRoundTrip(s[1..]);
      assert s == [s[0]] + s[1..];
      if s[0] == '-' {
        assert EscapeUnit(s) == "\\x2d" + rest;
        assert ("\\x2d" + rest)[..4] == "\\x2d" && ("\\x2d" + rest)[4..] == rest;
        OneLonger('-', UnescapeUnit(rest), s);
      } else {
        assert ([s[0]] + rest)[1..] == rest;
        EscapeAppears(s);
        if HasPrefix(s, "\\x2d") {
          assert UnescapeUnit(EscapeUnit(s))[0] == '-';
        } else {
          OneLonger(s[0], UnescapeUnit(rest), s);
        }
      }
    }
  }

  lemma OneLonger(c: char, t: string, s: string)
    requires s != "" && s[0] == c
    ensures [c] + t == s <==> t == s[1..]
  {
    assert s == [s[0]] + s[1..];
    assert ([c] + t)[1..] == t;
  }

  /** Escaping dashes does not make an escape out of what was none. */
  lemma EscapeAppears(s: string)
    requires s != "" && s[0] != '-'
    ensures HasPrefix(EscapeUnit(s), "\\x2d") <==> HasPrefix(s, "\\x2d")
  {
    var rest := EscapeUnit(s[1..]);
    EscapePrefix(s[1..], "x2d");
    assert EscapeUnit(s) == [s[0]] + rest;
    PrefixStep('\\', "x2d", [s[0]] + rest);
    PrefixStep('\\', "x2d", s);
    assert ['\\'] + "x2d" == "\\x2d" && ([s[0]] + rest)[1..] == rest;
  }

  lemma PrefixStep(c: char, p: string, s: string)
    ensures HasPrefix(s, [c] + p) <==> s != "" && s[0] == c && HasPrefix(s[1..], p)
  {
    if s != "" && s[0] == c && HasPrefix(s[1..], p) {
      assert s == [c] + s[1..];
    }
    if HasPrefix(s, [c] + p) {
      assert s[..|p| + 1] == [c] + p;
      assert s[1..][..|p|] == s[..|p| + 1][1..];
    }
  }

  lemma {:induction false} EscapePrefix(s: string, p: string)
    requires '-' !in p && '\\' !in p
    ensures HasPrefix(EscapeUnit(s), p) <==> HasPrefix(s, p)
  {
    if p == "" || s == "" {
    } else {
      var e := EscapeUnit(s);
      assert p == [p[0]] + p[1..];
      PrefixStep(p[0], p[1..], s);
      PrefixStep(p[0], p[1..], e);
      if s[0] == '-' {
        assert e[0] == '\\' && p[0] != '\\' && p[0] != '-';
      } else {
        assert e == [s[0]] + EscapeUnit(s[1..]) && e[1..] == EscapeUnit(s[1..]);
        EscapePrefix(s[1..], p[1..]);
      }
    }
  }

  // ---------- the first process of a subtree ----------

  /** The pid a cgroup.procs line holds, 0 when it holds none. */
  function LinePid(line: string): nat {
    var n := ParseInt(TrimSpace(line));
    if n.error == NoError && n.value > 0 then n.value else 0
  }

  function FirstPositive(pids: seq<nat>): nat {
    if pids == [] then 0 else if pids[0] > 0 then pids[0] else FirstPositive(pids[1..])
  }

  function LinePids(lines: seq<string>): (pids: seq<nat>)
    ensures |pids| == |lines|
  {
    seq(|lines|, i requires 0 <= i < |lines| => LinePid(lines[i]))
  }

  /** The first positive pid of a cgroup.procs file, 0 when there is none. */
  function FirstPid(procs: Option<string>): nat {
    if procs.None? then 0 else FirstPositive(LinePids(Lines(procs.value)))
  }

  /** Line `i` of the file holds a positive number, and no line before it does. */
  ghost predicate IsFirstPidLine(lines: seq<string>, i: nat, pid: int) {
    && i < |lines| && pid > 0 && ParseInt(TrimSpace(lines[i])) == Number(pid, NoError)
    && forall j | 0 <= j < i ::
         ParseInt(TrimSpace(lines[j])).error != NoError || ParseInt(TrimSpace(lines[j])).value <= 0
  }

  lemma FirstPidLineStep(lines: seq<string>, i: nat, p: int)
    requires lines != [] && LinePid(lines[0]) == 0
    ensures IsFirstPidLine(lines, i, p) <==> i > 0 && IsFirstPidLine(lines[1..], i - 1, p)
  {
    assert forall j | 0 < j < |lines| :: lines[j] == lines[1..][j - 1];
    if i > 0 && i < |lines| {
      assert lines[1..][i - 1] == lines[i];
      assert forall j | 0 <= j < i - 1 :: lines[1..][j] == lines[j + 1];
    }
  }

  lemma {:induction false} FirstPositiveIs(lines: seq<string>)
    ensures var pid := FirstPositive(LinePids(lines));
      if pid == 0 then forall i: nat, p: int :: !IsFirstPidLine(lines, i, p)
      else exists i: nat :: IsFirstPidLine(lines, i, pid)
  {
    if lines == [] {
    } else {
      var pid := FirstPositive(LinePids(lines));
      assert LinePids(lines)[1..] == LinePids(lines[1..]);
      if LinePid(lines[0]) > 0 {
        assert IsFirstPidLine(lines, 0, pid);
      } else {
        FirstPositiveIs(lines[1..]);
        forall i: nat, p: int ensures IsFirstPidLine(lines, i, p) <==> i > 0 && IsFirstPidLine(lines[1..], i - 1, p) {
          FirstPidLineStep(lines, i, p);
        }
        if pid != 0 {
          var i: nat :| IsFirstPidLine(lines[1..], i, pid);
          assert IsFirstPidLine(lines, i + 1, pid);
        }
      }
    }
  }

  /** Reports the number on the first line that holds a positive one. */
  method ReadFirstPid(procs: Option<string>) returns (pid: nat, ok: bool)
    ensures pid == FirstPid(procs) && (ok <==> pid != 0)
    ensures ok ==> procs.Some? && exists i: nat :: IsFirstPidLine(Lines(procs.value), i, pid)
    ensures !ok && procs.Some? ==> forall i: nat, p: int :: !IsFirstPidLine(Lines(procs.value), i, p)
  {
    if procs.Some? {
      FirstPositiveIs(Lines(procs.value));
    }
    if procs.None? {
      return 0, false;
    }
    var lines := Lines(procs.value);
    for n := 0 to |lines|
      invariant FirstPid(procs) == FirstPositive(LinePids(lines)[n..])
    {
      var p := ParseInt(TrimSpace(lines[n]));
      if p.error == NoError && p.value > 0 {
        return p.value, true;
      }
      assert LinePids(lines)[n..][1..] == LinePids(lines)[n + 1..];
    }
    return 0, false;
  }

  /** The callback of `firstPidInSubtree`; the captured variable is the pid found so far. */
  function PidVisit(pid: nat, visit: Visit<Option<string>>): Walked<nat> {
    if visit.failed || pid != 0 || visit.entry.None? then Walked(pid, SkipDir)
    else if visit.entry.value.Leaf? then Walked(pid, Continue)
    else
      var first := FirstPid(visit.entry.value.meta);
      if first != 0 then Walked(first, SkipDir) else Walked(pid, Continue)
  }

  /** In preorder, each directory's first pid (0 for none), as far as directories can be listed. */
  function Pids(node: Cg): seq<nat>
    decreases node, 1
  {
    if node.Leaf? then []
    else [FirstPid(node.meta)] + (if node.listed then PidsIn(node.children) else [])
  }

  function PidsIn(cs: seq<Cg>): seq<nat>
    decreases cs, 0
  {
    if cs == [] then [] else Pids(cs[0]) + PidsIn(cs[1..])
  }

  function PidOf(node: Cg): nat {
    FirstPositive(Pids(node))
  }

  lemma {:induction false} FirstPositiveConcat(a: seq<nat>, b: seq<nat>)
    ensures FirstPositive(a + b) == if FirstPositive(a) != 0 then FirstPositive(a) else FirstPositive(b)
  {
    if a == [] {
      assert a + b == b;
    } else {
      FirstPositiveConcat(a[1..], b);
      assert (a + b)[1..] == a[1..] + b;
    }
  }

  /** The walk yields the first positive pid in preorder; a pid once found is never replaced,
      whatever else the walk still visits. */
  lemma {:induction false} WalkFindsPid(pid: nat, path: seq<string>, node: Cg)
    ensures WalkNode(PidVisit, pid, path, node).state == if pid != 0 then pid else PidOf(node)
    ensures WalkNode(PidVisit, pid, path, node).verdict == Continue
         || (pid != 0 && node.Leaf? && WalkNode(PidVisit, pid, path, node).verdict == SkipDir)
    decreases node, 1
  {
    if node.Dir? && pid == 0 && FirstPid(node.meta) == 0 {
      assert Pids(node) == [0] + (if node.listed then PidsIn(node.children) else []);
      FirstPositiveConcat([0], if node.listed then PidsIn(node.children) else []);
      if node.listed {
        WalkFindsPidIn(0, path, node.children);
      }
    }
  }

  lemma {:induction false} WalkFindsPidIn(pid: nat, path: seq<string>, cs: seq<Cg>)
    ensures WalkChildren(PidVisit, pid, path, cs).state
         == if pid != 0 then pid else FirstPositive(PidsIn(cs))
    ensures WalkChildren(PidVisit, pid, path, cs).verdict == Continue
    decreases cs, 0
  {
    if cs == [] {
    } else {
      WalkFindsPid(pid, path + [cs[0].name], cs[0]);
      var w := WalkNode(PidVisit, pid, path + [cs[0].name], cs[0]);
      FirstPositiveConcat(Pids(cs[0]), PidsIn(cs[1..]));
      if w.verdict == Continue {
        WalkFindsPidIn(w.state, path, cs[1..]);
      }
    }
  }

  method FirstPidInSubtree(node: Cg) returns (pid: nat, ok: bool)
    ensures pid == PidOf(node) && (ok <==> pid != 0)
  {
    var walker := new Walker(PidVisit, 0);
    var _ := walker.Run(Some(node));
    WalkFindsPid(0, [], node);
    return walker.state, walker.state != 0;
  }

  // ---------- what a process-free subtree means ----------

  /** Every directory above the address, and below or at the node, could be listed. */
  ghost predicate Visible(node: Cg, a: Address)
    requires Exists(node, a)
  {
    a == [] || (node.listed && Visible(node.children[a[0]], a[1..]))
  }

  ghost predicate HoldsPid(node: Cg, a: Address, pid: nat) {
    Exists(node, a) && Visible(node, a) && At(node, a).Dir? && FirstPid(At(node, a).meta) == pid
  }

  lemma {:induction false} ChildPidCounts(cs: seq<Cg>, i: nat)
    requires i < |cs| && PidOf(cs[i]) != 0
    ensures FirstPositive(PidsIn(cs)) != 0
  {
    FirstPositiveConcat(Pids(cs[0]), PidsIn(cs[1..]));
    if i == 0 {
    } else {
      ChildPidCounts(cs[1..], i - 1);
    }
  }

  lemma {:induction false} PidSomewhereCounts(node: Cg, a: Address, pid: nat)
    requires HoldsPid(node, a, pid) && pid != 0
    ensures PidOf(node) != 0
  {
    if a == [] {
    } else {
      PidSomewhereCounts(node.children[a[0]], a[1..], pid);
      ChildPidCounts(node.children, a[0]);
      FirstPositiveConcat([FirstPid(node.meta)], PidsIn(node.children));
    }
  }

  /** The pid found is that of the first directory in preorder that has one. */
  lemma {:induction false} PidIsFirst(node: Cg) returns (a: Address)
    requires PidOf(node) != 0
    ensures HoldsPid(node, a, PidOf(node))
    ensures forall b, pid: nat | HoldsPid(node, b, pid) && Before(b, a) :: pid == 0
    decreases node, 1
  {
    if FirstPid(node.meta) != 0 {
      a := [];
    } else {
      FirstPositiveConcat([0], if node.listed then PidsIn(node.children) else []);
      var i, below := PidIsInChild(node.children);
      a := [i] + below;
      forall b, pid: nat | HoldsPid(node, b, pid) && Before(b, a) ensures pid == 0 {
        if b != [] {
          assert HoldsPid(node.children[b[0]], b[1..], pid);
          if b[0] < i && pid != 0 {
            PidSomewhereCounts(node.children[b[0]], b[1..], pid);
          }
        }
      }
    }
  }

  lemma {:induction false} PidIsInChild(cs: seq<Cg>) returns (i: nat, a: Address)
    requires FirstPositive(PidsIn(cs)) != 0
    ensures i < |cs| && HoldsPid(cs[i], a, FirstPositive(PidsIn(cs)))
    ensures forall j | 0 <= j < i :: PidOf(cs[j]) == 0
    ensures forall b, pid: nat | HoldsPid(cs[i], b, pid) && Before(b, a) :: pid == 0
    decreases cs, 0
  {
    FirstPositiveConcat(Pids(cs[0]), PidsIn(cs[1..]));
    if PidOf(cs[0]) != 0 {
      i := 0;
      a := PidIsFirst(cs[0]);
    } else {
      i, a := PidIsInChild(cs[1..]);
      i := i + 1;
    }
  }

  /** A subtree is reported free of processes exactly when no directory in its readable part
      holds a pid. */
  lemma PidFoundIff(node: Cg)
    ensures PidOf(node) != 0 <==> exists a, pid: nat :: pid != 0 && HoldsPid(node, a, pid)
  {
    if PidOf(node) != 0 {
      var a := PidIsFirst(node);
    }
    forall a, pid: nat | pid != 0 && HoldsPid(node, a, pid) ensures PidOf(node) != 0 {
      PidSomewhereCounts(node, a, pid);
    }
  }

  // ---------- discovery ----------

  /** Says of a path whether it looks like a container's cgroup: `Match`, at work. */
  type Recogniser = seq<string> -> bool

  /** The callback of `discoverContainers`; the captured variable is the list found so far, and
      `mk` builds the entry for a directory. */
  function DiscoverVisit<R>(rec: Recogniser, mk: (seq<string>, Cg) -> R, refs: seq<R>,
                            visit: Visit<Option<string>>): Walked<seq<R>> {
    if visit.failed then
      Walked(refs, if visit.entry.Some? && visit.entry.value.Dir? && visit.path != [] then SkipDir else Continue)
    else if visit.entry.None? || visit.entry.value.Leaf? || visit.path == [] then Walked(refs, Continue)
    else if Count(RelPath(visit.path), '/') > MAX_DEPTH then Walked(refs, SkipDir)
    else if !rec(visit.path) then Walked(refs, Continue)
    else
      var node := visit.entry.value;
      Walked(if PidOf(node) != 0 then refs + [mk(visit.path, node)] else refs, SkipDir)
  }

  function Discover<R>(rec: Recogniser, mk: (seq<string>, Cg) -> R): Callback<seq<R>, Option<string>> {
    (refs, visit) => DiscoverVisit(rec, mk, refs, visit)
  }

  /** Names a file system can hold. */
  predicate Named(node: Cg) {
    '/' !in node.name && (node.Dir? ==> forall c :: c in node.children ==> Named(c))
  }

  predicate ProperNames(path: seq<string>) {
    forall n :: n in path ==> '/' !in n
  }

  lemma {:induction false} SlashesAreDepth(path: seq<string>)
    requires path != [] && ProperNames(path)
    ensures Count(RelPath(path), '/') == |path|
  {
    assert path[0] in path;
    CountAbsent(path[0], '/');
    if |path| > 1 {
      SlashesAreDepth(path[1..]);
      CountConcat(path[0], "/" + Join(path[1..], '/'), '/');
      assert RelPath(path) == "/" + (path[0] + ("/" + Join(path[1..], '/')));
    }
    assert RelPath(path)[1..] == Join(path, '/');
  }

  /** A directory reported as a container; the address is relative to where one looks from. */
  datatype Site = Site(address: Address, path: seq<string>, node: Cg)

  /** The containers in the subtree of the node at `path`, in the order the walk meets them. */
  function Sites(rec: Recogniser, path: seq<string>, node: Cg): seq<Site>
    decreases node, 1
  {
    if node.Leaf? || |path| > MAX_DEPTH then []
    else if rec(path) then (if PidOf(node) != 0 then [Site([], path, node)] else [])
    else if !node.listed then []
    else SitesIn(rec, path, node.children, 0)
  }

  function SitesIn(rec: Recogniser, path: seq<string>, cs: seq<Cg>, start: nat): seq<Site>
    decreases cs, 0
  {
    if cs == [] then []
    else Under(start, Sites(rec, path + [cs[0].name], cs[0])) + SitesIn(rec, path, cs[1..], start + 1)
  }

  function Under(i: nat, sites: seq<Site>): (r: seq<Site>)
    ensures |r| == |sites|
  {
    seq(|sites|, k requires 0 <= k < |sites| => sites[k].(address := [i] + sites[k].address))
  }

  function Entries<R>(mk: (seq<string>, Cg) -> R, sites: seq<Site>): (es: seq<R>)
    ensures |es| == |sites|
  {
    seq(|sites|, k requires 0 <= k < |sites| => mk(sites[k].path, sites[k].node))
  }

  lemma EntriesConcat<R>(mk: (seq<string>, Cg) -> R, i: nat, a: seq<Site>, b: seq<Site>)
    ensures Entries(mk, Under(i, a) + b) == Entries(mk, a) + Entries(mk, b)
  {
  }

  /** Below the root, the walk appends the containers of each subtree and goes on: neither a
      match nor a directory that cannot be listed hides anything outside itself. */
  lemma {:induction false} WalkDiscovers<R>(rec: Recogniser, mk: (seq<string>, Cg) -> R, refs: seq<R>,
                                            path: seq<string>, node: Cg)
    requires path != [] && ProperNames(path) && Named(node)
    ensures WalkNode(Discover(rec, mk), refs, path, node)
         == Walked(refs + Entries(mk, Sites(rec, path, node)), Continue)
    decreases node, 1
  {
    SlashesAreDepth(path);
    assert refs + [] == refs;
    if node.Dir? && |path| <= MAX_DEPTH {
      if rec(path) {
        assert PidOf(node) != 0 ==> Entries(mk, Sites(rec, path, node)) == [mk(path, node)];
      } else if node.listed {
        WalkDiscoversIn(rec, mk, refs, path, node.children, 0);
      }
    }
  }

  lemma EntriesStep<R>(rec: Recogniser, mk: (seq<string>, Cg) -> R, path: seq<string>, cs: seq<Cg>, start: nat)
    requires cs != []
    ensures Entries(mk, SitesIn(rec, path, cs, start))
         == Entries(mk, Sites(rec, path + [cs[0].name], cs[0])) + Entries(mk, SitesIn(rec, path, cs[1..], start + 1))
  {
    EntriesConcat(mk, start, Sites(rec, path + [cs[0].name], cs[0]), SitesIn(rec, path, cs[1..], start + 1));
  }

  lemma {:induction false} WalkDiscoversIn<R>(rec: Recogniser, mk: (seq<string>, Cg) -> R, refs: seq<R>,
                                              path: seq<string>, cs: seq<Cg>, start: nat)
    requires ProperNames(path) && forall c :: c in cs ==> Named(c)
    ensures WalkChildren(Discover(rec, mk), refs, path, cs)
         == Walked(refs + Entries(mk, SitesIn(rec, path, cs, start)), Continue)
    decreases cs, 0
  {
    if cs == [] {
      assert refs + [] == refs;
    } else {
      assert Named(cs[0]) && forall c :: c in cs[1..] ==> Named(c);
      var p0 := path + [cs[0].name];
      var first := Entries(mk, Sites(rec, p0, cs[0]));
      var rest := Entries(mk, SitesIn(rec, path, cs[1..], start + 1));
      WalkDiscovers(rec, mk, refs, p0, cs[0]);
      WalkOneChild(Discover(rec, mk), refs, refs + first, path, cs);
      WalkDiscoversIn(rec, mk, refs + first, path, cs[1..], start + 1);
      EntriesStep(rec, mk, path, cs, start);
      assert refs + first + rest == refs + (first + rest);
    }
  }

  // ---------- which directories those are ----------

  /** A path the walk passes through: neither too deep nor a match. */
  ghost predicate Passable(rec: Recogniser, root: Cg, path: seq<string>, a: Address) {
    !rec(path) && Exists(root, a) && At(root, a).Dir? && At(root, a).listed
  }

  /** A directory one to ten levels below the root that looks like a container, has a process
      in its subtree, and lies below no match and below no unlistable directory but the root. */
  ghost predicate IsContainer(rec: Recogniser, root: Cg, a: Address) {
    && 0 < |a| <= 10 && Exists(root, a) && At(root, a).Dir?
    && rec(NamesTo(root, a)) && PidOf(At(root, a)) != 0
    && forall k | 0 < k < |a| :: Passable(rec, root, NamesTo(root, a)[..k], a[..k])
  }

  ghost predicate InOrder(sites: seq<Site>) {
    forall i, j | 0 <= i < j < |sites| :: Before(sites[i].address, sites[j].address)
  }

  /** `IsContainer`, seen from a node at `path` below the root. */
  ghost predicate Qualifies(rec: Recogniser, path: seq<string>, node: Cg, a: Address)
    decreases |a|
  {
    && node.Dir? && |path| <= MAX_DEPTH
    && if a == [] then rec(path) && PidOf(node) != 0
       else !rec(path) && node.listed && QualifiesBelow(rec, path, node, a)
  }

  ghost predicate QualifiesBelow(rec: Recogniser, path: seq<string>, node: Cg, a: Address)
    requires a != []
    decreases |a|, 0
  {
    && node.Dir? && a[0] < |node.children|
    && Qualifies(rec, path + [node.children[a[0]].name], node.children[a[0]], a[1..])
  }

  /** The site is where its address leads. */
  ghost predicate IsAt(path: seq<string>, node: Cg, site: Site) {
    && Exists(node, site.address) && At(node, site.address) == site.node
    && path + NamesTo(node, site.address) == site.path
  }

  lemma IsAtFromChild(path: seq<string>, node: Cg, i: nat, site: Site)
    requires node.Dir? && i < |node.children|
    requires IsAt(path + [node.children[i].name], node.children[i], site)
    ensures IsAt(path, node, site.(address := [i] + site.address))
  {
    var a := [i] + site.address;
    assert a[1..] == site.address;
    assert path + NamesTo(node, a) == path + [node.children[i].name] + NamesTo(node.children[i], a[1..]);
  }

  ghost predicate Placed(path: seq<string>, node: Cg, sites: seq<Site>) {
    InOrder(sites) && forall k | 0 <= k < |sites| :: IsAt(path, node, sites[k])
  }

  /** The sites below children number `start` and on. */
  ghost predicate PlacedFrom(path: seq<string>, node: Cg, sites: seq<Site>, start: nat) {
    && Placed(path, node, sites)
    && forall k | 0 <= k < |sites| :: sites[k].address != [] && sites[k].address[0] >= start
  }

  lemma PlacedUnder(path: seq<string>, node: Cg, i: nat, sites: seq<Site>)
    requires node.Dir? && i < |node.children|
    requires Placed(path + [node.children[i].name], node.children[i], sites)
    ensures PlacedFrom(path, node, Under(i, sites), i)
    ensures forall k | 0 <= k < |sites| :: Under(i, sites)[k].address[0] == i
  {
    forall k | 0 <= k < |sites| ensures IsAt(path, node, Under(i, sites)[k]) {
      IsAtFromChild(path, node, i, sites[k]);
    }
    forall j, k | 0 <= j < k < |sites| ensures Before(Under(i, sites)[j].address, Under(i, sites)[k].address) {
      assert Under(i, sites)[j].address[1..] == sites[j].address;
      assert Under(i, sites)[k].address[1..] == sites[k].address;
    }
  }

  lemma PlacedConcat(path: seq<string>, node: Cg, i: nat, a: seq<Site>, b: seq<Site>)
    requires PlacedFrom(path, node, a, i) && PlacedFrom(path, node, b, i + 1)
    requires forall k | 0 <= k < |a| :: a[k].address[0] == i
    ensures PlacedFrom(path, node, a + b, i)
  {
  }

  lemma {:induction false} SitesArePlaced(rec: Recogniser, path: seq<string>, node: Cg)
    ensures Placed(path, node, Sites(rec, path, node))
    decreases node, 1
  {
    if node.Dir? && |path| <= MAX_DEPTH {
      if rec(path) {
        assert path + NamesTo(node, []) == path;
      } else if node.listed {
        SiblingSitesArePlaced(rec, path, node, 0);
        assert node.children[0..] == node.children;
      }
    }
  }

  lemma {:induction false} SiblingSitesArePlaced(rec: Recogniser, path: seq<string>, node: Cg, start: nat)
    requires node.Dir? && start <= |node.children|
    ensures PlacedFrom(path, node, SitesIn(rec, path, node.children[start..], start), start)
    decreases node, 0, |node.children| - start
  {
    var cs := node.children[start..];
    if cs == [] {
    } else {
      var p0 := path + [cs[0].name];
      assert cs[0] == node.children[start] && cs[1..] == node.children[start + 1..];
      SitesArePlaced(rec, p0, cs[0]);
      SiblingSitesArePlaced(rec, path, node, start + 1);
      PlacedUnder(path, node, start, Sites(rec, p0, cs[0]));
      PlacedConcat(path, node, start, Under(start, Sites(rec, p0, cs[0])), SitesIn(rec, path, cs[1..], start + 1));
    }
  }

  /** The address is that of a listed site. */
  ghost predicate Reported(sites: seq<Site>, a: Address) {
    exists k :: 0 <= k < |sites| && sites[k].address == a
  }

  lemma ReportedConcat(x: seq<Site>, y: seq<Site>, a: Address)
    ensures Reported(x + y, a) <==> Reported(x, a) || Reported(y, a)
  {
    if Reported(x, a) {
      var k :| 0 <= k < |x| && x[k].address == a;
      assert (x + y)[k].address == a;
    }
    if Reported(y, a) {
      var k :| 0 <= k < |y| && y[k].address == a;
      assert (x + y)[|x| + k].address == a;
    }
  }

  lemma ReportedUnder(i: nat, sites: seq<Site>, a: Address)
    ensures Reported(Under(i, sites), a) <==> a != [] && a[0] == i && Reported(sites, a[1..])
  {
    if Reported(Under(i, sites), a) {
      var k :| 0 <= k < |sites| && Under(i, sites)[k].address == a;
      assert sites[k].address == a[1..];
    }
    if a != [] && a[0] == i && Reported(sites, a[1..]) {
      var k :| 0 <= k < |sites| && sites[k].address == a[1..];
      assert Under(i, sites)[k].address == [i] + a[1..] == a;
    }
  }

  lemma {:induction false} ReportedSibling(rec: Recogniser, path: seq<string>, cs: seq<Cg>, start: nat, a: Address)
    ensures Reported(SitesIn(rec, path, cs, start), a) <==>
      a != [] && start <= a[0] < start + |cs|
      && Reported(Sites(rec, path + [cs[a[0] - start].name], cs[a[0] - start]), a[1..])
  {
    if cs == [] {
    } else {
      var mine := Sites(rec, path + [cs[0].name], cs[0]);
      ReportedUnder(start, mine, a);
      ReportedSibling(rec, path, cs[1..], start + 1, a);
      ReportedConcat(Under(start, mine), SitesIn(rec, path, cs[1..], start + 1), a);
    }
  }

  lemma {:induction false} ReportedIff(rec: Recogniser, path: seq<string>, node: Cg, a: Address)
    ensures Reported(Sites(rec, path, node), a) <==> Qualifies(rec, path, node, a)
    decreases |a|
  {
    if node.Dir? && |path| <= MAX_DEPTH {
      if rec(path) {
        if PidOf(node) != 0 && a == [] {
          assert Sites(rec, path, node)[0].address == a;
        }
      } else if node.listed {
        ReportedSibling(rec, path, node.children, 0, a);
        if a != [] && a[0] < |node.children| {
          ReportedIff(rec, path + [node.children[a[0]].name], node.children[a[0]], a[1..]);
        }
      }
    }
  }

  /** What `IsContainer` asks below a node at `path`, written out for the whole address. */
  ghost predicate Reachable(rec: Recogniser, path: seq<string>, node: Cg, a: Address, lo: nat) {
    && Exists(node, a) && At(node, a).Dir? && |path| + |a| <= MAX_DEPTH
    && rec(path + NamesTo(node, a)) && PidOf(At(node, a)) != 0
    && forall k | lo <= k < |a| :: Passable(rec, node, path + NamesTo(node, a)[..k], a[..k])
  }

  lemma PassableFromChild(rec: Recogniser, path: seq<string>, node: Cg, a: Address, k: nat)
    requires Exists(node, a) && 0 < k <= |a|
    ensures var c := node.children[a[0]];
      path + NamesTo(node, a)[..k] == path + [c.name] + NamesTo(c, a[1..])[..k - 1]
    ensures var c := node.children[a[0]];
      Exists(node, a[..k]) && Exists(c, a[1..][..k - 1]) && At(node, a[..k]) == At(c, a[1..][..k - 1])
  {
    PrefixesExist(node, a, k);
    PrefixesExist(node.children[a[0]], a[1..], k - 1);
    assert a[..k][1..] == a[1..][..k - 1];
  }

  lemma {:induction false} QualifiesIffReachable(rec: Recogniser, path: seq<string>, node: Cg, a: Address)
    ensures Qualifies(rec, path, node, a) <==> Reachable(rec, path, node, a, 0)
    decreases |a|
  {
    if a == [] {
      assert path + NamesTo(node, a) == path;
    } else if node.Dir? && a[0] < |node.children| {
      BelowIffReachable(rec, path, node, a);
      assert path + [] == path && a[..0] == [];
    }
  }

  lemma {:induction false} BelowIffReachable(rec: Recogniser, path: seq<string>, node: Cg, a: Address)
    requires a != []
    ensures QualifiesBelow(rec, path, node, a) <==> Reachable(rec, path, node, a, 1)
    decreases |a|, 0
  {
    if node.Dir? && a[0] < |node.children| {
      var c := node.children[a[0]];
      var below, p0 := a[1..], path + [c.name];
      QualifiesIffReachable(rec, p0, c, below);
      if Exists(node, a) {
        PassableFromChild(rec, path, node, a, |a|);
        assert NamesTo(node, a)[..|a|] == NamesTo(node, a) && NamesTo(c, below)[..|a| - 1] == NamesTo(c, below);
        forall k | 0 < k < |a|
          ensures Passable(rec, node, path + NamesTo(node, a)[..k], a[..k])
             <==> Passable(rec, c, p0 + NamesTo(c, below)[..k - 1], below[..k - 1])
        {
          PassableFromChild(rec, path, node, a, k);
        }
        if Reachable(rec, path, node, a, 1) {
          forall k | 0 <= k < |below|
            ensures Passable(rec, c, p0 + NamesTo(c, below)[..k], below[..k])
          {
            assert Passable(rec, node, path + NamesTo(node, a)[..k + 1], a[..k + 1]);
          }
        }
      }
    }
  }

  /** Every container of the tree, once, in preorder; entry by entry what its directory gives. */
  ghost predicate IsDiscovery<R>(rec: Recogniser, mk: (seq<string>, Cg) -> R, root: Cg,
                                 entries: seq<R>, sites: seq<Site>) {
    && entries == Entries(mk, sites) && Placed([], root, sites)
    && (forall j, k | 0 <= j < k < |sites| :: sites[j].address != sites[k].address)
    && forall a :: Reported(sites, a) <==> IsContainer(rec, root, a)
  }

  lemma InOrderIsOnce(sites: seq<Site>)
    requires InOrder(sites)
    ensures forall j, k | 0 <= j < k < |sites| :: sites[j].address != sites[k].address
  {
    forall j, k | 0 <= j < k < |sites| ensures sites[j].address != sites[k].address {
      BeforeIsStrictOrder(sites[j].address, sites[k].address, sites[k].address);
    }
  }

  lemma RootDiscovery<R>(rec: Recogniser, mk: (seq<string>, Cg) -> R, root: Cg) returns (sites: seq<Site>)
    requires Named(root)
    ensures WalkRoot(Discover(rec, mk), [], Some(root)).verdict == Continue
    ensures IsDiscovery(rec, mk, root, WalkRoot(Discover(rec, mk), [], Some(root)).state, sites)
  {
    if root.Leaf? {
      sites := [];
    } else {
      sites := SitesIn(rec, [], root.children, 0);
      WalkDiscoversIn(rec, mk, [], [], root.children, 0);
      assert [] + Entries(mk, sites) == Entries(mk, sites);
      SiblingSitesArePlaced(rec, [], root, 0);
      assert root.children[0..] == root.children;
    }
    InOrderIsOnce(sites);
    forall a ensures Reported(sites, a) <==> IsContainer(rec, root, a) {
      if root.Dir? && a != [] {
        RootReports(rec, root, a);
      } else if root.Dir? {
        ReportedSibling(rec, [], root.children, 0, a);
      }
    }
  }

  lemma RootReports(rec: Recogniser, root: Cg, a: Address)
    requires root.Dir? && a != []
    ensures Reported(SitesIn(rec, [], root.children, 0), a) <==> IsContainer(rec, root, a)
  {
    ReportedSibling(rec, [], root.children, 0, a);
    BelowIffReachable(rec, [], root, a);
    if a[0] < |root.children| {
      ReportedIff(rec, [] + [root.children[a[0]].name], root.children[a[0]], a[1..]);
    }
    assert Reported(SitesIn(rec, [], root.children, 0), a) <==> QualifiesBelow(rec, [], root, a);
    RootReachable(rec, root, a);
  }

  lemma RootReachable(rec: Recogniser, root: Cg, a: Address)
    requires a != []
    ensures Reachable(rec, [], root, a, 1) <==> IsContainer(rec, root, a)
  {
    if Exists(root, a) {
      assert [] + NamesTo(root, a) == NamesTo(root, a);
      forall k | 0 < k < |a| ensures [] + NamesTo(root, a)[..k] == NamesTo(root, a)[..k] {
      }
    }
  }

  predicate Recognises(path: seq<string>) {
    Match(path).Some?
  }

  datatype Ref = Ref(id: string, runtime: string, relPath: string, dirs: Cgroup.Dirs, pid: nat)

  /** What stays fixed during one discovery. */
  datatype Host = Host(version: Cgroup.Version, root: string, names: map<string, string>)

  /** The container at a directory, every part read from that directory. */
  function RefAt(h: Host, path: seq<string>, node: Cg): Ref {
    var who := if Match(path).Some? then Match(path).value else Identity("", "");
    var rel := RelPath(path);
    Ref(who.id, who.runtime, rel, Cgroup.DirsFor(h.version, h.root, rel, h.names), PidOf(node))
  }

  function RefMaker(h: Host): (seq<string>, Cg) -> Ref {
    (path, node) => RefAt(h, path, node)
  }

  ghost predicate NamesFit(version: Cgroup.Version, selfCgroup: string, names: map<string, string>) {
    if version == Cgroup.V1 then Cgroup.AreDirNames(Lines(selfCgroup), names, Cgroup.DEFAULT_V1_DIRS)
    else names == map[]
  }

  /** `a` is the first directory of the subtree, in preorder, whose cgroup.procs can be read and
      holds a pid, and `pid` is the first it holds. */
  ghost predicate IsFirstHolder(node: Cg, a: Address, pid: nat) {
    && pid > 0 && HoldsPid(node, a, pid)
    && forall b, other: nat | HoldsPid(node, b, other) && Before(b, a) :: other == 0
  }

  /** The directory of one controller: under v2 all have the same, under v1 each its own hierarchy. */
  ghost predicate IsControllerDir(h: Host, relPath: string, controller: string, dir: string) {
    if h.version == Cgroup.V2 then dir == Cgroup.PathJoin([h.root, relPath])
    else
      var name := if controller in h.names then h.names[controller] else "";
      dir == Cgroup.PathJoin([h.root, name, relPath])
  }

  ghost predicate AreDirs(h: Host, relPath: string, d: Cgroup.Dirs) {
    && d.version == h.version
    && IsControllerDir(h, relPath, "memory", d.memory) && IsControllerDir(h, relPath, "cpu", d.cpu)
    && IsControllerDir(h, relPath, "cpuacct", d.cpuacct) && IsControllerDir(h, relPath, "pids", d.pids)
    && IsControllerDir(h, relPath, "blkio", d.blkio) && IsControllerDir(h, relPath, "freezer", d.freezer)
  }

  /** Everything an entry says is what its own directory says. */
  ghost predicate Describes(h: Host, site: Site, r: Ref) {
    && site.path != [] && IsNamedBy(site.path, Identity(r.id, r.runtime))
    && r.relPath == "/" + Join(site.path, '/')
    && (exists a :: IsFirstHolder(site.node, a, r.pid))
    && AreDirs(h, r.relPath, r.dirs)
  }

  /** The containers of a tree, once each and in preorder, one entry each. */
  ghost predicate AreContainers(h: Host, top: Cg, refs: seq<Ref>, sites: seq<Site>) {
    && Placed([], top, sites) && |refs| == |sites|
    && (forall j, k | 0 <= j < k < |sites| :: sites[j].address != sites[k].address)
    && (forall a :: Reported(sites, a) <==> IsContainer(Recognises, top, a))
    && forall k | 0 <= k < |sites| :: Describes(h, sites[k], refs[k])
  }

  /** Where discovery starts: the cgroup root, or under v1 the memory hierarchy below it. */
  ghost predicate StartsAt(h: Host, walkRoot: string) {
    if h.version == Cgroup.V1 then "memory" in h.names && walkRoot == Cgroup.PathJoin([h.root, h.names["memory"]])
    else walkRoot == h.root
  }

  /** What is reported of a host's cgroup tree: nothing when there is none at the walk root. */
  ghost predicate Discovered(h: Host, at: Option<Cg>, refs: seq<Ref>) {
    match at
    case None => refs == []
    case Some(top) => exists sites :: AreContainers(h, top, refs, sites)
  }

  lemma DirsAreRight(h: Host, relPath: string)
    ensures AreDirs(h, relPath, Cgroup.DirsFor(h.version, h.root, relPath, h.names))
  {
  }

  lemma SiteIsDescribed(h: Host, site: Site)
    requires Recognises(site.path) && PidOf(site.node) != 0
    ensures Describes(h, site, RefAt(h, site.path, site.node))
  {
    var r := RefAt(h, site.path, site.node);
    MatchIff(site.path, Identity(r.id, r.runtime));
    DirsAreRight(h, r.relPath);
    FirstHolder(site.node);
  }

  lemma FirstHolder(node: Cg)
    requires PidOf(node) != 0
    ensures exists a :: IsFirstHolder(node, a, PidOf(node))
  {
    var a := PidIsFirst(node);
    assert IsFirstHolder(node, a, PidOf(node));
  }

  lemma SitesAreDescribed(h: Host, top: Cg, refs: seq<Ref>, sites: seq<Site>)
    requires IsDiscovery(Recognises, RefMaker(h), top, refs, sites)
    ensures AreContainers(h, top, refs, sites)
  {
    assert |refs| == |sites|;
    forall k | 0 <= k < |sites| ensures Describes(h, sites[k], refs[k]) {
      var site := sites[k];
      assert IsAt([], top, site);
      assert Reported(sites, site.address);
      assert IsContainer(Recognises, top, site.address);
      assert [] + NamesTo(top, site.address) == NamesTo(top, site.address);
      SiteIsDescribed(h, site);
    }
  }

  /** `tree` gives the directory tree at a path, None when nothing is there. */
  method DiscoverContainers(version: Cgroup.Version, root: string, selfCgroup: string,
                            tree: string -> Option<Cg>) returns (refs: seq<Ref>)
    requires forall p :: tree(p).Some? ==> Named(tree(p).value)
    ensures exists h: Host, walkRoot :: (
      && h.version == version && h.root == root
      && NamesFit(version, selfCgroup, h.names)
      && StartsAt(h, walkRoot)
      && Discovered(h, tree(walkRoot), refs))
  {
    var names, walkRoot := map[], root;
    if version == Cgroup.V1 {
      names := Cgroup.V1ControllerDirNames(selfCgroup);
      Cgroup.KnownControllers();
      walkRoot := Cgroup.PathJoin([root, Cgroup.V1Name(names, Cgroup.Memory)]);
    }
    var h := Host(version, root, names);
    var at := tree(walkRoot);
    var walker := new Walker(Discover(Recognises, RefMaker(h)), []);
    var _ := walker.Run(at);
    refs := walker.state;
    if at.Some? {
      ghost var sites := RootDiscovery(Recognises, RefMaker(h), at.value);
      SitesAreDescribed(h, at.value, refs, sites);
    }
    assert StartsAt(h, walkRoot) && Discovered(h, at, refs);
  }

  // ---------- consequences ----------

  /** No reported container lies inside another. */
  lemma ContainersDoNotNest(rec: Recogniser, root: Cg, a: Address, k: nat)
    requires IsContainer(rec, root, a) && k < |a|
    ensures !IsContainer(rec, root, a[..k])
  {
    if k > 0 {
      PrefixesExist(root, a, k);
      assert Passable(rec, root, NamesTo(root, a)[..k], a[..k]);
    }
  }

  /** Not descending into a match without processes loses nothing: whatever one took for a
      container, no directory of its subtree would be reported. */
  lemma {:induction false} EmptySubtreeHidesNothing(rec: Recogniser, path: seq<string>, node: Cg)
    requires PidOf(node) == 0
    ensures Sites(rec, path, node) == []
    decreases node, 1
  {
    if node.Dir? && node.listed {
      FirstPositiveConcat([FirstPid(node.meta)], PidsIn(node.children));
      EmptySiblingsHideNothing(rec, path, node.children, 0);
    }
  }

  lemma {:induction false} EmptySiblingsHideNothing(rec: Recogniser, path: seq<string>, cs: seq<Cg>, start: nat)
    requires FirstPositive(PidsIn(cs)) == 0
    ensures SitesIn(rec, path, cs, start) == []
    decreases cs, 0
  {
    if cs == [] {
    } else {
      FirstPositiveConcat(Pids(cs[0]), PidsIn(cs[1..]));
      EmptySubtreeHidesNothing(rec, path + [cs[0].name], cs[0]);
      EmptySiblingsHideNothing(rec, path, cs[1..], start + 1);
    }
  }
}
