/** The host's memory figures, and those of a limited cgroup as GetMemory (container-aware) and
    GetContainers see them. */
module Memory {
  import opened Outcomes
  import opened Text
  import Cgroup
  import opened Words

  /** A malformed number panics, which is not the same as an error: an error is handled where it is
      noticed, a panic goes all the way up. */
  datatype Read<T> = Done(value: T) | Failed | Panicked

  /** The memory files of one cgroup directory, None when missing. */
  datatype MemoryFiles = MemoryFiles(max: Option<string>, limitInBytes: Option<string>,
                                     current: Option<string>, usageInBytes: Option<string>,
                                     stat: Option<string>)

  datatype Limit = Limit(bytes: nat, limited: bool)

  datatype Usage = Usage(limit: Limit, usedBytes: nat)

  function Number(content: string): (r: Read<nat>)
    ensures r.Done? ==> r.value < TWO64
  {
    var n := ToUint64(content);
    if n.Ok? then Done(n.value) else Panicked
  }

  const UNLIMITED_ABOVE := 0x4000_0000_0000_0000

  /** "max" in v2, and in v1 anything above 2^62, stands for no limit. */
  function ReadLimit(version: Cgroup.Version, f: MemoryFiles): Read<Limit> {
    match version
    case V2 =>
      if f.max.None? then Failed
      else
        var content := TrimSpace(f.max.value);
        if content == "max" then Done(Limit(0, false))
        else
          (match Number(content)
           case Done(n) => Done(Limit(n, true))
           case Failed => Failed
           case Panicked => Panicked)
    case V1 =>
      if f.limitInBytes.None? then Failed
      else
        (match Number(TrimSpace(f.limitInBytes.value))
         case Done(n) => Done(if n > UNLIMITED_ABOVE then Limit(0, false) else Limit(n, true))
         case Failed => Failed
         case Panicked => Panicked)
    case NoCgroup => Failed
  }

  function UsageFile(version: Cgroup.Version, f: MemoryFiles): Option<string> {
    if version == Cgroup.V2 then f.current else f.usageInBytes
  }

  function ReadUsage(version: Cgroup.Version, f: MemoryFiles): Read<nat> {
    var file := UsageFile(version, f);
    if file.None? then Failed else Number(TrimSpace(file.value))
  }

  function Lookup(stats: map<string, nat>, key: string): nat {
    if key in stats then stats[key] else 0
  }

  /** Reclaimable file cache; the v1 total, which includes child cgroups, comes first. */
  function InactiveFile(version: Cgroup.Version, f: MemoryFiles): nat {
    if f.stat.None? then 0
    else
      var stats := Cgroup.KeyValueStat(f.stat.value);
      if version == Cgroup.V1 && "total_inactive_file" in stats then stats["total_inactive_file"]
      else Lookup(stats, "inactive_file")
  }

  /** Limit and working set. Cache that would use up all of the usage is not taken off it. */
  function ReadBytes(version: Cgroup.Version, f: MemoryFiles): Read<Usage> {
    match ReadLimit(version, f)
    case Failed => Failed
    case Panicked => Panicked
    case Done(limit) =>
      match ReadUsage(version, f)
      case Failed => Failed
      case Panicked => Panicked
      case Done(usage) =>
        var inactive := InactiveFile(version, f);
        Done(Usage(limit, if inactive < usage then usage - inactive else usage))
  }

  /** GetMemory's figures, in KiB. */
  class MemoryKiB {
    var total: nat
    var free: nat
    var available: nat
    var used: nat
    var percentageUsed: real
    var limited: bool

    constructor (total: nat, free: nat, available: nat, used: nat, percentageUsed: real)
      ensures Figures() == Kib(total, free, available, used, percentageUsed, false)
    {
      this.total, this.free, this.available, this.used := total, free, available, used;
      this.percentageUsed, this.limited := percentageUsed, false;
    }

    function Figures(): Kib
      reads this
    {
      Kib(total, free, available, used, percentageUsed, limited)
    }

    /** `files` are those of the calling process's own memory cgroup, None when it has none. */
    method ApplyCgroupMemory(containerAware: bool, version: Cgroup.Version, files: Option<MemoryFiles>)
      returns (panicked: bool)
      modifies this
      ensures panicked <==> containerAware && files.Some? && ReadBytes(version, files.value).Panicked?
      ensures Figures() == if containerAware && files.Some? then Overridden(old(Figures()), ReadBytes(version, files.value))
                           else old(Figures())
    {
      if !containerAware || files.None? {
        return false;
      }
      var r := ReadBytes(version, files.value);
      if r.Panicked? {
        return true;
      }
      if r.Failed? || !r.value.limit.limited {
        return false;
      }
      var totalKiB, usedKiB, availableKiB := r.value.limit.bytes / 1024, r.value.usedBytes / 1024, 0;
      if totalKiB > usedKiB {
        availableKiB := totalKiB - usedKiB;
      }
      total, used, available, free := totalKiB, usedKiB, availableKiB, availableKiB;
      if totalKiB > 0 {
        percentageUsed := usedKiB as real / totalKiB as real * 100.0;
      }
      limited := true;
      panicked := false;
    }
  }

  // ---------- /proc/meminfo ----------

  /** The lines of /proc/meminfo that are used, in KiB. */
  datatype Meminfo = Meminfo(total: nat, free: nat, available: nat, buffers: nat, cached: nat)

  const NO_MEMINFO := Meminfo(0, 0, 0, 0, 0)

  predicate IsMeminfoKey(key: string) {
    key == "MemTotal:" || key == "MemFree:" || key == "MemAvailable:" || key == "Buffers:" || key == "Cached:"
  }

  function SetMeminfo(m: Meminfo, key: string, n: nat): Meminfo {
    if key == "MemTotal:" then m.(total := n)
    else if key == "MemFree:" then m.(free := n)
    else if key == "MemAvailable:" then m.(available := n)
    else if key == "Buffers:" then m.(buffers := n)
    else m.(cached := n)
  }

  /** The number of a line that is used; a missing or malformed one panics. */
  function MeminfoNumber(fs: seq<string>): (r: Result<nat>)
    ensures r.Ok? ==> r.value < TWO64
  {
    if |fs| < 2 then Err else ToUint64(fs[1])
  }

  function MeminfoOf(lines: seq<string>): Result<Meminfo> {
    if lines == [] then Ok(NO_MEMINFO)
    else var m :- MeminfoOf(lines[..|lines| - 1]); AddMeminfo(m, Fields(lines[|lines| - 1]))
  }

  function AddMeminfo(m: Meminfo, fs: seq<string>): Result<Meminfo> {
    if fs == [] || !IsMeminfoKey(fs[0]) then Ok(m)
    else var n :- MeminfoNumber(fs); Ok(SetMeminfo(m, fs[0], n))
  }

  /** A line that makes the parser panic. */
  predicate MalformedMeminfo(line: string) {
    var fs := Fields(line);
    fs != [] && IsMeminfoKey(fs[0]) && (|fs| < 2 || ParseUint(fs[1]).error != NoError)
  }

  ghost predicate MeminfoPanics(content: string) {
    exists i :: 0 <= i < |Lines(content)| && MalformedMeminfo(Lines(content)[i])
  }

  lemma MalformedFails(m: Meminfo, line: string)
    ensures AddMeminfo(m, Fields(line)).Err? <==> MalformedMeminfo(line)
  {
  }

  lemma {:induction false} MeminfoFailsIff(lines: seq<string>)
    ensures MeminfoOf(lines).Err? <==> exists i :: 0 <= i < |lines| && MalformedMeminfo(lines[i])
  {
    if lines == [] {
    } else {
      var n := |lines| - 1;
      MeminfoFailsIff(lines[..n]);
      assert forall i | 0 <= i < n :: lines[..n][i] == lines[i];
      if MeminfoOf(lines[..n]).Ok? {
        MalformedFails(MeminfoOf(lines[..n]).value, lines[n]);
      }
    }
  }

  predicate IsEntry(line: string, key: string) {
    var fs := Fields(line);
    |fs| >= 2 && fs[0] == key
  }

  /** Every figure is that of the last line for it. */
  lemma {:induction false} MeminfoIsLast(lines: seq<string>, key: string, i: nat)
    requires MeminfoOf(lines).Ok? && i < |lines| && IsEntry(lines[i], key)
    requires forall j | i < j < |lines| :: !IsEntry(lines[j], key)
    ensures var m, v := MeminfoOf(lines).value, ToUint64(Fields(lines[i])[1]);
      && (key == "MemTotal:" ==> Ok(m.total) == v)
      && (key == "MemFree:" ==> Ok(m.free) == v)
      && (key == "MemAvailable:" ==> Ok(m.available) == v)
      && (key == "Buffers:" ==> Ok(m.buffers) == v)
      && (key == "Cached:" ==> Ok(m.cached) == v)
  {
    var n := |lines| - 1;
    if i == n {
      if IsMeminfoKey(key) {
        SetMeminfoIs(MeminfoOf(lines[..n]).value, key, MeminfoNumber(Fields(lines[n])).value);
      }
    } else {
      assert forall j | 0 <= j < n :: lines[..n][j] == lines[j];
      assert !IsEntry(lines[n], key);
      MeminfoIsLast(lines[..n], key, i);
      OtherLineKeeps(MeminfoOf(lines[..n]).value, lines[n], key);
    }
  }

  /** One figure changes, the others stay. */
  lemma SetMeminfoIs(m: Meminfo, key: string, n: nat)
    requires IsMeminfoKey(key)
    ensures SetMeminfo(m, key, n).total == if key == "MemTotal:" then n else m.total
    ensures SetMeminfo(m, key, n).free == if key == "MemFree:" then n else m.free
    ensures SetMeminfo(m, key, n).available == if key == "MemAvailable:" then n else m.available
    ensures SetMeminfo(m, key, n).buffers == if key == "Buffers:" then n else m.buffers
    ensures SetMeminfo(m, key, n).cached == if key == "Cached:" then n else m.cached
  {
  }

  lemma OtherLineKeeps(m: Meminfo, line: string, key: string)
    requires AddMeminfo(m, Fields(line)).Ok? && !IsEntry(line, key)
    ensures var m' := AddMeminfo(m, Fields(line)).value;
      && (key == "MemTotal:" ==> m'.total == m.total)
      && (key == "MemFree:" ==> m'.free == m.free)
      && (key == "MemAvailable:" ==> m'.available == m.available)
      && (key == "Buffers:" ==> m'.buffers == m.buffers)
      && (key == "Cached:" ==> m'.cached == m.cached)
  {
    var fs := Fields(line);
    if fs != [] && IsMeminfoKey(fs[0]) && |fs| >= 2 {
      SetMeminfoIs(m, fs[0], MeminfoNumber(fs).value);
    }
  }

  lemma MeminfoFailsEarly(lines: seq<string>, n: nat)
    requires n < |lines| && MalformedMeminfo(lines[n])
    ensures MeminfoOf(lines).Err?
  {
    MeminfoFailsIff(lines);
  }

  method ParseMeminfo(content: string) returns (r: Result<Meminfo>)
    ensures r == MeminfoOf(Lines(content))
    ensures r.Err? <==> MeminfoPanics(content)
  {
    var m := NO_MEMINFO;
    var lines := Lines(content);
    MeminfoFailsIff(lines);
    for k := 0 to |lines|
      invariant MeminfoOf(lines[..k]) == Ok(m)
    {
      assert lines[..k + 1][..k] == lines[..k];
      var fs := Fields(lines[k]);
      if fs == [] || !IsMeminfoKey(fs[0]) {
        continue;
      }
      var n := MeminfoNumber(fs);
      if n.Err? {
        MeminfoFailsEarly(lines, k);
        return Err;
      }
      m := SetMeminfo(m, fs[0], n.value);
    }
    assert lines[..|lines|] == lines;
    r := Ok(m);
  }

  // ---------- a limited cgroup's figures in place of the host's ----------

  datatype Kib = Kib(total: nat, free: nat, available: nat, used: nat, percentageUsed: real, limited: bool)

  /** The figures with a limited cgroup's in place of the host's. */
  function Overridden(k: Kib, r: Read<Usage>): Kib {
    match r
    case Done(Usage(Limit(bytes, true), usedBytes)) =>
      var total, used := bytes / 1024, usedBytes / 1024;
      var available := if total > used then total - used else 0;
      Kib(total, available, available, used,
          if total > 0 then used as real / total as real * 100.0 else k.percentageUsed, true)
    case _ => k
  }

  /** GetContainers' figures, in the requested unit. */
  datatype ContainerMemory = ContainerMemory(used: real, limit: real, limited: bool, percentageUsed: real)

  datatype Unit = Byte | Kilobyte | Megabyte | Gigabyte

  function BytesPer(unit: Unit): (n: real)
    ensures n > 0.0
  {
    match unit
    case Byte => 1.0
    case Kilobyte => 1024.0
    case Megabyte => 1048576.0
    case Gigabyte => 1073741824.0
  }

  /** KiB in the requested unit. */
  function FromKib(unit: Unit, kib: nat): real {
    match unit
    case Byte => kib as real * 1024.0
    case Kilobyte => kib as real
    case Megabyte => kib as real / 1024.0
    case Gigabyte => kib as real / 1024.0 / 1024.0
  }

  method ReadContainerMemory(version: Cgroup.Version, files: MemoryFiles, hostMemoryBytes: nat, unit: Unit)
    returns (r: Read<ContainerMemory>)
    ensures r.Done? <==> ReadBytes(version, files).Done?
    ensures r.Panicked? <==> ReadBytes(version, files).Panicked?
    ensures r.Done? ==>
      var u := ReadBytes(version, files).value;
      var limit := if u.limit.limited then u.limit.bytes else hostMemoryBytes;
      && r.value.limited == u.limit.limited
      && r.value.used * BytesPer(unit) == u.usedBytes as real && r.value.limit * BytesPer(unit) == limit as real
      && r.value.percentageUsed == if limit > 0 then u.usedBytes as real / limit as real * 100.0 else 0.0
  {
    match ReadBytes(version, files)
    case Failed => r := Failed;
    case Panicked => r := Panicked;
    case Done(u) =>
      var limitBytes := u.limit.bytes;
      if !u.limit.limited {
        limitBytes := hostMemoryBytes;
      }
      var percentage := 0.0;
      if limitBytes > 0 {
        percentage := u.usedBytes as real / limitBytes as real * 100.0;
      }
      Quotient(u.usedBytes as real, BytesPer(unit));
      Quotient(limitBytes as real, BytesPer(unit));
      r := Done(ContainerMemory(u.usedBytes as real / BytesPer(unit), limitBytes as real / BytesPer(unit),
                                u.limit.limited, percentage));
  }

  lemma Quotient(a: real, b: real)
    requires b != 0.0
    ensures a / b * b == a
  {
  }

  // ---------- from the text of the files to the figures ----------

  /** A limit as it is printed: a number below 2^64, or "max" - which is no limit under v2, as any
      number above 2^62 is under v1. White space around it does not matter. */
  lemma LimitOfText(f: MemoryFiles, lead: string, n: nat, tail: string)
    requires IsBlank(lead) && IsBlank(tail) && n < TWO64
    ensures f.max == Some(lead + Format(n) + tail) ==> ReadLimit(Cgroup.V2, f) == Done(Limit(n, true))
    ensures f.max == Some(lead + "max" + tail) ==> ReadLimit(Cgroup.V2, f) == Done(Limit(0, false))
    ensures f.limitInBytes == Some(lead + Format(n) + tail) ==>
      ReadLimit(Cgroup.V1, f) == Done(if n > 0x4000_0000_0000_0000 then Limit(0, false) else Limit(n, true))
  {
    FormatIsToken(n);
    ParseFormat(n);
    TrimPadded(lead, Format(n), tail);
    TrimPadded(lead, "max", tail);
    assert IsDigit(Format(n)[0]) && !IsDigit("max"[0]);
  }

  /** The usage comes from memory.current under v2 and memory.usage_in_bytes under v1. */
  lemma UsageOfText(f: MemoryFiles, lead: string, n: nat, tail: string)
    requires IsBlank(lead) && IsBlank(tail) && n < TWO64
    ensures f.current == Some(lead + Format(n) + tail) ==> ReadUsage(Cgroup.V2, f) == Done(n)
    ensures f.usageInBytes == Some(lead + Format(n) + tail) ==> ReadUsage(Cgroup.V1, f) == Done(n)
  {
    FormatIsToken(n);
    ParseFormat(n);
    TrimPadded(lead, Format(n), tail);
  }

  ghost predicate HasNoEntry(lines: seq<string>, key: string) {
    forall i: nat, v: nat :: !Cgroup.IsLastEntry(lines, key, i, v)
  }

  /** The reclaimable cache: what memory.stat's last entry says - under v1 the hierarchy's total when
      there is one - and 0 when there is none. */
  lemma InactiveOfText(version: Cgroup.Version, f: MemoryFiles, content: string, i: nat, v: nat)
    requires f.stat == Some(content)
    ensures version == Cgroup.V1 && Cgroup.IsLastEntry(Lines(content), "total_inactive_file", i, v) ==>
      InactiveFile(version, f) == v
    ensures (version != Cgroup.V1 || HasNoEntry(Lines(content), "total_inactive_file"))
            && Cgroup.IsLastEntry(Lines(content), "inactive_file", i, v) ==>
      InactiveFile(version, f) == v
    ensures (version != Cgroup.V1 || HasNoEntry(Lines(content), "total_inactive_file"))
            && HasNoEntry(Lines(content), "inactive_file") ==>
      InactiveFile(version, f) == 0
  {
    var lines := Lines(content);
    KeyIs(lines, "total_inactive_file", i, v);
    KeyIs(lines, "inactive_file", i, v);
  }

  lemma KeyIs(lines: seq<string>, key: string, i: nat, v: nat)
    ensures Cgroup.IsLastEntry(lines, key, i, v) ==> key in Cgroup.StatOf(lines) && Cgroup.StatOf(lines)[key] == v
    ensures HasNoEntry(lines, key) ==> key !in Cgroup.StatOf(lines)
  {
    if Cgroup.IsLastEntry(lines, key, i, v) {
      Cgroup.StatIsLastEntry(lines, key, i, v);
    }
    if key in Cgroup.StatOf(lines) {
      var j := Cgroup.StatHasOnlyEntries(lines, key);
      assert Cgroup.IsLastEntry(lines, key, j, Cgroup.StatOf(lines)[key]);
    }
  }

  // ---------- what the figures satisfy ----------

  /** The working set is never more than the raw usage, and short of it by exactly the reclaimable
      cache - unless that is all of the usage or more. */
  lemma WorkingSetBounded(version: Cgroup.Version, f: MemoryFiles)
    requires ReadBytes(version, f).Done?
    ensures ReadUsage(version, f).Done?
    ensures var used, usage := ReadBytes(version, f).value.usedBytes, ReadUsage(version, f).value;
      && used <= usage && (usage > 0 ==> used > 0)
      && (used == usage - InactiveFile(version, f) <==> InactiveFile(version, f) == 0 || InactiveFile(version, f) < usage)
  {
  }

  function Max(a: nat, b: nat): nat {
    if a > b then a else b
  }

  /** What is used and what is available add up to the total, or to what is used when that is more;
      and the available figure rounds the exact headroom up by at most 1 KiB. */
  lemma HeadroomIsExact(k: Kib, u: Usage)
    requires u.limit.limited
    ensures var o := Overridden(k, Done(u));
      && o.limited && o.total * 1024 <= u.limit.bytes < (o.total + 1) * 1024
      && o.used * 1024 <= u.usedBytes < (o.used + 1) * 1024
      && (o.total > 0 ==> o.percentageUsed * o.total as real == o.used as real * 100.0)
      && o.used + o.available == Max(o.total, o.used) && o.free == o.available
      && (u.usedBytes <= u.limit.bytes ==>
            (u.limit.bytes - u.usedBytes) / 1024 <= o.available <= (u.limit.bytes - u.usedBytes) / 1024 + 1)
      && (u.usedBytes > u.limit.bytes ==> o.available == 0)
  {
    KibDifference(u.limit.bytes, u.usedBytes);
  }

  lemma KibDifference(a: nat, b: nat)
    ensures a >= b ==> (a - b) / 1024 <= a / 1024 - b / 1024 <= (a - b) / 1024 + 1
    ensures a <= b ==> a / 1024 <= b / 1024
  {
  }

  lemma UnitsAgree(unit: Unit, kib: nat)
    ensures FromKib(unit, kib) * BytesPer(unit) == kib as real * 1024.0
  {
  }

  /** Two readings of one limited cgroup: the container-aware Used figure and GetContainers' differ
      by less than 1 KiB, in whatever unit both were asked for. */
  lemma UsedFiguresAgree(k: Kib, u: Usage, unit: Unit, containerUsed: real)
    requires u.limit.limited && containerUsed * BytesPer(unit) == u.usedBytes as real
    ensures var kibUsed := FromKib(unit, Overridden(k, Done(u)).used);
      0.0 <= (containerUsed - kibUsed) * BytesPer(unit) < 1024.0
  {
    var kib := u.usedBytes / 1024;
    UnitsAgree(unit, kib);
    assert u.usedBytes == kib * 1024 + u.usedBytes % 1024;
    assert (containerUsed - FromKib(unit, kib)) * BytesPer(unit)
        == containerUsed * BytesPer(unit) - FromKib(unit, kib) * BytesPer(unit);
  }

  // ---------- when it panics ----------

  /** The file is there but holds neither "max", where that means something, nor a number. */
  predicate Malformed(content: Option<string>, maxAllowed: bool) {
    content.Some? && !(maxAllowed && TrimSpace(content.value) == "max")
    && ParseUint(TrimSpace(content.value)).error != NoError
  }

  function LimitFile(version: Cgroup.Version, f: MemoryFiles): Option<string> {
    match version case V2 => f.max case V1 => f.limitInBytes case NoCgroup => None
  }

  /** Container-aware GetMemory is documented never to fail on account of the cgroup. It does panic,
      exactly when the limit file is malformed, or the usage file is and the limit was readable. */
  lemma PanicsIff(version: Cgroup.Version, f: MemoryFiles)
    ensures ReadBytes(version, f).Panicked? <==>
      || Malformed(LimitFile(version, f), version == Cgroup.V2)
      || (LimitFile(version, f).Some? && Malformed(UsageFile(version, f), false))
  {
  }
}
