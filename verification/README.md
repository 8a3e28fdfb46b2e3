# Verification of systats

`systats` reads `/proc`, `/sys` and cgroup trees and turns them into figures: CPU, memory, disks,
network protocols, processes and the containers of a host. This project models that logic in Dafny
and proves what it is for. Files are given texts, directories given finite trees, clock readings
given numbers; everything between them and the figures is modelled.

| file | models |
|---|---|
| `Collector.dfy`, `CollectorProof.dfy`, `CollectorRuns.dfy` | the concurrent dashboard collector of `example/collect.go`: its steps, what they keep, whole runs |
| `Walk.dfy` | `filepath.WalkDir` with its SkipDir rules, as a function and as it runs |
| `Discovery.dfy` | finding containers in a cgroup tree (`container_discover.go`) |
| `NetProto.dfy` | the paired-line protocol parser (`netproto.go`) |
| `BlockIO.dfy`, `IoStat.dfy`, `BlkioAgreement.dfy` | the block I/O parsers of cgroup v1 and v2 and their agreement (`container.go`) |
| `Mounts.dfy` | the mount table (`disk.go`) |
| `CpuUsage.dfy`, `CpuTopology.dfy` | utilisation and topology (`cpu.go`) |
| `Layer.dfy` | the writable layer's size (`container_layer.go`) |
| `ProcStat.dfy`, `Processes.dfy` | `/proc/<pid>/stat` and the ranking of processes (`process.go`) |
| `Cgroup.dfy`, `Memory.dfy` | cgroup directories, key/value files and memory figures (`cgroup.go`, `memory.go`) |
| `Containers.dfy`, `Rates.dfy` | the container pipeline, the lookup, and rates (`container.go`, `diskio.go`) |
| `Text.dfy`, `Words.dfy`, `Outcomes.dfy`, `StringOrder.dfy`, `Sums.dfy` | the slice of Go's `strings` and `strconv` used, word sizes, results, string order, sums |

Code that updates things step by step is modelled by methods on classes, arrays and loops, each proved
equal to a function; the theorems are about those functions. Text is a sequence of Unicode characters.
64-bit arithmetic wraps where the code's does. A panic that the library's recover boundary turns into
an error is an `Err`, and kept apart from an error where the code tells them apart (`Memory.dfy`).

Where the code does something other than one would expect from its comments, the model follows the
code and says when:

- An aggregate CPU line that has not moved puts a zero at the front of the per-core list
  (`CpuUsage.OneEntryPerCoreIff`, `CpuUsage.CoreListAligns`).
- A line whose protocol is a bare colon pairs with the empty pending protocol (`NetProto.BareColonIsAProtocol`).
- Container-aware memory is documented never to change how `GetMemory` fails; a malformed limit or usage
  file makes it panic (`Memory.PanicsIff`).
- Topology lines before the first processor line count as a block, so sockets and physical cores can
  exceed the logical count by one: exactly when every block names a package (a core) and all of them
  differ (`CpuTopology.TopologyBounds`; `CpuTopology.LeadingBlockCounts` is the smallest instance).
- Without a processor line the CPU count is the length of the per-core list, which is one too many
  when the aggregate has not moved (`CpuTopology.CoreCounts`).
- Rates compare totals, not interfaces. While the sums fit in 64 bits, resets show exactly when they
  took more than the other interfaces gained (`Rates.ResetShowsIff`, `Rates.NetworkZeroIff`); a sum
  running past 2^64 looks like a reset (`Rates.FalseResetIff`); `Rates.TotalDropsIff` covers every case.
  `Rates.HiddenReset` and `Rates.FalseReset` are inputs for either, carried through to the rates.
- A negative process count panics, with no candidates at all too (`Processes.SortAndLimit`).
- A malformed `/proc/meminfo` fails the whole container listing, even without a single container
  (`Containers.CollectContainers`, `Memory.ParseMeminfo`).
- A unit name that spells systemd's dash escape itself does not survive unescaping
  (`Discovery.UnitNameRoundTrip`).

The concurrent collector is a transition system in which appending to the problem list is two steps, a
load and a store: without the mutex the theorems would be false. `sort.Slice` is any permutation
without an inversion there, and an insertion sort, promising no more than that, in `Processes.dfy`.
In `Discovery.dfy` and `CollectorProof.dfy` the name tables are parameters of the proofs
(`Recogniser`, `Fates.name`), put in by `Discovery.DiscoverContainers` and
`CollectorRuns.CollectIsDeterministic`.

## Model

| member | source | states |
|---|---|---|
| `Collector.OneWriterPerField` | example/collect.go:274-409 | a dashboard field is assigned by one task only, at one place in it, so the tasks' writes are disjoint |
| `CollectorProof.StepKeepsInv` | example/collect.go:252-421 | every step of every goroutine keeps the invariant: mutual exclusion, the wait-group count, no report lost or made up while a list is loaded for appending, every slot and field as its owner left it |
| `CollectorProof.MainKeepsMain` | example/collect.go:260-411 | Wait passes only when every reader is done |
| `CollectorRuns.AlwaysSafe` | example/collect.go:252-411 | at any point of any run at most one reader is in a critical section, nothing is assembled before all have left, and no field holds anything but what its owner builds |
| `CollectorRuns.ScheduleDoesNotMatter` | example/collect.go:233-421 | for fixed outcomes any two complete runs return the same dashboard, namely the expected one: panels from their owners' readings; a container panel exactly when a container-aware reading succeeded and found a limit, holding the four readings it is about; one problem per failed task, strictly sorted |
| `CollectorRuns.CollectIsDeterministic` | example/collect.go:233-421 | the same for the fourteen panel names as they are, with no assumption left |
| `CollectorRuns.PanelsShowTheirReadings` | example/collect.go:274-386 | each panel shows the reading it is named after, or nothing when that failed |
| `CollectorRuns.PanelNamesAreDistinct` | example/collect.go:274-409 | the fourteen names failures are filed under differ, which is what makes the unstable sort deterministic |
| `CollectorRuns.RunsEnd` | example/collect.go:233-421 | every schedule takes the same number of steps to return, a number fixed by which readings fail and never above 115; a run has returned exactly when it has taken them all |
| `CollectorRuns.StepsAreConserved` | example/collect.go:233-421 | at any point of any run, the steps taken and those left to all goroutines add up to that number |
| `CollectorRuns.NoDeadlock` | example/collect.go:252-411 | short of the end some goroutine can always move, so every run can be completed |
| `CollectorRuns.NoDataRace` | example/collect.go:225-421 | in no reachable state are two goroutines about to touch the same shared location |
| `CollectorRuns.SortedIsUnique` | example/collect.go:419 | a strictly sorted problem list is determined by its elements |
| `Walk.Walker.WalkDir` | container_discover.go:124-166 | the walk as it runs, its callback updating a captured variable in place, is the recursive specification of WalkDir with its SkipDir rules and its second call on a ReadDir failure |
| `Walk.ContinuingWalk` | container_discover.go:124-166 | a callback that never skips sees every entry once and in preorder, and a directory that cannot be listed a second time |
| `Walk.SkipRules` | container_discover.go:128-186 | SkipDir on a directory skips what is below it, on anything else the rest of the parent; an error ends the walk |
| `Discovery.DiscoverContainers` | container_discover.go:108-168 | the result is exactly the directories one to ten levels down that match, have a process in their subtree and lie below no match and no unlistable directory but the root; once each, in preorder; every entry with the ID and runtime its own path is named by, that path, the first pid of the first directory of its own subtree that holds one, and its six controller directories under v1 and v2 |
| `Discovery.RootDiscovery` | container_discover.go:108-168 | the same for any recogniser and any entry builder |
| `Discovery.WalkDiscovers` | container_discover.go:124-166 | below the root a walk appends its subtree's containers and goes on, so an unreadable directory hides only its own descendants |
| `Discovery.ContainersDoNotNest` | container_discover.go:108-110 | no reported container is an ancestor of another |
| `Discovery.EmptySubtreeHidesNothing` | container_discover.go:111-165 | pruning a match without processes loses no container below it |
| `Discovery.MatchIff` | container_discover.go:38-95 | a path is taken for a container exactly when one of the runtimes' naming schemes fits it, and then under that runtime and the ID in the name |
| `Discovery.ReadFirstPid` | container_discover.go:192-203 | the positive number on the first line that holds one, trimmed; none is found exactly when no line does |
| `Discovery.FirstPidInSubtree` | container_discover.go:170-190 | the walk's captured pid ends as the first positive one in preorder |
| `Discovery.WalkFindsPid` | container_discover.go:176-188 | a pid once found is never replaced by a later callback |
| `Discovery.PidIsFirst` | container_discover.go:170-190 | the pid found is that of the first directory in preorder that holds one |
| `Discovery.PidFoundIff` | container_discover.go:189 | none is reported exactly when no directory of the readable subtree holds one |
| `Discovery.ScopesAreRecognised` | container_discover.go:38-82 | the systemd scopes of four runtimes are matched with their ID and runtime |
| `Discovery.MonitorIsNotAContainer` | container_discover.go:34-37 | libpod-conmon scopes are never taken for containers |
| `Discovery.UnitNameRoundTrip` | container_discover.go:101-106 | unescaping undoes the escaping of dashes exactly for names that do not contain the escape "\x2d" already |
| `NetProto.ProtocolTable.Parse` | netproto.go:75-114 | the two-variable loop filling the caller's map is the line-by-line specification |
| `NetProto.GetProtocolStats` | netproto.go:42-60 | the two files are merged into one map, a missing one passed over |
| `NetProto.ProtocolTable.Value` | netproto.go:30-40 | a counter is reported as present exactly when its protocol and name are |
| `NetProto.TornReadsAreSafe` | netproto.go:70-114 | whatever lines and trailing columns a file of distinct protocols loses, exactly the protocols both of whose lines survive are updated |
| `NetProto.TornColumns` | netproto.go:70-107 | through the text: with both lines left every column both still have counts, a name holding the last number given to it and names given none as before; otherwise nothing about the protocol changes |
| `NetProto.ExpectedAt` | netproto.go:70-107 | for one protocol: its counters are the surviving columns zipped, or nothing about it changed |
| `NetProto.ExpectedElsewhere` | netproto.go:87-107 | protocols not in the file are left alone |
| `NetProto.CountersAreJustified` | netproto.go:70-74 | for ANY content, every counter joins a name and a value from the same column of two consecutive lines of its own protocol |
| `NetProto.LastColumnWins` | netproto.go:97-105 | a name takes the value of its last numeric column |
| `NetProto.OtherNamesKept` | netproto.go:97-105 | names without a numeric column are not touched |
| `NetProto.BareColonIsAProtocol` | netproto.go:76-92 | for ANY content, an empty protocol appears exactly when a bare-colon line arrives while nothing is pending |
| `NetProto.LeadingBareColon` | netproto.go:76-92 | so it does whenever the first line is a bare colon with columns |
| `BlockIO.ParseBlkioThrottle` | container.go:742-793 | for ANY two contents the merge equals its declarative form |
| `BlockIO.MergeIsThrottle` | container.go:742-793 | the two passes over records reached through the map and listed in order leave the declarative form behind |
| `BlockIO.Merge.Get` | container.go:745-757 | the map and the order list name the same devices once, with a record each of its own |
| `BlockIO.Merge.ApplyLine` | container.go:759-779 | one line changes one device's entry and no other |
| `BlockIO.OrderIsMentioned` | container.go:743-757 | the order list holds each device a usable line mentions, once |
| `BlockIO.OrderIsFirstMention` | container.go:743-791 | in order of first mention across both files |
| `BlockIO.CounterIsLast` | container.go:773-786 | a counter is the last value for that device and operation, or 0 |
| `BlockIO.EventIsTheLine` | container.go:759-772 | only a line of three fields counts, as the device, operation and number it holds |
| `IoStat.ParseIOStat` | container.go:697-732 | the v2 loop is the specification line by line and field by field |
| `IoStat.CounterIsLastField` | container.go:711-728 | in whatever order and however often the fields come, each counter is the last value for its key |
| `IoStat.IoStatRoundTrip` | container.go:694-732 | parsing a printed io.stat gives the devices back |
| `BlkioAgreement.ThrottleRoundTrip` | container.go:734-793 | parsing the two printed v1 files gives the devices back |
| `BlkioAgreement.VersionsAgree` | container.go:664-803 | v1 and v2 parse the same counters to the same list |
| `Mounts.ParseMounts` | disk.go:134-148 | the loop is the specification line by line |
| `Mounts.UnescapeEscape` | disk.go:150-159 | unescaping undoes the octal escaping of every text, literal escapes included |
| `Mounts.MountTableRoundTrip` | disk.go:134-159 | parsing a printed mount table gives its entries back exactly |
| `CpuUsage.ProcessStatFile` | cpu.go:435-448 | the ticks of every cpu line in order; any short or malformed one panics |
| `CpuUsage.SampleOf` | cpu.go:435-448 | through the text, however spaced: the sample is the user, system and idle ticks of the cpu lines in order |
| `CpuUsage.PrintedStat` | cpu.go:435-448 | parsing a printed /proc/stat gives user, system and idle of each cpu line, other lines passed over |
| `CpuUsage.SampleFailsIff` | cpu.go:441-443 | a sample panics exactly when a cpu line is short or holds no number where one is read |
| `CpuUsage.CPU.ProcessStatFileContents` | cpu.go:413-433 | it fails exactly when a sample does not parse or the second is shorter, and else stores what CoreList and Usage say |
| `CpuUsage.FiguresOfTexts` | cpu.go:413-448 | from two texts to what is stored: LoadAvg and CoreAvg[j] are the floored percentages of busy ticks of the aggregate and of the j-th core line, with the zero in front when the aggregate stood still |
| `CpuUsage.UsageIsPercentage` | cpu.go:419-428 | with growing counters that fit, a figure is the exact percentage rounded down, from 0 to 100 |
| `CpuUsage.CoreListAligns` | cpu.go:417-431 | with the aggregate moving, CoreAvg[j] is core j's; otherwise a zero comes first and all are one place late |
| `CpuUsage.OneEntryPerCoreIff` | cpu.go:422-431 | there is one entry per core exactly when the aggregate's total moved (modulo 2^64) |
| `CpuUsage.LoadAvgBetweenCoreAvgs` | cpu.go:417-432 | an aggregate that is the sum of the cores shows a figure between the least and the greatest core's |
| `CpuTopology.ParseCPUTopology` | cpu.go:362-411 | the flushing loop equals the block-wise count of distinct cores and packages |
| `CpuTopology.PrintedTopology` | cpu.go:362-411 | parsing a printed /proc/cpuinfo gives one CPU per block and the distinct cores and packages it names; with none named, every CPU a core on one socket |
| `CpuTopology.CoreCounts` | cpu.go:101-343 | the logical count is the number of processor lines; without any it is the number of per-core lines of /proc/stat when the aggregate's total moved and one more when it did not; it fails exactly when the samples do not parse or the second is shorter |
| `CpuTopology.BlockOrderDoesNotMatter` | cpu.go:362-411 | permuting the processor blocks changes nothing |
| `CpuTopology.TopologyBounds` | cpu.go:362-409 | sockets and cores are at least 1 and at most one more than the logical count - more than it exactly when every block, the leading one included, names a package (a core) and all differ |
| `CpuTopology.NoLeadingTopology` | cpu.go:370-398 | with no package named before the first processor neither exceeds the logical count |
| `CpuTopology.SocketsHaveCores` | cpu.go:370-376 | no more sockets than cores when every block that names a package names a core |
| `CpuTopology.LeadingBlockCounts` | cpu.go:370-398 | the instance of one processor: with another package named before it, one logical CPU shows two cores on two sockets |
| `Layer.LayerSize` | container_layer.go:93-125 | the walk fails exactly when the layer is unreadable or the context is cancelled in time, and else counts every file |
| `Layer.WalkCounts` | container_layer.go:96-123 | an entry that cannot be read costs only itself; a cancelled context stops the whole walk |
| `Layer.LayerIsSum` | container_layer.go:87-121 | size and file count are the sums over distinct multiply-linked inodes and singly-linked files, modulo 2^64 |
| `Layer.OrderDoesNotMatter` | container_layer.go:87-125 | the figures do not depend on the order of the walk |
| `ProcStat.ParsePrint` | process.go:491-521 | parsing undoes printing for EVERY command name |
| `ProcStat.LocateLine` | process.go:491-518 | the command name is found between the first '(' and the last ')' whatever it contains |
| `Processes.SortSlice` | process.go:438-443 | in place: descending, and a permutation of what was there |
| `Processes.SortAndLimit` | process.go:435-450 | a descending selection of min(count, n) candidates none of the dropped ones outranks by the usage asked for; a panic exactly for a negative count |
| `Processes.FrontIsTop` | process.go:435-450 | that holds of whatever sorted permutation the sort leaves |
| `Processes.TopIsUniqueUpToTies` | process.go:435-450 | any two such selections show the same usages place by place, although the sort is not stable |
| `Processes.Report` | process.go:118-132 | candidates that have exited are left out |
| `Processes.ReportsTheReadable` | process.go:118-132 | each reported process is a candidate with its own pid, usages and details; the candidates left out are those that cannot be read |
| `Processes.ReportKeepsRanking` | process.go:113-132 | and the rest stays in descending order |
| `Cgroup.ParseSelfCgroupV1` | cgroup.go:48-70 | the first line that lists the controller as an exact element, an error when none does |
| `Cgroup.HierarchyRoundTrip` | cgroup.go:57-62 | parsing a printed line gives its ID, controller list and path back, a path with colons included |
| `Cgroup.PrintedLineLists` | cgroup.go:57-69 | a printed line lists exactly the controllers it was printed with |
| `Cgroup.UnifiedRoundTrip` | cgroup.go:40-46 | under v2 the path of a line of hierarchy 0 is found, and any other hierarchy is an error |
| `Cgroup.V1ControllerDirNames` | cgroup.go:99-133 | the last line that lists each of the six known controllers, the default when none does, and no other keys |
| `Cgroup.DefaultDirs` | cgroup.go:99-120 | the table has the six controllers and no other, unlisted ones at their conventional directory |
| `Cgroup.ResolveControllerPath` | cgroup.go:72-97 | the directory the first listing line names, or the unified one |
| `Cgroup.ResolversAgreeIff` | cgroup.go:57-168 | on a first listing's path the last-wins table and the first-wins lookup give the same directory when the first and last line for a controller carry the same list; and only then, unless a list holds a '/' or the path leads back up |
| `Cgroup.MiddleIsDetermined` | cgroup.go:96-168 | joining a root, a directory name and a path without ".." keeps different names apart |
| `Cgroup.JoinOfPlainPaths` | cgroup.go:151-168 | joining paths without detours puts their components one after the other |
| `Cgroup.DetoursCancel` | cgroup.go:151-168 | in a joined path a step up undoes the one before it, and empty components and dots do nothing |
| `Cgroup.ResolversAgree` | cgroup.go:75-168 | with one line per controller both resolvers give the same directory for the same cgroup path |
| `Cgroup.ParseKeyValueStat` | cgroup.go:174-188 | the loop is the specification |
| `Cgroup.StatIsLastEntry` | cgroup.go:170-188 | a key holds the value of its last usable line |
| `Cgroup.StatHasOnlyEntries` | cgroup.go:170-188 | and only keys of usable lines are there |
| `Cgroup.StatRoundTrip` | cgroup.go:174-188 | a printed file of different keys gives each its value and has no other keys |
| `Memory.MemoryKiB.ApplyCgroupMemory` | memory.go:128-167 | the fields are overridden for a readable limited cgroup, left alone otherwise, and a malformed number panics |
| `Memory.ReadContainerMemory` | container.go:505-521 | a container's used and limit figures in the requested unit |
| `Memory.WorkingSetBounded` | memory.go:169-190 | the working set never exceeds raw usage, and is usage minus inactive cache unless that is all of it |
| `Memory.HeadroomIsExact` | memory.go:149-162 | total and used are the limit and the working set in KiB rounded down, used + available = max(total, used), and available exceeds the floored exact headroom by at most 1 KiB |
| `Memory.UsedFiguresAgree` | memory.go:149-160 | the container-aware and the per-container Used figures differ by less than 1 KiB in any unit |
| `Memory.PanicsIff` | memory.go:130-233 | the one way the cgroup can fail GetMemory, against its comment: exactly on a malformed limit or usage file |
| `Memory.ParseMeminfo` | memory.go:79-100 | the loop is the fold over the lines, and panics exactly when a used line has no number |
| `Memory.MeminfoIsLast` | memory.go:88-99 | each of the five figures is that of the last line for it |
| `Memory.LimitOfText` | memory.go:196-221 | from the text: a number is that limit, "max" none under v2, and a number above 2^62 none under v1 |
| `Memory.UsageOfText` | memory.go:223-233 | from the text of memory.current under v2 and memory.usage_in_bytes under v1 |
| `Memory.InactiveOfText` | memory.go:235-255 | the reclaimable cache is the last entry for it, under v1 the hierarchy's total when there is one, else 0 |
| `Containers.MatchContainer` | container.go:432-457 | index i is selected iff it is the lowest exact match, or there is none and i is the only ID-prefix match |
| `Containers.CollectContainers` | container.go:379-452 | it succeeds iff /proc/meminfo is not malformed, it is not cancelled, something is selected and nothing selected fails; and then yields, in order, a container for each selected reference that can be read, everything in it belonging to that reference |
| `Containers.ReadHostInfo` | container.go:281-306 | the CPU count is that of the per-CPU lines; a missing file is passed over, a malformed /proc/meminfo panics |
| `Containers.CoreLinesAre` | container.go:296-306 | the host's CPU count is the number of lines that begin with "cpu" and a digit |
| `Containers.AssembleAll` | container.go:413-430 | the parallel lists of containers, references and readings are joined index by index |
| `Containers.OutputsFollowDiscovery` | container.go:355-430 | every output's identity, path, pid, metadata, layer and both CPU readings come from one reference; outputs keep discovery order; only unreadable references have none |
| `Containers.SampledShowsUsage` | container.go:610-627 | cores used are the readings' difference per second and the percentages that of the host and of the limit, when both could be read, time passed and the counter did not go backwards; otherwise the files' figures stay |
| `Containers.FullIdIsFound` | container.go:439-443 | a listed full ID always finds an exact match, and a lookup finds at most one container |
| `Containers.NameIsFound` | container.go:439-443 | a listed name always finds a container of that name or ID |
| `Containers.UniquePrefixIsFound` | container.go:444-455 | a beginning that only one listed ID has finds that container when nothing matches exactly |
| `Rates.RatesSince` | container.go:212-248 | each group's rates depend on that group's totals only; everything is zero across different IDs or without elapsed time |
| `Rates.NetworkRatesAre` | container.go:224-231 | counter by counter: received and sent bytes and packets are each the gain of their own total per second, or all zero when one of the four totals dropped |
| `Rates.BlockIoRatesAre` | container.go:233-240 | the same for bytes and operations read and written |
| `Rates.ThrottlingRatesAre` | container.go:242-245 | the same for throttled periods and seconds |
| `Rates.DiskRatesSince` | diskio.go:71-94 | a disk's rates, all zero when any counter went backwards |
| `Rates.DiskRatesAre` | diskio.go:71-94 | counter by counter, with the utilisation as the share of time the disk was busy |
| `Rates.NetworkTotals` | container.go:250-259 | the totals are the sums modulo 2^64 |
| `Rates.BlockIOTotals` | container.go:261-270 | the totals are the sums modulo 2^64 |
| `Rates.RatesTelescope` | container.go:212-248 | over any run that never goes backwards, rate times elapsed adds up to that of first to last |
| `Rates.RatesAreNotNegative` | container.go:212-248 | no rate is negative whatever the samples |
| `Rates.ZeroIff` | container.go:214-245 | a group is all zero exactly when it was reset or stood still |
| `Rates.TotalsGrow` | container.go:225-259 | growing interfaces have growing totals as long as the total fits |
| `Rates.TotalDropsIff` | container.go:224-259 | for ANY two samples of the same interfaces, a total goes backwards exactly when gains less losses fall short of what running past 2^64 took off |
| `Rates.ResetShowsIff` | container.go:224-259 | while the sums fit, exactly when more was lost than gained |
| `Rates.OneResetShowsIff` | container.go:224-259 | an interface that fell, among any others before and any others after: its loss shows exactly when the others did not make up for it |
| `Rates.FalseResetIff` | container.go:224-259 | interfaces that all grew look reset exactly when their sum ran past a multiple of 2^64 |
| `Rates.NetworkZeroIff` | container.go:212-248 | interface by interface, when all network rates are zero: nothing changed in total, or one counter lost more to resets than it gained |
| `Rates.HiddenReset` | container.go:224-231 | every counter of one interface falls to 0 and the rates show only what the other gained beyond that |
| `Rates.FalseReset` | container.go:224-231 | no counter falls and all rates are zero, the sum having passed 2^64 |
| `Text.SplitJoin` | cgroup.go:121 | splitting undoes joining |
| `Text.FieldsJoinThen` | netproto.go:80 | splitting at white space undoes joining with blanks, whatever blank space follows |
| `Text.ParseFormat` | container.go:795-803 | parsing undoes printing of every 64-bit unsigned number |
| `Text.ParseFormatInt` | netproto.go:98 | signed parsing undoes signed printing, and reports what does not fit in 64 bits |
| `Text.TrimPadded` | container_discover.go:198 | trimming takes off exactly the white space around a text |
| `Text.FieldsOfSpread` | cpu.go:441 | splitting at white space finds the tokens of a text however much of whatever kind is around them |

## Left out

- Files, sockets, subprocesses, HTTP, statfs and the runtime API: their contents and results are parameters.
- Timers and context cancellation: elapsed time is a given number, a cancelled context a given fact (in `Layer.LayerSize`, the check from which on it is cancelled).
- IEEE floating point: usages, rates and memory figures are exact reals, so rounding and NaN are not modelled.
- `Elapsed` and `GeneratedAt` of the dashboard, and what the panel builders make of a reading: a panel is its field and the reading it was built from.
- Directory trees that change while they are walked.
- The characters of a text are not encoded: byte offsets inside a multi-byte character and invalid UTF-8 do not occur.
- The pod UID of a container's cgroup path: a regular-expression match copied into a field.
- Container.Device naming, network, mounts, pids, pressure and the memory breakdown of a container: field copies, carried as one opaque value in `Containers.Stats`.
- `parseMeminfo`'s used and percentage figures: one formula each.
- `parseDiskStats`, pressure, temperatures, swap, system and network state parsers: single-pass field copies.
- `applyCgroupCPU` and the per-process CPU percentages: one formula each.
- Two failures of `collectContainers` before discovery: an unsupported unit, and a host without cgroups.
- `Processes.Report`: user names, command lines, open files and I/O counters are one given value per process.
- HTML rendering, SVG geometry and the build-test harness.
