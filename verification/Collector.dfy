/** The dashboard collector: fourteen readers running concurrently, a mutex, a wait group, and
    one goroutine that launches, waits and assembles. Every step of every goroutine is a
    transition; nothing is assumed about how the scheduler interleaves them. */
module Collector {
  import opened Outcomes
  import opened StringOrder

  datatype Task = System | Cpu | Memory | Swap | Pressure | Disks | DiskIO | Networks
                | Tcp | Temps | Processes | Containers | CgMemory | CgCpu

  const TASKS := 14

  /** Launch order. */
  function Rank(t: Task): (r: nat)
    ensures r < TASKS
  {
    match t
    case System => 0 case Cpu => 1 case Memory => 2 case Swap => 3 case Pressure => 4
    case Disks => 5 case DiskIO => 6 case Networks => 7 case Tcp => 8 case Temps => 9
    case Processes => 10 case Containers => 11 case CgMemory => 12 case CgCpu => 13
  }

  function TaskAt(r: nat): (t: Task)
    requires r < TASKS
    ensures Rank(t) == r
  {
    match r
    case 0 => System case 1 => Cpu case 2 => Memory case 3 => Swap case 4 => Pressure
    case 5 => Disks case 6 => DiskIO case 7 => Networks case 8 => Tcp case 9 => Temps
    case 10 => Processes case 11 => Containers case 12 => CgMemory case _ => CgCpu
  }

  /** The panel a task reports its failure under. */
  function PanelName(t: Task): string {
    match t
    case System => "System" case Cpu => "CPU" case Memory => "Memory" case Swap => "Swap"
    case Pressure => "Pressure" case Disks => "Disks" case DiskIO => "Disk I/O"
    case Networks => "Networks" case Tcp => "TCP states" case Temps => "Temperatures"
    case Processes => "Processes" case Containers => "Containers"
    case CgMemory => "Memory (container-aware)" case CgCpu => "CPU (container-aware)"
  }

  /** The fields of the dashboard. */
  datatype Field = HostPanel | CpuPanel | MemoryPanel | SwapPanel | PressurePanel | DiskPanels
                 | DiskIOPanels | NetworkPanels | TcpPanel | TempPanels | ProcessRows
                 | ContainerCards | ContainersNote

  /** The fields a task assigns when its reading succeeds, in order. */
  function FieldsOf(t: Task): seq<Field> {
    match t
    case System => [HostPanel] case Cpu => [CpuPanel] case Memory => [MemoryPanel]
    case Swap => [SwapPanel] case Pressure => [PressurePanel] case Disks => [DiskPanels]
    case DiskIO => [DiskIOPanels] case Networks => [NetworkPanels] case Tcp => [TcpPanel]
    case Temps => [TempPanels] case Processes => [ProcessRows]
    case Containers => [ContainerCards, ContainersNote]
    case CgMemory => [] case CgCpu => []
  }

  /** The one task that assigns a field, and which of its assignments that is. */
  function Owner(f: Field): (Task, nat) {
    match f
    case HostPanel => (System, 0) case CpuPanel => (Cpu, 0) case MemoryPanel => (Memory, 0)
    case SwapPanel => (Swap, 0) case PressurePanel => (Pressure, 0) case DiskPanels => (Disks, 0)
    case DiskIOPanels => (DiskIO, 0) case NetworkPanels => (Networks, 0) case TcpPanel => (Tcp, 0)
    case TempPanels => (Temps, 0) case ProcessRows => (Processes, 0)
    case ContainerCards => (Containers, 0) case ContainersNote => (Containers, 1)
  }

  lemma OneWriterPerField(t: Task, k: nat, f: Field)
    ensures k < |FieldsOf(t)| && FieldsOf(t)[k] == f <==> Owner(f) == (t, k)
  {
  }

  /** The variables beside the dashboard that tasks hand readings over in. */
  datatype Slot = HostCpu | HostMem | CgMem | CgCpuSlot

  function SlotOf(t: Task): Option<Slot> {
    match t
    case Cpu => Some(HostCpu) case Memory => Some(HostMem)
    case CgMemory => Some(CgMem) case CgCpu => Some(CgCpuSlot)
    case _ => None
  }

  /** What a task does with a good reading: the variable it hands it over in, if any, and the
      fields it assigns. */
  datatype Script = Script(slot: Option<Slot>, fields: seq<Field>)

  function ScriptOf(t: Task): Script {
    Script(SlotOf(t), FieldsOf(t))
  }

  function SlotOwner(sl: Slot): Task {
    match sl case HostCpu => Cpu case HostMem => Memory case CgMem => CgMemory case CgCpuSlot => CgCpu
  }

  /** What a reader returned; `limited` matters to the container panel only. */
  datatype Reading = Reading(limited: bool, figures: string)

  const ZERO := Reading(false, "")

  datatype Outcome = Failed(err: string) | Read(reading: Reading)

  datatype Problem = Problem(panel: string, err: string)

  datatype Panel = Unset | Built(f: Field, from: Reading)

  datatype ContainerPanel = ContainerPanel(cgMem: Reading, cgCpu: Reading, hostMem: Reading, hostCpu: Reading)

  /** Where a reader stands. `FailStore` holds the list it loaded in order to append to it. */
  datatype Pc = Idle | Start
              | FailLock | FailLoad | FailStore(loaded: seq<Problem>) | FailUnlock
              | SharedLock | SharedWrite | SharedUnlock
              | PanelWrite(k: nat)
              | GroupDone | Exited

  /** Where the launching goroutine stands. */
  datatype MainPc = AddOne(i: nat) | Go(i: nat) | Waiting | Report | SortProblems | Returned

  datatype State = State(
    main: MainPc,
    counter: int,
    mutex: Option<Task>,
    pc: map<Task, Pc>,
    problems: seq<Problem>,
    slots: map<Slot, Reading>,
    fields: map<Field, Panel>,
    container: Option<ContainerPanel>)

  /** How every reader turns out - fixed, and unknown - and what its failures are filed under
      (`PanelName`, at work). */
  datatype Fates = Fates(of: Task -> Outcome, name: Task -> string)

  datatype Actor = Main | Reader(t: Task)

  ghost predicate Init(s: State) {
    && s.main == AddOne(0) && s.counter == 0 && s.mutex == None
    && (forall t: Task :: t in s.pc && s.pc[t] == Idle)
    && s.problems == []
    && (forall sl: Slot :: sl in s.slots && s.slots[sl] == ZERO)
    && (forall f: Field :: f in s.fields && s.fields[f] == Unset)
    && s.container == None
  }

  ghost predicate TotalMaps(s: State) {
    && (forall t: Task :: t in s.pc)
    && (forall sl: Slot :: sl in s.slots)
    && (forall f: Field :: f in s.fields)
  }

  // ---------- steps ----------

  function ProblemOf(o: Fates, t: Task): Problem {
    Problem(o.name(t), match o.of(t) case Failed(e) => e case Read(_) => "")
  }

  function ReadingOf(o: Fates, t: Task): Reading {
    match o.of(t) case Read(r) => r case Failed(_) => ZERO
  }

  function AfterSlot(k: Script): Pc {
    if k.fields == [] then GroupDone else PanelWrite(0)
  }

  /** Where a reader goes once its reading is in. */
  function AfterStart(o: Fates, t: Task, k: Script): Pc {
    if o.of(t).Failed? then FailLock
    else if k.slot.Some? then SharedLock
    else AfterSlot(k)
  }

  /** Where a reader's next step takes it. Appending to the problem list is two steps: the list is
      loaded, and later the longer one stored. */
  function NextPc(o: Fates, t: Task, k: Script, pc: Pc, problems: seq<Problem>): Pc {
    match pc
    case Idle => Idle
    case Start => AfterStart(o, t, k)
    case FailLock => FailLoad
    case FailLoad => FailStore(problems)
    case FailStore(_) => FailUnlock
    case FailUnlock => GroupDone
    case SharedLock => SharedWrite
    case SharedWrite => SharedUnlock
    case SharedUnlock => AfterSlot(k)
    case PanelWrite(n) => if n + 1 < |k.fields| then PanelWrite(n + 1) else GroupDone
    case GroupDone => Exited
    case Exited => Exited
  }

  /** There is a next step, and it does not have to wait for the mutex. */
  predicate CanStep(k: Script, pc: Pc, mutex: Option<Task>) {
    match pc
    case Idle => false
    case FailLock => mutex == None
    case SharedLock => mutex == None
    case SharedWrite => k.slot.Some?
    case PanelWrite(n) => n < |k.fields|
    case Exited => false
    case _ => true
  }

  function MutexAfter(t: Task, pc: Pc, mutex: Option<Task>): Option<Task> {
    if pc.FailLock? || pc.SharedLock? then Some(t)
    else if pc.FailUnlock? || pc.SharedUnlock? then None
    else mutex
  }

  /** One step of a reader, None when it has none for now. */
  function ReaderStep(o: Fates, s: State, t: Task, k: Script): Option<State>
    requires t in s.pc
  {
    var pc := s.pc[t];
    if !CanStep(k, pc, s.mutex) then None
    else Some(s.(
      pc := s.pc[t := NextPc(o, t, k, pc, s.problems)],
      mutex := MutexAfter(t, pc, s.mutex),
      problems := if pc.FailStore? then pc.loaded + [ProblemOf(o, t)] else s.problems,
      slots := if pc.SharedWrite? then s.slots[k.slot.value := ReadingOf(o, t)] else s.slots,
      fields := if pc.PanelWrite? then s.fields[k.fields[pc.k] := Built(k.fields[pc.k], ReadingOf(o, t))] else s.fields,
      counter := if pc.GroupDone? then s.counter - 1 else s.counter))
  }

  /** What `buildContainerPanel` is given, if a limit was found. */
  function ContainerOf(cgMem: Reading, cgCpu: Reading, hostMem: Reading, hostCpu: Reading): Option<ContainerPanel> {
    if cgMem.limited || cgCpu.limited then Some(ContainerPanel(cgMem, cgCpu, hostMem, hostCpu)) else None
  }

  /** What `sort.Slice` leaves behind: a permutation without an inversion. It is not stable, so
      nothing is said about equal elements. */
  ghost predicate IsSortOf(sorted: seq<Problem>, unsorted: seq<Problem>) {
    && multiset(sorted) == multiset(unsorted)
    && forall i, j | 0 <= i < j < |sorted| :: !Less(sorted[j].panel, sorted[i].panel)
  }

  ghost predicate MainStep(s: State, s': State)
    requires TotalMaps(s)
  {
    match s.main
    case AddOne(i) => i < TASKS && s' == s.(counter := s.counter + 1, main := Go(i))
    case Go(i) =>
      i < TASKS && s' == s.(pc := s.pc[TaskAt(i) := Start], main := if i + 1 < TASKS then AddOne(i + 1) else Waiting)
    case Waiting => s.counter == 0 && s' == s.(main := Report)
    case Report =>
      s' == s.(main := SortProblems,
               container := ContainerOf(s.slots[CgMem], s.slots[CgCpuSlot], s.slots[HostMem], s.slots[HostCpu]))
    case SortProblems => IsSortOf(s'.problems, s.problems) && s' == s.(problems := s'.problems, main := Returned)
    case Returned => false
  }

  ghost predicate Step(o: Fates, s: State, a: Actor, s': State)
    requires TotalMaps(s)
  {
    match a
    case Main => MainStep(s, s')
    case Reader(t) => ReaderStep(o, s, t, ScriptOf(t)) == Some(s')
  }

  /** Some goroutine takes a step. */
  ghost predicate Moves(o: Fates, s: State, s': State) {
    && TotalMaps(s)
    && (Step(o, s, Main, s') || exists t: Task :: Step(o, s, Reader(t), s'))
  }

  /** A run from the start, under any scheduling whatsoever. */
  ghost predicate IsRun(o: Fates, run: seq<State>) {
    && run != [] && Init(run[0])
    && forall i | 0 <= i < |run| - 1 :: Moves(o, run[i], run[i + 1])
  }
}
