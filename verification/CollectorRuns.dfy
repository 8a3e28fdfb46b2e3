/** Whole runs of the collector: what they end in, that they end, and that they do not race. */
module CollectorRuns {
  import opened Outcomes
  import opened StringOrder
  import opened Collector
  import opened CollectorProof

  lemma {:induction false} RunKeepsInv(o: Fates, run: seq<State>)
    requires DistinctNames(o) && IsRun(o, run)
    ensures Inv(o, run[|run| - 1])
  {
    var n := |run| - 1;
    if n == 0 {
      InitInv(o, run[0]);
    } else {
      var before := run[..n];
      assert IsRun(o, before) by {
        forall i | 0 <= i < n - 1 ensures Moves(o, before[i], before[i + 1]) {
          assert Moves(o, run[i], run[i + 1]);
        }
      }
      RunKeepsInv(o, before);
      MoveKeepsInv(o, run[n - 1], run[n]);
    }
  }

  lemma MoveKeepsInv(o: Fates, s: State, s': State)
    requires DistinctNames(o) && Inv(o, s) && Moves(o, s, s')
    ensures Inv(o, s')
  {
    if Step(o, s, Main, s') {
      StepKeepsInv(o, s, Main, s');
    } else {
      var t: Task :| Step(o, s, Reader(t), s');
      StepKeepsInv(o, s, Reader(t), s');
    }
  }

  /** At any point of any run: one reader at most is inside a critical section, the launcher is past
      the wait only when every reader has left, and a field is unset or as its owner builds it. */
  lemma AlwaysSafe(o: Fates, run: seq<State>, t: Task, u: Task, f: Field)
    requires DistinctNames(o) && IsRun(o, run)
    ensures var s := run[|run| - 1];
      && TotalMaps(s)
      && (Critical(s.pc[t]) && Critical(s.pc[u]) ==> t == u)
      && (PastWait(s.main) ==> s.pc[t].Exited?)
      && (s.fields[f] == Unset || s.fields[f] == Built(f, ReadingOf(o, Owner(f).0)))
  {
    var s := run[|run| - 1];
    RunKeepsInv(o, run);
    assert FieldRight(o, s.fields, s.pc, f);
    assert s.mutex == Some(t) <==> Critical(s.pc[t]);
    assert s.mutex == Some(u) <==> Critical(s.pc[u]);
  }

  // ---------- the outcome ----------

  /** A panel is built from its owner's reading, and left unset when that reading failed. */
  function FinalPanel(o: Fates, f: Field): Panel {
    match o.of(Owner(f).0)
    case Read(r) => Built(f, r)
    case Failed(_) => Unset
  }

  /** The reading a task handed over, nothing having been read when it failed. */
  ghost predicate HandedOver(o: Fates, t: Task, r: Reading) {
    match o.of(t)
    case Read(mine) => r == mine
    case Failed(_) => r == ZERO
  }

  ghost predicate FoundLimit(o: Fates, t: Task) {
    o.of(t).Read? && o.of(t).reading.limited
  }

  /** There is a container panel exactly when one of the two container-aware readings succeeded and
      found a limit, and it shows the four readings it is about. */
  ghost predicate IsContainerPanel(o: Fates, c: Option<ContainerPanel>) {
    && (c.Some? <==> FoundLimit(o, CgMemory) || FoundLimit(o, CgCpu))
    && (c.Some? ==>
          && HandedOver(o, CgMemory, c.value.cgMem) && HandedOver(o, CgCpu, c.value.cgCpu)
          && HandedOver(o, Memory, c.value.hostMem) && HandedOver(o, Cpu, c.value.hostCpu))
  }

  /** The dashboard the outcomes of the readings call for, time stamps aside. */
  ghost predicate IsExpected(o: Fates, s: State) {
    && TotalMaps(s)
    && (forall f: Field :: s.fields[f] == FinalPanel(o, f))
    && IsContainerPanel(o, s.container)
    && (forall p :: p in s.problems <==>
          exists t: Task :: o.of(t).Failed? && p == Problem(o.name(t), o.of(t).err))
    && StrictlySorted(s.problems)
  }

  ghost predicate StrictlySorted(ps: seq<Problem>) {
    forall i, j | 0 <= i < j < |ps| :: Less(ps[i].panel, ps[j].panel)
  }

  lemma ReturnedIsExpected(o: Fates, s: State)
    requires DistinctNames(o) && Inv(o, s) && s.main.Returned?
    ensures IsExpected(o, s)
  {
    forall f: Field ensures s.fields[f] == FinalPanel(o, f) {
      assert FieldRight(o, s.fields, s.pc, f);
      assert s.pc[Owner(f).0].Exited?;
    }
    forall p ensures p in s.problems <==>
      exists t: Task :: o.of(t).Failed? && p == Problem(o.name(t), o.of(t).err)
    {
      if p in s.problems {
        var t: Task :| HasReported(o, t, s.pc[t]) && ProblemOf(o, t) == p;
        assert o.of(t).Failed?;
      }
      forall t: Task | o.of(t).Failed? && p == Problem(o.name(t), o.of(t).err) ensures p in s.problems {
        assert HasReported(o, t, s.pc[t]) && ProblemOf(o, t) == p;
      }
    }
    forall i, j | 0 <= i < j < |s.problems| ensures Less(s.problems[i].panel, s.problems[j].panel) {
      var p, q := s.problems[i], s.problems[j];
      assert p in s.problems && q in s.problems;
      var t: Task :| HasReported(o, t, s.pc[t]) && ProblemOf(o, t) == p;
      var u: Task :| HasReported(o, u, s.pc[u]) && ProblemOf(o, u) == q;
      LessIsTotal(p.panel, q.panel);
    }
    ReturnedContainer(o, s);
  }

  lemma ReturnedContainer(o: Fates, s: State)
    requires Inv(o, s) && s.main.Returned?
    ensures IsContainerPanel(o, s.container)
  {
    forall sl: Slot ensures s.slots[sl] == ReadingOf(o, SlotOwner(sl)) {
      assert s.pc[SlotOwner(sl)].Exited?;
      SlotOwnerIs(SlotOwner(sl), sl);
    }
  }

  /** A strictly sorted list is determined by its elements. */
  lemma {:induction false} SortedIsUnique(a: seq<Problem>, b: seq<Problem>)
    requires StrictlySorted(a) && StrictlySorted(b)
    requires forall p :: p in a <==> p in b
    ensures a == b
  {
    NonEmptyTogether(a, b);
    NonEmptyTogether(b, a);
    if a == [] {
    } else {
      HeadsAgree(a, b);
      assert a == [a[0]] + a[1..] && b == [b[0]] + b[1..];
      LessIsAsymmetric(a[0].panel, a[0].panel);
      assert a[0] !in a[1..] && b[0] !in b[1..];
      forall p ensures p in a[1..] <==> p in b[1..] {
        assert p in a <==> p == a[0] || p in a[1..];
        assert p in b <==> p == b[0] || p in b[1..];
      }
      SortedIsUnique(a[1..], b[1..]);
    }
  }

  lemma NonEmptyTogether(a: seq<Problem>, b: seq<Problem>)
    requires forall p :: p in a ==> p in b
    ensures a != [] ==> b != []
  {
    if a != [] {
      assert a[0] in a;
    }
  }

  lemma HeadsAgree(a: seq<Problem>, b: seq<Problem>)
    requires a != [] && b != [] && StrictlySorted(a) && StrictlySorted(b)
    requires forall p :: p in a <==> p in b
    ensures a[0] == b[0]
  {
    assert a[0] in a && b[0] in b;
    var i :| 0 <= i < |b| && b[i] == a[0];
    var j :| 0 <= j < |a| && a[j] == b[0];
    LessIsAsymmetric(a[0].panel, b[0].panel);
  }

  /** What one render shows, `Elapsed` and `GeneratedAt` aside. */
  datatype Dashboard = Dashboard(fields: map<Field, Panel>, container: Option<ContainerPanel>, problems: seq<Problem>)

  function DashboardOf(s: State): Dashboard {
    Dashboard(s.fields, s.container, s.problems)
  }

  lemma ExpectedIsUnique(o: Fates, s1: State, s2: State)
    requires IsExpected(o, s1) && IsExpected(o, s2)
    ensures DashboardOf(s1) == DashboardOf(s2)
  {
    assert forall p :: p in s1.problems <==> p in s2.problems;
    SortedIsUnique(s1.problems, s2.problems);
    assert s1.fields == s2.fields;
  }

  /** A field shows the reading of the task it is about, or nothing when that failed. */
  ghost predicate Shows(o: Fates, s: State, f: Field, t: Task) {
    f in s.fields && s.fields[f] == match o.of(t) case Read(r) => Built(f, r) case Failed(_) => Unset
  }

  lemma OwnerShows(o: Fates, s: State, f: Field)
    requires IsExpected(o, s)
    ensures Shows(o, s, f, Owner(f).0)
  {
  }

  /** Which panel is about which reading. */
  ghost predicate PanelOf(f: Field, t: Task) {
    match f
    case HostPanel => t == System
    case CpuPanel => t == Cpu
    case MemoryPanel => t == Memory
    case SwapPanel => t == Swap
    case PressurePanel => t == Pressure
    case DiskPanels => t == Disks
    case DiskIOPanels => t == DiskIO
    case NetworkPanels => t == Networks
    case TcpPanel => t == Tcp
    case TempPanels => t == Temps
    case ProcessRows => t == Processes
    case ContainerCards => t == Containers
    case ContainersNote => t == Containers
  }

  lemma PanelsShowTheirReadings(o: Fates, run: seq<State>, f: Field, t: Task)
    requires DistinctNames(o) && IsRun(o, run) && run[|run| - 1].main.Returned? && PanelOf(f, t)
    ensures Shows(o, run[|run| - 1], f, t)
  {
    RunKeepsInv(o, run);
    ReturnedIsExpected(o, run[|run| - 1]);
    OwnerShows(o, run[|run| - 1], f);
  }

  /** The schedule does not matter: any two complete runs over the same outcomes return the same
      dashboard, and it is the expected one. */
  lemma ScheduleDoesNotMatter(o: Fates, run1: seq<State>, run2: seq<State>)
    requires DistinctNames(o) && IsRun(o, run1) && IsRun(o, run2)
    requires run1[|run1| - 1].main.Returned? && run2[|run2| - 1].main.Returned?
    ensures IsExpected(o, run1[|run1| - 1])
    ensures DashboardOf(run1[|run1| - 1]) == DashboardOf(run2[|run2| - 1])
  {
    var s1, s2 := run1[|run1| - 1], run2[|run2| - 1];
    RunKeepsInv(o, run1);
    RunKeepsInv(o, run2);
    ReturnedIsExpected(o, s1);
    ReturnedIsExpected(o, s2);
    ExpectedIsUnique(o, s1, s2);
  }

  /** The names the readers file failures under are all different. */
  lemma PanelNamesAreDistinct(t: Task, u: Task)
    ensures PanelName(t) == PanelName(u) ==> t == u
  {
    match t
    case System => assert PanelName(t)[1] == 'y';
    case Cpu => assert |PanelName(t)| == 3;
    case Memory => assert |PanelName(t)| == 6 && PanelName(t)[0] == 'M';
    case Swap => assert |PanelName(t)| == 4;
    case Pressure => assert |PanelName(t)| == 8 && PanelName(t)[0] == 'P';
    case Disks => assert |PanelName(t)| == 5;
    case DiskIO => assert |PanelName(t)| == 8 && PanelName(t)[0] == 'D';
    case Networks => assert |PanelName(t)| == 8 && PanelName(t)[0] == 'N';
    case Tcp => assert |PanelName(t)| == 10 && PanelName(t)[0] == 'T';
    case Temps => assert |PanelName(t)| == 12;
    case Processes => assert |PanelName(t)| == 9;
    case Containers => assert |PanelName(t)| == 10 && PanelName(t)[0] == 'C';
    case CgMemory => assert |PanelName(t)| == 24;
    case CgCpu => assert |PanelName(t)| == 21;
  }

  /** The collector as it is: its own panel names, any outcomes, any two schedules. */
  lemma CollectIsDeterministic(outcomes: Task -> Outcome, run1: seq<State>, run2: seq<State>)
    requires IsRun(Fates(outcomes, PanelName), run1) && IsRun(Fates(outcomes, PanelName), run2)
    requires run1[|run1| - 1].main.Returned? && run2[|run2| - 1].main.Returned?
    ensures IsExpected(Fates(outcomes, PanelName), run1[|run1| - 1])
    ensures DashboardOf(run1[|run1| - 1]) == DashboardOf(run2[|run2| - 1])
  {
    var o := Fates(outcomes, PanelName);
    assert DistinctNames(o) by {
      forall t: Task, u: Task ensures o.name(t) == o.name(u) ==> t == u {
        PanelNamesAreDistinct(t, u);
      }
    }
    ScheduleDoesNotMatter(o, run1, run2);
  }

  // ---------- runs end ----------

  /** How many steps a reader on its branch still has before it. */
  function StepsLeft(o: Fates, t: Task, k: Script, pc: Pc): nat {
    match pc
    case Idle => StepsOf(o, t, k)
    case Start => StepsOf(o, t, k)
    case FailLock => 5
    case FailLoad => 4
    case FailStore(_) => 3
    case FailUnlock => 2
    case SharedLock => 4 + |k.fields|
    case SharedWrite => 3 + |k.fields|
    case SharedUnlock => 2 + |k.fields|
    case PanelWrite(n) => if n < |k.fields| then |k.fields| - n + 1 else 0
    case GroupDone => 1
    case Exited => 0
  }

  /** All the steps of a reader: a failure takes six whatever the task. */
  function StepsOf(o: Fates, t: Task, k: Script): nat {
    if o.of(t).Failed? then 6 else (if k.slot.Some? then 5 else 2) + |k.fields|
  }

  function MainStepsLeft(m: MainPc): nat {
    match m
    case AddOne(i) => if i < TASKS then 2 * (TASKS - i) + 3 else 0
    case Go(i) => if i < TASKS then 2 * (TASKS - i) + 2 else 0
    case Waiting => 3
    case Report => 2
    case SortProblems => 1
    case Returned => 0
  }

  /** Over the first `n` readers. */
  function ReaderStepsLeft(o: Fates, pc: map<Task, Pc>, n: nat): nat
    requires n <= TASKS && forall t: Task :: t in pc
  {
    if n == 0 then 0
    else ReaderStepsLeft(o, pc, n - 1) + StepsLeft(o, TaskAt(n - 1), ScriptOf(TaskAt(n - 1)), pc[TaskAt(n - 1)])
  }

  function AllStepsLeft(o: Fates, s: State): nat
    requires forall t: Task :: t in s.pc
  {
    MainStepsLeft(s.main) + ReaderStepsLeft(o, s.pc, TASKS)
  }

  /** How many steps a whole collection takes: the launcher's, and each reader's. */
  function StepsInAll(o: Fates, n: nat): nat
    requires n <= TASKS
  {
    if n == 0 then 2 * TASKS + 3 else StepsInAll(o, n - 1) + StepsOf(o, TaskAt(n - 1), ScriptOf(TaskAt(n - 1)))
  }

  lemma {:induction false} StepsLeftAfter(o: Fates, pc: map<Task, Pc>, t: Task, next: Pc, n: nat)
    requires n <= TASKS && forall u: Task :: u in pc
    ensures ReaderStepsLeft(o, pc[t := next], n)
         == ReaderStepsLeft(o, pc, n)
            + if Rank(t) < n then StepsLeft(o, t, ScriptOf(t), next) - StepsLeft(o, t, ScriptOf(t), pc[t]) else 0
  {
    if n == 0 {
    } else {
      StepsLeftAfter(o, pc, t, next, n - 1);
      RankDetermines(t, TaskAt(n - 1));
    }
  }

  lemma ReaderProgresses(o: Fates, s: State, t: Task, k: Script, s': State)
    requires t in s.pc && OnItsBranch(o, t, k, s.pc[t]) && ReaderStep(o, s, t, k) == Some(s')
    ensures t in s'.pc && StepsLeft(o, t, k, s'.pc[t]) == StepsLeft(o, t, k, s.pc[t]) - 1
  {
  }

  lemma MoveProgresses(o: Fates, s: State, s': State)
    requires Shape(o, s) && Moves(o, s, s')
    ensures TotalMaps(s') && AllStepsLeft(o, s') == AllStepsLeft(o, s) - 1
  {
    if Step(o, s, Main, s') {
      MainKeepsShape(o, s, s');
      if s.main.Go? {
        StepsLeftAfter(o, s.pc, TaskAt(s.main.i), Start, TASKS);
        assert s.pc[TaskAt(s.main.i)].Idle?;
      }
    } else {
      var t: Task :| Step(o, s, Reader(t), s');
      ReaderFrame(o, s, t, ScriptOf(t), s');
      ReaderProgresses(o, s, t, ScriptOf(t), s');
      StepsLeftAfter(o, s.pc, t, s'.pc[t], TASKS);
    }
  }

  lemma {:induction false} InitialSteps(o: Fates, s: State, n: nat)
    requires Init(s) && n <= TASKS
    ensures 2 * TASKS + 3 + ReaderStepsLeft(o, s.pc, n) == StepsInAll(o, n) <= 2 * TASKS + 3 + 6 * n
  {
    if n == 0 {
    } else {
      InitialSteps(o, s, n - 1);
      AtMostSixSteps(o, TaskAt(n - 1));
    }
  }

  lemma AtMostSixSteps(o: Fates, t: Task)
    ensures StepsOf(o, t, ScriptOf(t)) <= 6
  {
  }

  lemma {:induction false} NothingLeft(o: Fates, pc: map<Task, Pc>, n: nat)
    requires n <= TASKS && forall t: Task :: t in pc && pc[t].Exited?
    ensures ReaderStepsLeft(o, pc, n) == 0
  {
    if n == 0 {
    } else {
      NothingLeft(o, pc, n - 1);
    }
  }

  /** No run goes on for ever: the steps taken and those to come are the same number throughout. */
  lemma {:induction false} StepsAreConserved(o: Fates, run: seq<State>)
    requires DistinctNames(o) && IsRun(o, run)
    ensures TotalMaps(run[|run| - 1]) && |run| - 1 + AllStepsLeft(o, run[|run| - 1]) == StepsInAll(o, TASKS)
  {
    var n := |run| - 1;
    if n == 0 {
      InitialSteps(o, run[0], TASKS);
    } else {
      var before := run[..n];
      assert IsRun(o, before) by {
        forall i | 0 <= i < n - 1 ensures Moves(o, before[i], before[i + 1]) {
          assert Moves(o, run[i], run[i + 1]);
        }
      }
      StepsAreConserved(o, before);
      RunKeepsInv(o, before);
      MoveProgresses(o, run[n - 1], run[n]);
    }
  }

  /** Every schedule takes the same number of steps to return, at most 115, and none takes more. */
  lemma RunsEnd(o: Fates, run: seq<State>)
    requires DistinctNames(o) && IsRun(o, run)
    ensures |run| - 1 <= StepsInAll(o, TASKS) <= 115
    ensures run[|run| - 1].main.Returned? <==> |run| - 1 == StepsInAll(o, TASKS)
  {
    var s := run[|run| - 1];
    InitialSteps(o, run[0], TASKS);
    StepsAreConserved(o, run);
    RunKeepsInv(o, run);
    if s.main.Returned? {
      NothingLeft(o, s.pc, TASKS);
    } else {
      assert MainStepsLeft(s.main) > 0;
    }
  }

  /** No run gets stuck: short of the end, some goroutine can move. With RunsEnd, every schedule
      that keeps going returns. */
  lemma NoDeadlock(o: Fates, run: seq<State>) returns (s': State)
    requires DistinctNames(o) && IsRun(o, run) && !run[|run| - 1].main.Returned?
    ensures IsRun(o, run + [s'])
  {
    var s := run[|run| - 1];
    RunKeepsInv(o, run);
    s' := SomeoneMoves(o, s);
    forall i | 0 <= i < |run| ensures Moves(o, (run + [s'])[i], (run + [s'])[i + 1]) {
      if i < |run| - 1 {
        assert Moves(o, run[i], run[i + 1]);
      }
    }
  }

  lemma SomeoneMoves(o: Fates, s: State) returns (s': State)
    requires Inv(o, s) && !s.main.Returned?
    ensures Moves(o, s, s')
  {
    if s.main.Waiting? && s.counter != 0 {
      var t :| t in LiveSet(s.pc);
      s' := SomeReaderMoves(o, s, t);
    } else {
      s' := MainMoves(s);
      assert Step(o, s, Main, s');
    }
  }

  lemma MainMoves(s: State) returns (s': State)
    requires TotalMaps(s) && !s.main.Returned? && (s.main.Waiting? ==> s.counter == 0)
    requires s.main.AddOne? || s.main.Go? ==> s.main.i < TASKS
    ensures MainStep(s, s')
  {
    match s.main
    case AddOne(i) =>
      s' := s.(counter := s.counter + 1, main := Go(i));
    case Go(i) =>
      s' := s.(pc := s.pc[TaskAt(i) := Start], main := if i + 1 < TASKS then AddOne(i + 1) else Waiting);
    case Waiting =>
      s' := s.(main := Report);
    case Report =>
      s' := s.(main := SortProblems,
               container := ContainerOf(s.slots[CgMem], s.slots[CgCpuSlot], s.slots[HostMem], s.slots[HostCpu]));
    case SortProblems =>
      var sorted := SortExists(s.problems);
      s' := s.(problems := sorted, main := Returned);
  }

  lemma SomeReaderMoves(o: Fates, s: State, t: Task) returns (s': State)
    requires Shape(o, s) && Exclusive(s) && Live(s.pc[t])
    ensures Moves(o, s, s')
  {
    var u := if s.mutex.Some? then s.mutex.value else t;
    assert Critical(s.pc[u]) || s.mutex == None;
    assert OnItsBranch(o, u, ScriptOf(u), s.pc[u]);
    ReaderMoves(o, s, u, ScriptOf(u));
    s' := ReaderStep(o, s, u, ScriptOf(u)).value;
    assert Step(o, s, Reader(u), s');
  }

  lemma ReaderMoves(o: Fates, s: State, t: Task, k: Script)
    requires t in s.pc && OnItsBranch(o, t, k, s.pc[t]) && Live(s.pc[t]) && (Critical(s.pc[t]) || s.mutex == None)
    ensures ReaderStep(o, s, t, k).Some?
  {
  }

  lemma {:induction false} SortExists(ps: seq<Problem>) returns (sorted: seq<Problem>)
    ensures IsSortOf(sorted, ps)
  {
    if ps == [] {
      sorted := [];
    } else {
      var rest := SortExists(ps[1..]);
      sorted := Insert(ps[0], rest);
      assert ps == [ps[0]] + ps[1..];
    }
  }

  lemma {:induction false} Insert(p: Problem, ps: seq<Problem>) returns (sorted: seq<Problem>)
    requires forall i, j | 0 <= i < j < |ps| :: !Less(ps[j].panel, ps[i].panel)
    ensures multiset(sorted) == multiset([p] + ps)
    ensures forall i, j | 0 <= i < j < |sorted| :: !Less(sorted[j].panel, sorted[i].panel)
  {
    if ps == [] || !Less(ps[0].panel, p.panel) {
      sorted := [p] + ps;
      forall j | 0 < j < |sorted| ensures !Less(sorted[j].panel, p.panel) {
        NotLessIsTransitive(sorted[j].panel, ps[0].panel, p.panel);
      }
    } else {
      var rest := Insert(p, ps[1..]);
      sorted := [ps[0]] + rest;
      assert ps == [ps[0]] + ps[1..];
      forall j | 0 < j < |sorted| ensures !Less(sorted[j].panel, ps[0].panel) {
        assert sorted[j] in multiset(rest);
        assert sorted[j] in [p] + ps[1..];
        LessIsAsymmetric(ps[0].panel, p.panel);
      }
    }
  }

  lemma NotLessIsTransitive(a: string, b: string, c: string)
    requires !Less(a, b) && !Less(b, c)
    ensures !Less(a, c)
  {
    if Less(a, c) {
      LessIsTotal(a, b);
      LessIsTotal(b, c);
      if Less(b, a) {
        LessIsTransitive(b, a, c);
      }
    }
  }

  // ---------- no data race ----------

  /** The memory goroutines share. */
  datatype Location = ProblemList | SlotVar(slot: Slot) | FieldVar(f: Field) | ContainerVar

  /** What a goroutine's next step reads or writes. */
  ghost predicate Touches(s: State, a: Actor, l: Location)
    requires TotalMaps(s)
  {
    match a
    case Reader(t) =>
      (match s.pc[t]
       case FailLoad => l == ProblemList
       case FailStore(_) => l == ProblemList
       case SharedWrite => SlotOf(t).Some? && l == SlotVar(SlotOf(t).value)
       case PanelWrite(k) => k < |FieldsOf(t)| && l == FieldVar(FieldsOf(t)[k])
       case _ => false)
    case Main =>
      (match s.main
       case Report => l.SlotVar? || l.ContainerVar?
       case SortProblems => l == ProblemList
       case Returned => true
       case _ => false)
  }

  /** However a run got where it is, no two goroutines are about to touch the same location. */
  lemma NoDataRace(o: Fates, run: seq<State>, a: Actor, b: Actor, l: Location)
    requires DistinctNames(o) && IsRun(o, run) && a != b
    ensures var s := run[|run| - 1];
      TotalMaps(s) && !(Touches(s, a, l) && Touches(s, b, l))
  {
    var s := run[|run| - 1];
    RunKeepsInv(o, run);
    match (a, b)
    case (Reader(t), Reader(u)) => ReadersDoNotRace(o, s, t, u, l);
    case (Main, Reader(u)) =>
    case (Reader(t), Main) =>
    case (Main, Main) =>
  }

  lemma ReadersDoNotRace(o: Fates, s: State, t: Task, u: Task, l: Location)
    requires Shape(o, s) && Exclusive(s) && t != u
    ensures !(Touches(s, Reader(t), l) && Touches(s, Reader(u), l))
  {
    assert !(Critical(s.pc[t]) && Critical(s.pc[u]));
    if s.pc[t].PanelWrite? && s.pc[u].PanelWrite? && l.FieldVar? {
      OneWriterPerField(t, s.pc[t].k, l.f);
      OneWriterPerField(u, s.pc[u].k, l.f);
    }
  }
}
