/** What every step of the collector keeps, for every interleaving. */
module CollectorProof {
  import opened Outcomes
  import opened Collector
  import opened StringOrder

  // ---------- where readers stand ----------

  function LaunchedBy(m: MainPc): nat {
    match m
    case AddOne(i) => i
    case Go(i) => i
    case _ => TASKS
  }

  predicate Critical(pc: Pc) {
    pc.FailLoad? || pc.FailStore? || pc.FailUnlock? || pc.SharedWrite? || pc.SharedUnlock?
  }

  predicate Live(pc: Pc) {
    !pc.Idle? && !pc.Exited?
  }

  predicate Over(pc: Pc) {
    pc.GroupDone? || pc.Exited?
  }

  /** A reader is only ever on the branch its reading sends it to. */
  predicate OnItsBranch(o: Fates, t: Task, k: Script, pc: Pc) {
    match pc
    case FailLock => o.of(t).Failed?
    case FailLoad => o.of(t).Failed?
    case FailStore(_) => o.of(t).Failed?
    case FailUnlock => o.of(t).Failed?
    case SharedLock => o.of(t).Read? && k.slot.Some?
    case SharedWrite => o.of(t).Read? && k.slot.Some?
    case SharedUnlock => o.of(t).Read? && k.slot.Some?
    case PanelWrite(n) => o.of(t).Read? && n < |k.fields|
    case _ => true
  }

  predicate HasReported(o: Fates, t: Task, pc: Pc) {
    o.of(t).Failed? && (pc.FailUnlock? || Over(pc))
  }

  predicate HasSetSlot(o: Fates, t: Task, pc: Pc) {
    o.of(t).Read? && (pc.SharedUnlock? || pc.PanelWrite? || Over(pc))
  }

  predicate HasBuilt(o: Fates, t: Task, k: nat, pc: Pc) {
    o.of(t).Read? && ((pc.PanelWrite? && k < pc.k) || Over(pc))
  }

  // ---------- the invariant ----------

  ghost predicate Shape(o: Fates, s: State) {
    && TotalMaps(s)
    && (s.main.AddOne? || s.main.Go? ==> s.main.i < TASKS)
    && forall t: Task :: OnItsBranch(o, t, ScriptOf(t), s.pc[t]) && (s.pc[t].Idle? <==> Rank(t) >= LaunchedBy(s.main))
  }

  /** Mutual exclusion: the mutex is held by exactly the reader inside a critical section. */
  ghost predicate Exclusive(s: State)
    requires TotalMaps(s)
  {
    forall t: Task :: s.mutex == Some(t) <==> Critical(s.pc[t])
  }

  ghost function LiveSet(pc: map<Task, Pc>): set<Task> {
    set t | t in pc && Live(pc[t])
  }

  /** The wait group counts the live readers, and the one about to be launched. */
  ghost predicate Counted(s: State) {
    s.counter == |LiveSet(s.pc)| + if s.main.Go? then 1 else 0
  }

  /** No report is lost, made up or repeated, and a loaded list is still the current one. */
  ghost predicate Reported(o: Fates, s: State)
    requires TotalMaps(s)
  {
    && NoRepeats(s.problems)
    && (forall t: Task :: s.pc[t].FailStore? ==> s.pc[t].loaded == s.problems)
    && (forall t: Task :: HasReported(o, t, s.pc[t]) ==> ProblemOf(o, t) in s.problems)
    && (forall p :: p in s.problems ==> exists t: Task :: HasReported(o, t, s.pc[t]) && ProblemOf(o, t) == p)
  }

  ghost predicate SlotsRight(o: Fates, s: State)
    requires TotalMaps(s)
  {
    forall sl: Slot ::
      s.slots[sl] == if HasSetSlot(o, SlotOwner(sl), s.pc[SlotOwner(sl)]) then ReadingOf(o, SlotOwner(sl)) else ZERO
  }

  ghost predicate FieldRight(o: Fates, fields: map<Field, Panel>, pc: map<Task, Pc>, f: Field) {
    var t, k := Owner(f).0, Owner(f).1;
    t in pc && f in fields
    && fields[f] == if HasBuilt(o, t, k, pc[t]) then Built(f, ReadingOf(o, t)) else Unset
  }

  /** Every field holds what its one owner has put there so far. */
  ghost predicate FieldsRight(o: Fates, s: State)
    requires TotalMaps(s)
  {
    forall f: Field :: FieldRight(o, s.fields, s.pc, f)
  }

  predicate PastWait(m: MainPc) {
    m.Report? || m.SortProblems? || m.Returned?
  }

  ghost predicate MainRight(s: State)
    requires TotalMaps(s)
  {
    && (PastWait(s.main) ==> forall t: Task :: s.pc[t].Exited?)
    && s.container == (if s.main.SortProblems? || s.main.Returned?
         then ContainerOf(s.slots[CgMem], s.slots[CgCpuSlot], s.slots[HostMem], s.slots[HostCpu]) else None)
    && (s.main.Returned? ==>
          forall i, j | 0 <= i < j < |s.problems| :: !Less(s.problems[j].panel, s.problems[i].panel))
  }

  ghost predicate Inv(o: Fates, s: State) {
    && Shape(o, s) && Exclusive(s) && Counted(s) && Reported(o, s)
    && SlotsRight(o, s) && FieldsRight(o, s) && MainRight(s)
  }

  // ---------- it holds at the start and is kept ----------

  lemma InitInv(o: Fates, s: State)
    requires Init(s)
    ensures Inv(o, s)
  {
    assert LiveSet(s.pc) == {};
  }

  lemma ReaderFrame(o: Fates, s: State, t: Task, k: Script, s': State)
    requires TotalMaps(s) && ReaderStep(o, s, t, k) == Some(s')
    ensures TotalMaps(s') && s'.main == s.main && s'.container == s.container
    ensures s'.pc == s.pc[t := s'.pc[t]]
    ensures !s.pc[t].Idle? && !s'.pc[t].Idle? && !s.pc[t].Exited?
  {
  }

  lemma ReaderKeepsBranch(o: Fates, s: State, t: Task, k: Script, s': State)
    requires TotalMaps(s) && OnItsBranch(o, t, k, s.pc[t]) && ReaderStep(o, s, t, k) == Some(s')
    ensures t in s'.pc && OnItsBranch(o, t, k, s'.pc[t])
  {
  }

  lemma ReaderKeepsShape(o: Fates, s: State, t: Task, s': State)
    requires Shape(o, s) && Step(o, s, Reader(t), s')
    ensures Shape(o, s')
  {
    ReaderFrame(o, s, t, ScriptOf(t), s');
    ReaderKeepsBranch(o, s, t, ScriptOf(t), s');
  }

  lemma MainKeepsShape(o: Fates, s: State, s': State)
    requires Shape(o, s) && Step(o, s, Main, s')
    ensures Shape(o, s')
  {
    if s.main.Go? {
      forall t: Task ensures s'.pc[t].Idle? <==> Rank(t) >= LaunchedBy(s'.main) {
        RankDetermines(t, TaskAt(s.main.i));
      }
    }
  }

  lemma RankDetermines(t: Task, u: Task)
    ensures Rank(t) == Rank(u) <==> t == u
  {
  }

  lemma ReaderMutex(o: Fates, s: State, t: Task, k: Script, s': State)
    requires TotalMaps(s) && ReaderStep(o, s, t, k) == Some(s') && (s.mutex == Some(t) <==> Critical(s.pc[t]))
    ensures t in s'.pc && (s'.mutex == Some(t) <==> Critical(s'.pc[t]))
    ensures s'.mutex == s.mutex || s.mutex in {None, Some(t)}
    ensures s'.mutex == s.mutex || s'.mutex in {None, Some(t)}
  {
  }

  lemma ReaderKeepsExclusive(o: Fates, s: State, t: Task, s': State)
    requires Shape(o, s) && Exclusive(s) && Step(o, s, Reader(t), s')
    ensures TotalMaps(s') && Exclusive(s')
  {
    ReaderFrame(o, s, t, ScriptOf(t), s');
    ReaderMutex(o, s, t, ScriptOf(t), s');
  }

  lemma MainKeepsExclusive(o: Fates, s: State, s': State)
    requires Shape(o, s) && Exclusive(s) && Step(o, s, Main, s')
    ensures TotalMaps(s') && Exclusive(s')
  {
    if s.main.Go? {
      assert s.pc[TaskAt(s.main.i)].Idle?;
    }
  }

  lemma LiveAfter(pc: map<Task, Pc>, t: Task, next: Pc)
    requires t in pc
    ensures LiveSet(pc[t := next]) == if Live(next) then LiveSet(pc) + {t} else LiveSet(pc) - {t}
  {
  }

  lemma ReaderCounter(o: Fates, s: State, t: Task, k: Script, s': State)
    requires TotalMaps(s) && ReaderStep(o, s, t, k) == Some(s')
    ensures t in s'.pc && Live(s.pc[t])
    ensures s'.counter == s.counter - if Live(s'.pc[t]) then 0 else 1
  {
  }

  lemma ReaderKeepsCounted(o: Fates, s: State, t: Task, s': State)
    requires TotalMaps(s) && Counted(s) && Step(o, s, Reader(t), s')
    ensures Counted(s')
  {
    ReaderFrame(o, s, t, ScriptOf(t), s');
    ReaderCounter(o, s, t, ScriptOf(t), s');
    LiveAfter(s.pc, t, s'.pc[t]);
    assert t in LiveSet(s.pc);
  }

  lemma MainKeepsCounted(o: Fates, s: State, s': State)
    requires Shape(o, s) && Counted(s) && Step(o, s, Main, s')
    ensures Counted(s')
  {
    if s.main.Go? {
      assert s.pc[TaskAt(s.main.i)].Idle?;
      LiveAfter(s.pc, TaskAt(s.main.i), Start);
    }
  }

  lemma ReaderSlots(o: Fates, s: State, t: Task, k: Script, s': State)
    requires TotalMaps(s) && OnItsBranch(o, t, k, s.pc[t]) && ReaderStep(o, s, t, k) == Some(s')
    ensures t in s'.pc
    ensures k.slot.None? ==> s'.slots == s.slots
    ensures k.slot.Some? ==>
      var sl := k.slot.value;
      s'.slots == if HasSetSlot(o, t, s'.pc[t]) && !HasSetSlot(o, t, s.pc[t])
                  then s.slots[sl := ReadingOf(o, t)] else s.slots
    ensures HasSetSlot(o, t, s.pc[t]) ==> HasSetSlot(o, t, s'.pc[t])
  {
  }

  lemma SlotOwnerIs(t: Task, sl: Slot)
    ensures SlotOwner(sl) == t <==> SlotOf(t) == Some(sl)
  {
  }

  lemma ReaderKeepsSlots(o: Fates, s: State, t: Task, s': State)
    requires Shape(o, s) && SlotsRight(o, s) && Step(o, s, Reader(t), s')
    ensures TotalMaps(s') && SlotsRight(o, s')
  {
    ReaderFrame(o, s, t, ScriptOf(t), s');
    ReaderSlots(o, s, t, ScriptOf(t), s');
    forall sl: Slot
      ensures s'.slots[sl] ==
        if HasSetSlot(o, SlotOwner(sl), s'.pc[SlotOwner(sl)]) then ReadingOf(o, SlotOwner(sl)) else ZERO
    {
      SlotOwnerIs(t, sl);
    }
  }

  /** A reader assigns a field only when it is about to, and then it has built that one more. */
  lemma ReaderAssigns(o: Fates, s: State, t: Task, k: Script, s': State, n: nat)
    requires TotalMaps(s) && OnItsBranch(o, t, k, s.pc[t]) && ReaderStep(o, s, t, k) == Some(s')
    ensures t in s'.pc
    ensures !s.pc[t].PanelWrite? ==> s'.fields == s.fields
    ensures s.pc[t].PanelWrite? ==>
      s'.fields == s.fields[k.fields[s.pc[t].k] := Built(k.fields[s.pc[t].k], ReadingOf(o, t))]
    ensures n < |k.fields| ==>
      (HasBuilt(o, t, n, s'.pc[t]) <==> HasBuilt(o, t, n, s.pc[t]) || s.pc[t] == PanelWrite(n))
  {
  }

  lemma FieldAfter(fields: map<Field, Panel>, t: Task, k: nat, p: Panel, f: Field)
    requires k < |FieldsOf(t)| && f in fields
    ensures fields[FieldsOf(t)[k] := p][f] == if Owner(f) == (t, k) then p else fields[f]
  {
    OneWriterPerField(t, k, f);
  }

  lemma OwnerOwns(f: Field)
    ensures Owner(f).1 < |FieldsOf(Owner(f).0)| && FieldsOf(Owner(f).0)[Owner(f).1] == f
  {
    OneWriterPerField(Owner(f).0, Owner(f).1, f);
  }

  lemma ReaderKeepsField(o: Fates, s: State, t: Task, s': State, f: Field)
    requires Shape(o, s) && FieldRight(o, s.fields, s.pc, f) && Step(o, s, Reader(t), s')
    ensures FieldRight(o, s'.fields, s'.pc, f)
  {
    OwnerOwns(f);
    ReaderFrame(o, s, t, ScriptOf(t), s');
    var fields, fields', pc, pc' := s.fields, s'.fields, s.pc, s'.pc;
    ReaderAssigns(o, s, t, ScriptOf(t), s', Owner(f).1);
    if pc[t].PanelWrite? {
      FieldAfter(fields, t, pc[t].k, Built(FieldsOf(t)[pc[t].k], ReadingOf(o, t)), f);
    }
  }

  lemma ReaderKeepsFields(o: Fates, s: State, t: Task, s': State)
    requires Shape(o, s) && FieldsRight(o, s) && Step(o, s, Reader(t), s')
    ensures TotalMaps(s') && FieldsRight(o, s')
  {
    ReaderFrame(o, s, t, ScriptOf(t), s');
    forall f: Field ensures FieldRight(o, s'.fields, s'.pc, f) {
      assert FieldRight(o, s.fields, s.pc, f);
      ReaderKeepsField(o, s, t, s', f);
    }
  }

  lemma MainKeepsWrites(o: Fates, s: State, s': State)
    requires Shape(o, s) && SlotsRight(o, s) && FieldsRight(o, s) && Step(o, s, Main, s')
    ensures TotalMaps(s') && SlotsRight(o, s') && FieldsRight(o, s')
  {
    if s.main.Go? {
      assert s.pc[TaskAt(s.main.i)].Idle?;
    }
    forall f: Field ensures FieldRight(o, s'.fields, s'.pc, f) {
      assert FieldRight(o, s.fields, s.pc, f);
    }
  }

  /** Panel names are told apart by every reader having its own. */
  ghost predicate DistinctNames(o: Fates) {
    forall t: Task, u: Task :: o.name(t) == o.name(u) ==> t == u
  }

  lemma ReaderReports(o: Fates, s: State, t: Task, k: Script, s': State)
    requires TotalMaps(s) && OnItsBranch(o, t, k, s.pc[t]) && ReaderStep(o, s, t, k) == Some(s')
    ensures t in s'.pc
    ensures s.pc[t].FailStore? ==>
      s'.problems == s.pc[t].loaded + [ProblemOf(o, t)] && HasReported(o, t, s'.pc[t]) && !HasReported(o, t, s.pc[t])
    ensures !s.pc[t].FailStore? ==>
      s'.problems == s.problems && (HasReported(o, t, s'.pc[t]) <==> HasReported(o, t, s.pc[t]))
    ensures s'.pc[t].FailStore? ==> s'.pc[t].loaded == s.problems
  {
  }

  lemma ReaderKeepsReported(o: Fates, s: State, t: Task, s': State)
    requires DistinctNames(o) && Shape(o, s) && Exclusive(s) && Reported(o, s) && Step(o, s, Reader(t), s')
    ensures TotalMaps(s') && Reported(o, s')
  {
    ReaderFrame(o, s, t, ScriptOf(t), s');
    ReaderReports(o, s, t, ScriptOf(t), s');
    if s.pc[t].FailStore? {
      assert s.mutex == Some(t);
      assert ProblemOf(o, t) !in s.problems;
      assert s'.problems[|s.problems|] == ProblemOf(o, t);
      forall u: Task | s'.pc[u].FailStore? ensures u == t {
        assert Critical(s.pc[u]) || u == t;
      }
    }
    forall p | p in s'.problems ensures exists u: Task :: HasReported(o, u, s'.pc[u]) && ProblemOf(o, u) == p {
      if p in s.problems {
        var u: Task :| HasReported(o, u, s.pc[u]) && ProblemOf(o, u) == p;
        assert HasReported(o, u, s'.pc[u]);
      } else {
        assert HasReported(o, t, s'.pc[t]);
      }
    }
  }

  lemma SameElements<T(!new)>(a: seq<T>, b: seq<T>)
    requires multiset(a) == multiset(b)
    ensures forall x :: x in a <==> x in b
    ensures NoRepeats(a) ==> NoRepeats(b)
  {
    forall x ensures x in a <==> x in b {
      assert x in a <==> x in multiset(a);
      assert x in b <==> x in multiset(b);
    }
    if NoRepeats(a) {
      forall i, j | 0 <= i < j < |b| ensures b[i] != b[j] {
        if b[i] == b[j] {
          CountsTwice(b, i, j);
          CountsOnce(a, b[i]);
        }
      }
    }
  }

  lemma CountsTwice<T(!new)>(s: seq<T>, i: nat, j: nat)
    requires i < j < |s| && s[i] == s[j]
    ensures multiset(s)[s[i]] >= 2
  {
    assert s == s[..i] + [s[i]] + s[i + 1..j] + [s[j]] + s[j + 1..];
  }

  lemma {:induction false} CountsOnce<T(!new)>(s: seq<T>, x: T)
    requires NoRepeats(s)
    ensures multiset(s)[x] <= 1
  {
    if s == [] {
    } else {
      assert s == [s[0]] + s[1..];
      CountsOnce(s[1..], x);
      if x == s[0] {
        assert x !in s[1..];
      }
    }
  }

  lemma MainKeepsReported(o: Fates, s: State, s': State)
    requires Shape(o, s) && Reported(o, s) && MainRight(s) && Step(o, s, Main, s')
    ensures TotalMaps(s') && Reported(o, s')
  {
    match s.main
    case Go(i) =>
      assert s.pc[TaskAt(i)].Idle?;
      forall p | p in s'.problems ensures exists t: Task :: HasReported(o, t, s'.pc[t]) && ProblemOf(o, t) == p {
        var t: Task :| HasReported(o, t, s.pc[t]) && ProblemOf(o, t) == p;
        assert HasReported(o, t, s'.pc[t]);
      }
    case SortProblems =>
      SameElements(s.problems, s'.problems);
      SameElements(s'.problems, s.problems);
    case _ =>
  }

  lemma ReaderKeepsMain(o: Fates, s: State, t: Task, s': State)
    requires Shape(o, s) && MainRight(s) && Step(o, s, Reader(t), s')
    ensures TotalMaps(s') && MainRight(s')
  {
    ReaderFrame(o, s, t, ScriptOf(t), s');
    assert !PastWait(s.main);
  }

  /** Wait lets the launcher pass only when every reader is done. */
  lemma MainKeepsMain(o: Fates, s: State, s': State)
    requires Shape(o, s) && Counted(s) && MainRight(s) && Step(o, s, Main, s')
    ensures TotalMaps(s') && MainRight(s')
  {
    if s.main.Waiting? {
      assert LiveSet(s.pc) == {};
      forall t: Task ensures s.pc[t].Exited? {
        assert t !in LiveSet(s.pc);
      }
    }
  }

  lemma StepKeepsInv(o: Fates, s: State, a: Actor, s': State)
    requires DistinctNames(o) && Inv(o, s) && Step(o, s, a, s')
    ensures Inv(o, s')
  {
    match a
    case Main =>
      MainKeepsShape(o, s, s');
      MainKeepsExclusive(o, s, s');
      MainKeepsCounted(o, s, s');
      MainKeepsWrites(o, s, s');
      MainKeepsReported(o, s, s');
      MainKeepsMain(o, s, s');
    case Reader(t) =>
      ReaderKeepsShape(o, s, t, s');
      ReaderKeepsExclusive(o, s, t, s');
      ReaderKeepsCounted(o, s, t, s');
      ReaderKeepsSlots(o, s, t, s');
      ReaderKeepsFields(o, s, t, s');
      ReaderKeepsReported(o, s, t, s');
      ReaderKeepsMain(o, s, t, s');
  }
}
