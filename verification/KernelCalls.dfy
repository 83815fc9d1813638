/** The calls of thread.c that consist of several sections, or that look at a thread before they disable interrupts:
    what others may do in between, and exactly when the lists survive it. */
module KernelCalls {
  import opened Lists
  import opened Runs
  import opened WaitList
  import opened KernelSpec
  import opened KernelRuns

  /** Whether the step is part of a call that starts, suspends, resumes or deletes thread `id`. */
  predicate Targets(op: Op, id: nat) {
    match op
    case DoMark(x) => x == id
    case DoSuspendNow(x) => x == id
    case DoTakeOff(x) => x == id
    case DoPutBack(x) => x == id
    case DoRemove(x) => x == id
    case DoDetach(x) => x == id
    case DoBury(x) => x == id
    case DoDelete(x) => x == id
    case _ => false
  }

  /** What may happen while a call on thread `id` is under way: any section of any other call, any timer, and changes of
      the priority of the thread itself, as when others want a mutex it owns; but no second call on the thread. */
  function Others(id: nat): (State, Op) -> bool {
    (s: State, op: Op) => Legal(s, op) && !Targets(op, id)
  }

  /** Every node is on the one list it says, and a ready thread that nobody deletes is on its ready list. */
  ghost predicate Orderly(s: State) {
    && Placed(s)
    && forall id :: id in s.threads ==> InOrder(s.threads[id])
  }

  predicate InOrder(t: Thread) {
    t.stat == Ready && (t.stage.Whole? || t.stage.Resuming?) ==> t.node == OnReady(t.prio)
  }

  lemma InvOrderly(s: State)
    requires Inv(s)
    ensures Orderly(s)
  {
    forall id | id in s.threads
      ensures InOrder(s.threads[id])
    {
      assert Sound(s.threads[id]);
    }
  }

  // ---------------------------------------------------------------- rt_thread_delete

  predicate ChangesPriority(op: Op, id: nat) {
    op.DoSetPriority? && op.id == id
  }

  /** What may happen while rt_thread_delete of thread `id` is under way; `wanted` says whether others may change the
      thread's priority, which they do by rt_mutex_take if it owns a mutex. They then do so in whatever state it is. */
  predicate Meddles(s: State, op: Op, id: nat, wanted: bool) {
    if ChangesPriority(op, id) then wanted && Known(s, id) && op.p < RT_THREAD_PRIORITY_MAX
    else Legal(s, op) && !Targets(op, id)
  }

  function Meddling(id: nat, wanted: bool): (State, Op) -> bool {
    (s: State, op: Op) => Meddles(s, op, id, wanted)
  }

  /** Run, with changes of priority that no rule restricts. */
  function Act(s: State, op: Op): State {
    if op.DoSetPriority? && Known(s, op.id) then SetPriority(s, op.id, op.p) else Run(s, op)
  }

  /** Whatever happens between the three sections of rt_thread_delete, the lists are in order at each of them. */
  ghost predicate SafeDelete(s: State, id: nat, wanted: bool)
    requires id in s.threads
  {
    forall a, t, b, u ::
      && Reaches(Meddling(id, wanted), Act, Remove(s, id), a, t) && id in t.threads
      && Reaches(Meddling(id, wanted), Act, Detach(t, id), b, u) && id in u.threads
      ==> Orderly(t) && Orderly(u) && Orderly(Bury(u, id))
  }

  /** A thread half-way through a call stays there until the call goes on. */
  lemma StageStays(s: State, op: Op, id: nat)
    requires Inv(s) && Legal(s, op) && !Targets(op, id) && id in s.threads && !s.threads[id].stage.Whole?
    ensures id in Step(s, op).threads
    ensures Step(s, op).threads[id].stage == s.threads[id].stage && Step(s, op).threads[id].stat == s.threads[id].stat
  {
    StepTouches(s, op);
    assert Sound(s.threads[id]);
    if op.DoRelease? && s.sems[op.sem].waiters != [] { FirstWaiter(s, op.sem); }
    if id == Touched(s, op) { BecomesStaged(s, op, s.threads[id]); }
  }

  lemma BecomesStaged(s: State, op: Op, t: Thread)
    requires Legal(s, op) && Sound(t) && !t.stage.Whole? && Touched(s, op) in s.threads && t == s.threads[Touched(s, op)]
    requires !Targets(op, Touched(s, op)) && !(op.DoRelease? && op.sem in s.sems && s.sems[op.sem].waiters != [])
    ensures Becomes(s, op, t).stage == t.stage && Becomes(s, op, t).stat == t.stat
  {
  }

  lemma RunStageStays(s: State, ops: seq<Op>, t: State, id: nat)
    requires Inv(s) && Awaits(s) && id in s.threads && !s.threads[id].stage.Whole?
    requires Reaches(Others(id), Run, s, ops, t)
    ensures Inv(t) && Awaits(t) && id in t.threads && t.threads[id].stage == s.threads[id].stage
  {
    var stage := s.threads[id].stage;
    var inv := (x: State) => Inv(x) && Awaits(x) && id in x.threads && x.threads[id].stage == stage;
    forall x: State, op: Op | inv(x) && Others(id)(x, op)
      ensures inv(Run(x, op))
    {
      StepInv(x, op);
      StageStays(x, op, id);
    }
    RunKeeps(inv, Others(id), Run, s, ops, t);
  }

  /** Thread `id` is between the sections of rt_thread_delete, and is not ready if its priority may change. */
  ghost predicate Leaving(s: State, id: nat, stage: Stage, wanted: bool) {
    && Inv(s) && Awaits(s) && id in s.threads && s.threads[id].stage == stage && (stage.Removed? || stage.Detached?)
    && (wanted ==> s.threads[id].stat != Ready)
  }

  lemma LeavingStays(s: State, op: Op, id: nat, stage: Stage, wanted: bool)
    requires Leaving(s, id, stage, wanted) && Meddles(s, op, id, wanted)
    ensures Leaving(Act(s, op), id, stage, wanted)
  {
    assert Legal(s, op) && !Targets(op, id);
    assert Act(s, op) == Run(s, op) == Step(s, op);
    StepInv(s, op);
    StageStays(s, op, id);
  }

  lemma RunLeavingStays(s: State, ops: seq<Op>, t: State, id: nat, stage: Stage, wanted: bool)
    requires Leaving(s, id, stage, wanted) && Reaches(Meddling(id, wanted), Act, s, ops, t)
    ensures Leaving(t, id, stage, wanted)
  {
    var inv := (x: State) => Leaving(x, id, stage, wanted);
    forall x: State, op: Op | inv(x) && Meddling(id, wanted)(x, op)
      ensures inv(Act(x, op))
    {
      assert Meddles(x, op, id, wanted);
      LeavingStays(x, op, id, stage, wanted);
    }
    RunKeeps(inv, Meddling(id, wanted), Act, s, ops, t);
  }

  /** A timer that fires puts its thread on the ready list. */
  lemma FiresOnto(s: State, id: nat)
    requires Placed(s) && id in s.threads && s.threads[id].wait == NoWait && s.threads[id].prio < |s.ready|
    ensures var (t, p) := (Timeout(s, id), s.threads[id].prio);
      id in t.threads && p < |t.ready| && id in t.ready[p]
  {
    var p := s.threads[id].prio;
    var v := s.threads[id].(error := Etimeout, armed := false);
    SetPlaced(s, id, v);
    WakeIs(Set(s, id, v), id);
    assert Holds(Fired(s, id), OnReady(p)) && id in Queue(Fired(s, id), OnReady(p));
  }

  /** If the timer of the thread fires after rt_schedule_remove_thread, the thread becomes ready. */
  lemma FiresRemoved(s: State, id: nat)
    requires Inv(s) && Deletable(s, id) && s.threads[id].armed
    ensures var (r, p) := (Remove(s, id), s.threads[id].prio);
      && Legal(r, DoTimeout(id)) && id in Timeout(r, id).threads
      && p < |Timeout(r, id).ready| && id in Timeout(r, id).ready[p]
  {
    assert Sound(s.threads[id]);
    RemoveIs(s, id);
    FiresOnto(Remove(s, id), id);
  }

  /** The thread then ends up on two lists. */
  lemma DeleteRace(s: State, id: nat)
    requires Inv(s) && Deletable(s, id) && s.threads[id].armed
    ensures Legal(Remove(s, id), DoTimeout(id))
    ensures var t := Timeout(Remove(s, id), id);
      && id in t.threads && id in Detach(t, id).threads
      && id in Queue(Bury(Detach(t, id), id), OnReady(s.threads[id].prio))
      && id in Queue(Bury(Detach(t, id), id), OnDefunct)
  {
    FiresRemoved(s, id);
    var d := Detach(Timeout(Remove(s, id), id), id);
    assert ([id] + d.defunct)[0] == id;
  }

  /** If the priority of a ready thread is changed after rt_schedule_remove_thread, the thread goes back to a ready list
      and ends up on two lists. */
  lemma DeletePriorityRace(s: State, id: nat, p: nat)
    requires Inv(s) && Deletable(s, id) && s.threads[id].stat == Ready && p < RT_THREAD_PRIORITY_MAX
    ensures Known(Remove(s, id), id)
    ensures var t := SetPriority(Remove(s, id), id, p);
      && id in t.threads && id in Detach(t, id).threads
      && id in Queue(Bury(Detach(t, id), id), OnReady(p)) && id in Queue(Bury(Detach(t, id), id), OnDefunct)
  {
    RemoveIs(s, id);
    PutsBack(Remove(s, id), id, p);
    var d := Detach(SetPriority(Remove(s, id), id, p), id);
    assert ([id] + d.defunct)[0] == id;
  }

  lemma PutsBack(r: State, id: nat, p: nat)
    requires Placed(r) && id in r.threads && r.threads[id].stat == Ready && r.threads[id].node == Nowhere && p < |r.ready|
    ensures var t := SetPriority(r, id, p); id in t.threads && p < |t.ready| && id in t.ready[p]
  {
    var q := r.threads[id].(prio := p);
    UnlinkPlaced(r, id);
    SetPlaced(Unlink(r, id), id, q);
    InsertPlaced(Set(Unlink(r, id), id, q), id);
    var t := SetPriority(r, id, p);
    assert t == ScheduleInsert(Set(Unlink(r, id), id, q), id);
    assert Holds(t, OnReady(p)) && id in Queue(t, OnReady(p));
  }

  /** rt_thread_delete with interrupts enabled keeps the lists in order, whatever happens between its sections,
      if and only if the timer of the thread is not armed and, where others may change its priority, the thread
      is not ready. */
  lemma DeleteExact(s: State, id: nat, wanted: bool)
    requires Inv(s) && Awaits(s) && Deletable(s, id)
    ensures SafeDelete(s, id, wanted) <==> !s.threads[id].armed && (wanted ==> s.threads[id].stat != Ready)
  {
    if s.threads[id].armed {
      TimerMeddles(s, id, wanted);
    } else if wanted && s.threads[id].stat == Ready {
      PriorityMeddles(s, id);
    } else {
      DeleteSafe(s, id, wanted);
    }
  }

  lemma OnTwoLists(s: State, id: nat, p: Place, q: Place)
    requires id in Queue(s, p) && id in Queue(s, q) && p != q && p != Nowhere && q != Nowhere
    ensures !Placed(s)
  {
    assert !Holds(s, p) || !Holds(s, q);
  }

  /** One step in between that leaves the thread on a ready list is enough. */
  lemma DeleteUnsafe(s: State, id: nat, wanted: bool, op: Op, p: nat)
    requires id in s.threads && Meddles(Remove(s, id), op, id, wanted)
    requires var t := Act(Remove(s, id), op);
      id in t.threads && id in Queue(Bury(Detach(t, id), id), OnReady(p)) && id in Queue(Bury(Detach(t, id), id), OnDefunct)
    ensures !SafeDelete(s, id, wanted)
  {
    var r := Remove(s, id);
    var t := Act(r, op);
    var u := Detach(t, id);
    OneStep(Meddling(id, wanted), Act, r, op);
    assert Reaches(Meddling(id, wanted), Act, r, [op], t);
    assert Reaches(Meddling(id, wanted), Act, u, [], u);
    OnTwoLists(Bury(u, id), id, OnReady(p), OnDefunct);
  }

  lemma TimerMeddles(s: State, id: nat, wanted: bool)
    requires Inv(s) && Deletable(s, id) && s.threads[id].armed
    ensures !SafeDelete(s, id, wanted)
  {
    DeleteRace(s, id);
    DeleteUnsafe(s, id, wanted, DoTimeout(id), s.threads[id].prio);
  }

  lemma PriorityMeddles(s: State, id: nat)
    requires Inv(s) && Deletable(s, id) && s.threads[id].stat == Ready
    ensures !SafeDelete(s, id, true)
  {
    DeletePriorityRace(s, id, 0);
    DeleteUnsafe(s, id, true, DoSetPriority(id, 0), 0);
  }

  lemma DeleteSafe(s: State, id: nat, wanted: bool)
    requires Inv(s) && Awaits(s) && Deletable(s, id) && !s.threads[id].armed && (wanted ==> s.threads[id].stat != Ready)
    ensures SafeDelete(s, id, wanted)
  {
    var r := Remove(s, id);
    StepInv(s, DoRemove(id));
    RemoveIs(s, id);
    forall a, t, b, u |
      && Reaches(Meddling(id, wanted), Act, r, a, t) && id in t.threads
      && Reaches(Meddling(id, wanted), Act, Detach(t, id), b, u) && id in u.threads
      ensures Orderly(t) && Orderly(u) && Orderly(Bury(u, id))
    {
      RunLeavingStays(r, a, t, id, Removed, wanted);
      InvOrderly(t);
      StepInv(t, DoDetach(id));
      RunLeavingStays(Detach(t, id), b, u, id, Detached, wanted);
      InvOrderly(u);
      StepInv(u, DoBury(id));
      InvOrderly(Bury(u, id));
    }
  }

  // ---------------------------------------------------------------- rt_thread_resume

  /** Whatever happens between the test of rt_thread_resume, which the thread has passed, and its two sections, the
      lists are in order at each of them. */
  ghost predicate SafeResume(s: State, id: nat)
    requires id in s.threads
  {
    forall a, t, b, u ::
      && Reaches(Others(id), Run, s, a, t) && id in t.threads
      && Reaches(Others(id), Run, TakeOff(t, id), b, u) && id in u.threads
      ==> Orderly(TakeOff(t, id)) && Orderly(u) && Orderly(PutBack(u, id))
  }

  /** Suspended for good: nothing but a call on it makes the thread ready. */
  predicate Parked(t: Thread) {
    t.stat == Suspended && t.stage.Whole? && !t.armed && !t.wait.Waiting?
  }

  lemma ParkedStays(s: State, op: Op, id: nat)
    requires Inv(s) && Legal(s, op) && !Targets(op, id) && id in s.threads && Parked(s.threads[id])
    ensures id in Step(s, op).threads && Parked(Step(s, op).threads[id])
  {
    StepTouches(s, op);
    assert Sound(s.threads[id]);
    if op.DoRelease? && s.sems[op.sem].waiters != [] { FirstWaiter(s, op.sem); }
    assert id == Touched(s, op) ==> Parked(Becomes(s, op, s.threads[id]));
  }

  lemma RunParkedStays(s: State, ops: seq<Op>, t: State, id: nat)
    requires Inv(s) && Awaits(s) && id in s.threads && Parked(s.threads[id])
    requires Reaches(Others(id), Run, s, ops, t)
    ensures Inv(t) && Awaits(t) && id in t.threads && Parked(t.threads[id])
  {
    var inv := (x: State) => Inv(x) && Awaits(x) && id in x.threads && Parked(x.threads[id]);
    forall x: State, op: Op | inv(x) && Others(id)(x, op)
      ensures inv(Run(x, op))
    {
      StepInv(x, op);
      ParkedStays(x, op, id);
    }
    RunKeeps(inv, Others(id), Run, s, ops, t);
  }

  /** rt_thread_resume of a suspended thread, with interrupts enabled, keeps the lists in order, whatever happens
      around its sections, if and only if the timer of the thread is not armed and it does not wait on a semaphore. */
  lemma ResumeExact(s: State, id: nat)
    requires Inv(s) && Awaits(s) && id in s.threads && s.threads[id].stat == Suspended && s.threads[id].stage.Whole?
    ensures SafeResume(s, id) <==> !s.threads[id].armed && !s.threads[id].wait.Waiting?
  {
    if Parked(s.threads[id]) { ResumeSafe(s, id); } else { ResumeUnsafe(s, id); }
  }

  lemma ResumeSafe(s: State, id: nat)
    requires Inv(s) && Awaits(s) && id in s.threads && Parked(s.threads[id])
    ensures SafeResume(s, id)
  {
    forall a, t, b, u |
      && Reaches(Others(id), Run, s, a, t) && id in t.threads
      && Reaches(Others(id), Run, TakeOff(t, id), b, u) && id in u.threads
      ensures Orderly(TakeOff(t, id)) && Orderly(u) && Orderly(PutBack(u, id))
    {
      RunParkedStays(s, a, t, id);
      StepInv(t, DoTakeOff(id));
      TakeOffIs(t, id);
      InvOrderly(TakeOff(t, id));
      RunStageStays(TakeOff(t, id), b, u, id);
      InvOrderly(u);
      StepInv(u, DoPutBack(id));
      InvOrderly(PutBack(u, id));
    }
  }

  /** If its timer fires first, rt_thread_resume takes a ready thread off its ready list. */
  lemma ResumeRace(s: State, id: nat)
    requires Inv(s) && id in s.threads && s.threads[id].armed
    ensures id in Timeout(s, id).threads && id in TakeOff(Timeout(s, id), id).threads
    ensures var t := TakeOff(Timeout(s, id), id).threads[id];
      t.stat == Ready && t.stage.Resuming? && t.node == Nowhere
  {
    FiredIs(s, id);
    FiredInv(s, id);
    ScheduleInv(Fired(s, id));
    TakeOffIs(Timeout(s, id), id);
  }

  /** Releases hand a unit to every thread that waits, thread `id` among them. */
  lemma {:induction false} GetsUnit(s: State, id: nat) returns (ops: seq<Op>, t: State)
    requires Inv(s) && Awaits(s) && id in s.threads && s.threads[id].wait.Waiting? && s.threads[id].stage.Whole?
    ensures Reaches(Others(id), Run, s, ops, t) && Inv(t) && Awaits(t)
    ensures id in t.threads && t.threads[id].stat == Ready && t.threads[id].stage.Whole?
    decreases if s.threads[id].wait.sem in s.sems then |s.sems[s.threads[id].wait.sem].waiters| else 0
  {
    var k := s.threads[id].wait.sem;
    var op := DoRelease(k);
    WaitedFor(s, id);
    FirstWaiter(s, k);
    var w := s.sems[k].waiters[0];
    StepInv(s, op);
    ReleaseTouches(s, k);
    OneStep(Others(id), Run, s, op);
    ops, t := [op], Release(s, k);
    if w != id {
      OneWaiterLess(s, k);
      var rest, u := GetsUnit(t, id);
      Continues(Others(id), Run, s, ops, t, rest, u);
      ops, t := ops + rest, u;
    }
  }

  lemma OneWaiterLess(s: State, k: nat)
    requires Inv(s) && k in s.sems && s.sems[k].waiters != []
    ensures k in Release(s, k).sems && |Release(s, k).sems[k].waiters| == |s.sems[k].waiters| - 1
  {
    FirstWaiter(s, k);
    HandOverIs(s, k, s.sems[k].waiters[0]);
  }

  /** If releases reach a waiter first, rt_thread_resume takes it off its ready list, too. */
  lemma TakesOffReady(s: State, id: nat)
    requires Inv(s) && id in s.threads && s.threads[id].stat == Ready
    ensures id in TakeOff(s, id).threads && !InOrder(TakeOff(s, id).threads[id])
  {
    TakeOffIs(s, id);
  }

  lemma ResumeUnsafe(s: State, id: nat)
    requires Inv(s) && Awaits(s) && id in s.threads && s.threads[id].stat == Suspended && s.threads[id].stage.Whole?
    requires !Parked(s.threads[id])
    ensures !SafeResume(s, id)
  {
    var (a, t) := ([], s);
    if s.threads[id].armed {
      a, t := [DoTimeout(id)], Timeout(s, id);
      assert Legal(s, DoTimeout(id));
      OneStep(Others(id), Run, s, DoTimeout(id));
      ResumeRace(s, id);
    } else {
      a, t := GetsUnit(s, id);
      TakesOffReady(t, id);
    }
    var u := TakeOff(t, id);
    assert Reaches(Others(id), Run, s, a, t);
    assert Reaches(Others(id), Run, u, [], u);
    assert !InOrder(u.threads[id]);
  }

  /** Even with nothing in between, a waiter that another thread resumes leaves its semaphore without a unit: its wait
      is not accounted for, and once it runs its rt_sem_take returns RT_EOK. */
  lemma ResumedWithoutUnit(s: State, id: nat)
    requires Inv(s) && id in s.threads && s.threads[id].wait.Waiting?
    ensures Resume(s, id).1 && s.threads[id].wait.sem in s.sems && s.threads[id].wait.sem in Resume(s, id).0.sems
    ensures var (t, k) := (Resume(s, id).0, s.threads[id].wait.sem);
      && id in t.threads && t.threads[id].stat == Ready && t.threads[id].wait == Waiting(k)
      && t.sems[k].tally == s.sems[k].tally && |t.sems[k].waiters| == |s.sems[k].waiters| - 1 && !SemOk(t.sems[k])
      && Return(t.(current := id)).1 == Eok
  {
    assert Sound(s.threads[id]);
    WaitedFor(s, id);
    ResumeIs(s, id);
    assert SemOk(s.sems[s.threads[id].wait.sem]);
  }

  /** A second rt_thread_resume between the two sections of the first links the thread into its ready list twice. */
  lemma ResumeTwice(s: State, id: nat)
    requires Inv(s) && id in s.threads && Parked(s.threads[id])
    ensures id in TakeOff(s, id).threads && Resume(TakeOff(s, id), id).1
    ensures var t := Resume(TakeOff(s, id), id).0;
      id in t.threads && multiset(Queue(PutBack(t, id), OnReady(s.threads[id].prio)))[id] == 2
  {
    var p := s.threads[id].prio;
    assert Sound(s.threads[id]);
    TakeOffIs(s, id);
    ResumeIs(TakeOff(s, id), id);
    var t := Resume(TakeOff(s, id), id).0;
    assert Holds(t, OnReady(p)) && id in Queue(t, OnReady(p));
    OnceIn(Queue(t, OnReady(p)), id);
    assert Queue(PutBack(t, id), OnReady(p)) == Queue(t, OnReady(p)) + [id];
  }

  // ---------------------------------------------------------------- rt_thread_suspend

  /** What only the running thread does, in its own code. */
  predicate Own(op: Op) {
    || op.DoSleep? || op.DoAwake? || op.DoSwitchAway? || op.DoExit? || op.DoTake? || op.DoReturn?
    || op.DoEnterCritical? || op.DoExitCritical?
  }

  /** What may happen while thread `caller` is in a call on thread `id`: the caller itself does nothing else. */
  function Meanwhile(caller: nat, id: nat): (State, Op) -> bool {
    (s: State, op: Op) => Legal(s, op) && !Targets(op, id) && (Own(op) ==> s.current != caller)
  }

  /** Whatever happens between the test of rt_thread_suspend, which the thread has passed, and its section, the lists
      are in order after it and no closed thread comes back to life. */
  ghost predicate SafeSuspend(s: State, id: nat) {
    forall a, t :: Reaches(Meanwhile(s.current, id), Run, s, a, t) && id in t.threads ==>
      Orderly(SuspendNow(t, id)) && t.threads[id].stat != Closed
  }

  /** The thread may be suspended, and it cannot get away from that. */
  predicate Held(s: State, caller: nat, id: nat) {
    && id in s.threads && s.threads[id].stat != Closed && s.threads[id].stat != Init && !s.threads[id].wait.Waiting?
    && (caller == id || (s.nest != 0 && s.current == caller))
  }

  lemma HeldStays(s: State, op: Op, caller: nat, id: nat)
    requires Inv(s) && Held(s, caller, id) && Meanwhile(caller, id)(s, op)
    ensures Held(Step(s, op), caller, id)
  {
    StepTouches(s, op);
    assert Sound(s.threads[id]);
    if op.DoRelease? && s.sems[op.sem].waiters != [] { FirstWaiter(s, op.sem); }
    assert id == Touched(s, op) ==>
      var t := Becomes(s, op, s.threads[id]); t.stat != Closed && t.stat != Init && !t.wait.Waiting?;
    if Schedules(op) && s.nest != 0 { LockedStays(s, op); }
  }

  /** With the scheduler locked rt_schedule does nothing. */
  lemma LockedStays(s: State, op: Op)
    requires Inv(s) && Legal(s, op) && Schedules(op) && s.nest != 0
    ensures Step(s, op).current == s.current
  {
    if op.DoTimeout? { FiredIs(s, op.id); }
  }

  lemma SuspendSafe(s: State, id: nat)
    requires Inv(s) && Awaits(s) && Held(s, s.current, id) && id != IDLE
    ensures SafeSuspend(s, id)
  {
    var caller := s.current;
    var inv := (x: State) => Inv(x) && Awaits(x) && Held(x, caller, id);
    forall x: State, op: Op | inv(x) && Meanwhile(caller, id)(x, op)
      ensures inv(Run(x, op))
    {
      StepInv(x, op);
      HeldStays(x, op, caller, id);
    }
    forall a, t | Reaches(Meanwhile(caller, id), Run, s, a, t) && id in t.threads
      ensures Orderly(SuspendNow(t, id)) && t.threads[id].stat != Closed
    {
      RunKeeps(inv, Meanwhile(caller, id), Run, s, a, t);
      StepInv(t, DoSuspendNow(id));
      InvOrderly(SuspendNow(t, id));
    }
  }

  /** The threads on the ready lists, most urgent list first. */
  function Flat(ready: seq<seq<nat>>, from: nat := 0): seq<nat>
    requires from <= |ready|
    decreases |ready| - from
  {
    if from == |ready| then [] else ready[from] + Flat(ready, from + 1)
  }

  lemma {:induction false} FlatFirst(ready: seq<seq<nat>>, p: nat, from: nat)
    requires from <= p < |ready| && FirstReady(ready, from) == p
    ensures Flat(ready, from) != [] && Flat(ready, from)[0] == ready[p][0]
    ensures Flat(ready[p := ready[p][1..]], from) == Flat(ready, from)[1..]
    decreases p - from
  {
    if from < p {
      FlatFirst(ready, p, from + 1);
      assert ready[from] == [];
    } else {
      FlatSame(ready, ready[p := ready[p][1..]], from + 1);
      assert (ready[p] + Flat(ready, p + 1))[1..] == ready[p][1..] + Flat(ready, p + 1);
    }
  }

  lemma {:induction false} FlatSame(a: seq<seq<nat>>, b: seq<seq<nat>>, from: nat)
    requires |a| == |b| && from <= |a| && forall k :: from <= k < |a| ==> a[k] == b[k]
    ensures Flat(a, from) == Flat(b, from)
    decreases |a| - from
  {
    if from < |a| { FlatSame(a, b, from + 1); }
  }

  lemma {:induction false} FlatLast(ready: seq<seq<nat>>, x: nat, from: nat)
    requires from < |ready|
    ensures var l := |ready| - 1; Flat(ready[l := ready[l] + [x]], from) == Flat(ready, from) + [x]
    decreases |ready| - from
  {
    if from < |ready| - 1 { FlatLast(ready, x, from + 1); }
  }

  lemma {:induction false} FlatHas(ready: seq<seq<nat>>, p: nat, x: nat, from: nat) returns (i: nat)
    requires from <= p < |ready| && x in ready[p]
    ensures i < |Flat(ready, from)| && Flat(ready, from)[i] == x
    decreases p - from
  {
    if from < p {
      i := FlatHas(ready, p, x, from + 1);
      i := i + |ready[from]|;
    } else {
      i :| 0 <= i < |ready[p]| && ready[p][i] == x;
    }
  }

  /** The head of the most urgent list is given the least urgent priority: it goes to the end of everything. */
  lemma HeadGoesLast(s: State, p: nat)
    requires Inv(s) && p == FirstReady(s.ready) < |s.ready|
    ensures Flat(s.ready) != []
    ensures var h := s.ready[p][0];
      && h in s.threads && Legal(s, DoSetPriority(h, 31))
      && |SetPriority(s, h, 31).ready| == |s.ready|
      && Flat(SetPriority(s, h, 31).ready) == Flat(s.ready)[1..] + [h]
  {
    var h := s.ready[p][0];
    assert Holds(s, OnReady(p)) && h in Queue(s, OnReady(p));
    assert Sound(s.threads[h]);
    var a := s.ready[p := s.ready[p][1..]];
    assert Drop(s.ready[p], h) == s.ready[p][1..];
    FlatFirst(s.ready, p, 0);
    FlatLast(a, h, 0);
    assert SetPriority(s, h, 31).ready == a[31 := a[31] + [h]];
  }

  /** Others can be made less urgent until ready thread `id` is the first of all. */
  lemma {:induction false} ComesFirst(s: State, caller: nat, id: nat, i: nat) returns (ops: seq<Op>, t: State)
    requires Inv(s) && Awaits(s) && id in s.threads && s.threads[id].stat == Ready && s.threads[id].stage.Whole?
    requires i < |Flat(s.ready)| && Flat(s.ready)[i] == id
    ensures Reaches(Meanwhile(caller, id), Run, s, ops, t) && Inv(t) && Awaits(t)
    ensures t.current == s.current && t.nest == s.nest && id in t.threads && t.threads[id] == s.threads[id]
    ensures FirstReady(t.ready) < |t.ready| && t.ready[FirstReady(t.ready)][0] == id
    decreases i
  {
    ReadyListed(s, id);
    var p := FirstReady(s.ready);
    FlatFirst(s.ready, p, 0);
    var h := s.ready[p][0];
    if h == id {
      ops, t := [], s;
    } else {
      var op := DoSetPriority(h, 31);
      HeadGoesLast(s, p);
      StepInv(s, op);
      StepTouches(s, op);
      ops, t := ComesFirst(SetPriority(s, h, 31), caller, id, i - 1);
      assert ([op] + ops)[1..] == ops;
      ops := [op] + ops;
    }
  }

  /** Thread `id` is the one that rt_schedule chooses. */
  predicate First(s: State, id: nat) {
    && id in s.threads && s.threads[id].stat == Ready && s.threads[id].stage.Whole?
    && FirstReady(s.ready) < |s.ready| && s.ready[FirstReady(s.ready)][0] == id && s.nest == 0
  }

  /** The running thread comes back to code of its own. */
  lemma Proceeds(s: State, caller: nat, id: nat) returns (ops: seq<Op>, t: State)
    requires Inv(s) && Awaits(s) && First(s, id) && s.current == id != caller
    ensures Reaches(Meanwhile(caller, id), Run, s, ops, t) && Inv(t) && Awaits(t)
    ensures t.current == id && Running(t)
  {
    var legal := Meanwhile(caller, id);
    var u := s;
    assert Sound(s.threads[id]);
    ops := [];
    if s.threads[id].leaving {
      ops, u := [DoSwitchAway], SwitchAway(s);
      assert Legal(s, DoSwitchAway);
      OneStep(legal, Run, s, DoSwitchAway);
      StepInv(s, DoSwitchAway);
      StepTouches(s, DoSwitchAway);
    }
    t := u;
    if u.threads[id].wait != NoWait {
      var op := if u.threads[id].wait.Sleeping? then DoAwake else DoReturn;
      t := Step(u, op);
      OneStep(legal, Run, u, op);
      StepInv(u, op);
      Continues(legal, Run, s, ops, u, [op], t);
      ops := ops + [op];
    }
  }

  /** Without the lock the thread can be scheduled. */
  lemma GetsToRun(s: State, id: nat) returns (ops: seq<Op>, t: State)
    requires Inv(s) && Awaits(s) && id in s.threads && s.threads[id].stat == Ready && s.threads[id].stage.Whole?
    requires s.current != id && s.nest == 0
    ensures Reaches(Meanwhile(s.current, id), Run, s, ops, t) && Inv(t) && Awaits(t)
    ensures First(t, id) && t.current == id
  {
    var legal := Meanwhile(s.current, id);
    ReadyListed(s, id);
    var i := FlatHas(s.ready, s.threads[id].prio, id, 0);
    ops, t := ComesFirst(s, s.current, id, i);
    assert Legal(t, DoSchedule);
    OneStep(legal, Run, t, DoSchedule);
    Continues(legal, Run, s, ops, t, [DoSchedule], Schedule(t));
    ScheduleInv(t);
    ScheduleAwaits(t);
    ops, t := ops + [DoSchedule], Schedule(t);
  }

  /** Then it can exit before the section of rt_thread_suspend. */
  lemma SuspendUnsafe(s: State, id: nat)
    requires Inv(s) && Awaits(s) && id in s.threads && id != IDLE && s.threads[id].stat == Ready && s.threads[id].stage.Whole?
    requires s.current != id && s.nest == 0
    ensures !SafeSuspend(s, id)
  {
    var legal := Meanwhile(s.current, id);
    var a, t := GetsToRun(s, id);
    var b, u := Proceeds(t, s.current, id);
    Continues(legal, Run, s, a, t, b, u);
    assert Legal(u, DoExit);
    OneStep(legal, Run, u, DoExit);
    Continues(legal, Run, s, a + b, u, [DoExit], Run(u, DoExit));
    StepTouches(u, DoExit);
    assert Run(u, DoExit).threads[id].stat == Closed;
  }

  /** rt_thread_suspend of a ready thread, with interrupts enabled, is safe, whatever happens between its test and its
      section, if and only if the caller suspends itself or has locked the scheduler. */
  lemma SuspendExact(s: State, id: nat)
    requires Inv(s) && Awaits(s) && id in s.threads && id != IDLE && s.threads[id].stat == Ready && s.threads[id].stage.Whole?
    ensures SafeSuspend(s, id) <==> s.current == id || s.nest != 0
  {
    assert Sound(s.threads[id]);
    if s.current == id || s.nest != 0 { SuspendSafe(s, id); } else { SuspendUnsafe(s, id); }
  }

  /** If the thread has gone on to wait on a semaphore in between, it is taken off the list of waiters with its timer
      stopped, and its wait is never accounted for. */
  lemma SuspendLosesWait(s: State, id: nat)
    requires Inv(s) && id in s.threads && s.threads[id].wait.Waiting?
    ensures var (t, k) := (SuspendNow(s, id), s.threads[id].wait.sem);
      && id in t.threads && t.threads[id].wait == Waiting(k) && t.threads[id].node == Nowhere && !t.threads[id].armed
      && k in t.sems
      && var m := t.sems[k].tally; m.blocked == m.handed + m.timedOut + m.abandoned + |t.sems[k].waiters| + 1
  {
    WaitedFor(s, id);
    SuspendNowIs(s, id);
    assert SemOk(s.sems[s.threads[id].wait.sem]);
  }

  /** With interrupts disabled, so that nothing happens in between, all three calls keep the invariant; rt_thread_delete
      then needs no condition on the timer. */
  lemma UninterruptedKeeps(s: State, id: nat)
    requires Inv(s) && id in s.threads && s.threads[id].stage.Whole?
    ensures id != IDLE && s.threads[id].stat != Closed ==> Inv(Delete(s, id))
    ensures !s.threads[id].wait.Waiting? ==> Inv(Resume(s, id).0)
    ensures id != IDLE ==> Inv(Suspend(s, id).0)
  {
    var t := s.threads[id];
    assert Sound(t);
    if id != IDLE && t.stat != Closed { DeleteInv(s, id); }
    if t.stat == Suspended && !t.wait.Waiting? {
      TakeOffInv(s, id);
      TakeOffIs(s, id);
      PutBackInv(TakeOff(s, id), id);
    }
    if id != IDLE && t.stat == Ready { SuspendNowInv(s, id); }
  }

  // ---------------------------------------------------------------- rt_sem_take under a locked scheduler

  /** Thread `me` runs on, under the lock, while it is on its way out of a rt_sem_take that had to wait. */
  ghost predicate LockedOut(s: State, me: nat, k: nat) {
    && Inv(s) && s.current == me && s.nest != 0
    && (s.threads[me].wait == Waiting(k) || s.threads[me].wait == Granted(k) || s.threads[me].wait == TimedOut(k))
  }

  lemma LockedOutStays(s: State, op: Op, me: nat, k: nat)
    requires LockedOut(s, me, k) && Meanwhile(me, me)(s, op)
    ensures LockedOut(Step(s, op), me, k)
  {
    assert Legal(s, op) && !Targets(op, me) && !Own(op);
    StepTouches(s, op);
    SectionInv(s, op);
    if Schedules(op) { LockedStays(s, op); }
    if op.DoRelease? && s.sems[op.sem].waiters != [] { FirstWaiter(s, op.sem); }
    if Touched(s, op) == me { BecomesWaited(s, op, s.threads[me]); }
  }

  lemma BecomesWaited(s: State, op: Op, t: Thread)
    requires Legal(s, op) && !Targets(op, Touched(s, op)) && !Own(op)
    requires op.DoRelease? && s.sems[op.sem].waiters != [] ==> t.wait == Waiting(op.sem)
    ensures var w := Becomes(s, op, t).wait; w == t.wait || (t.wait.Waiting? && (w == Granted(t.wait.sem) || w == TimedOut(t.wait.sem)))
  {
  }

  /** A rt_sem_take that has to wait while the scheduler is locked, whatever timers and interrupt handlers do before its
      rt_schedule: that does not switch away, and the call returns RT_EOK without a unit if and only if the thread has
      neither been handed one nor timed out by then. */
  lemma LockedTakeExact(s: State, k: nat, time: int, ops: seq<Op>, t: State)
    requires Inv(s) && k in s.sems && Running(s) && s.current != IDLE && Blocks(s, k, time) && s.nest != 0
    requires Reaches(Meanwhile(s.current, s.current), Run, Take(s, k, time), ops, t)
    ensures t.current == s.current && s.current in t.threads && SwitchAway(t).current == s.current
    ensures s.current in SwitchAway(t).threads
    ensures var me := SwitchAway(t).threads[s.current];
      me.error == Eok && !me.wait.Granted? <==> t.threads[s.current].wait.Waiting?
  {
    LockedOutStarts(s, k, time);
    RunLockedOut(Take(s, k, time), s.current, k, ops, t);
    LockedOutEnds(t, s.current, k);
  }

  lemma LockedOutStarts(s: State, k: nat, time: int)
    requires Inv(s) && k in s.sems && Running(s) && s.current != IDLE && Blocks(s, k, time) && s.nest != 0
    ensures LockedOut(Take(s, k, time), s.current, k)
  {
    assert Sound(s.threads[s.current]);
    TakeInv(s, k, time);
    BlockingIs(s, k, time > 0);
  }

  lemma RunLockedOut(s: State, me: nat, k: nat, ops: seq<Op>, t: State)
    requires LockedOut(s, me, k) && Reaches(Meanwhile(me, me), Run, s, ops, t)
    ensures LockedOut(t, me, k)
  {
    var inv := (x: State) => LockedOut(x, me, k);
    forall x: State, op: Op | inv(x) && Meanwhile(me, me)(x, op)
      ensures inv(Run(x, op))
    {
      LockedOutStays(x, op, me, k);
    }
    RunKeeps(inv, Meanwhile(me, me), Run, s, ops, t);
  }

  lemma LockedOutEnds(t: State, me: nat, k: nat)
    requires LockedOut(t, me, k)
    ensures SwitchAway(t).current == me && me in SwitchAway(t).threads
    ensures var u := SwitchAway(t).threads[me]; u.error == Eok && !u.wait.Granted? <==> t.threads[me].wait.Waiting?
  {
    assert Sound(t.threads[me]);
  }

  // ---------------------------------------------------------------- reachable states in which the conditions fail

  /** An idle thread, thread 1 of priority 10 and a semaphore without units. */
  function System(): State {
    var idle := Thread(Ready, 31, 31, Eok, false, 5, 5, OnReady(31), NoWait, Whole, false, false);
    var one := Thread(Init, 10, 10, Eok, false, 5, 5, Nowhere, NoWait, Whole, false, false);
    State(map[IDLE := idle, 1 := one], seq(32, (p: int) => if p == 31 then [IDLE] else []),
          map[0 := Sem(0, Fifo, [], Tally(0, 0, 0, 0, 0, 0, 0))], [], IDLE, 0)
  }

  lemma SystemBoots()
    ensures Boot(System()) && Awaits(System())
  {
    var s := System();
    assert [IDLE][1..] == [];
    forall q | q != Nowhere
      ensures Holds(s, q)
    {
      if q == OnReady(31) { assert Queue(s, q) == [IDLE]; } else { assert Queue(s, q) == []; }
    }
  }

  /** Thread 1 is ready but does not run yet. */
  predicate OneReady(s: State) {
    && s.threads.Keys == {IDLE, 1} && s.threads[1].stat == Ready && s.threads[1].stage.Whole? && s.threads[1].prio == 10
    && s.threads[1].wait == NoWait && s.threads[IDLE].prio == 31 && s.nest == 0
    && 0 in s.sems && s.sems[0].value == 0 && s.sems[0].tally.releases == 0
  }

  lemma StartsUp(s: State) returns (ops: seq<Op>, t: State)
    requires s == System()
    ensures Reaches(Legal, Run, s, ops, t) && Inv(t) && Awaits(t) && OneReady(t) && t.current == IDLE
  {
    SystemBoots();
    var a, b := Mark(s, 1), TakeOff(Mark(s, 1), 1);
    t := PutBack(b, 1);
    StepInv(s, DoMark(1));
    StepInv(a, DoTakeOff(1));
    StepInv(b, DoPutBack(1));
    ops := Three(s, DoMark(1), a, DoTakeOff(1), b, DoPutBack(1));
    assert t.sems == s.sems && t.nest == 0;
  }

  lemma Three(s: State, o: Op, a: State, p: Op, b: State, q: Op) returns (ops: seq<Op>)
    requires Legal(s, o) && a == Step(s, o) && Legal(a, p) && b == Step(a, p) && Legal(b, q)
    ensures Reaches(Legal, Run, s, ops, Step(b, q))
  {
    OneStep(Legal, Run, s, o);
    OneStep(Legal, Run, a, p);
    OneStep(Legal, Run, b, q);
    Continues(Legal, Run, s, [o], a, [p], b);
    Continues(Legal, Run, s, [o] + [p], b, [q], Step(b, q));
    ops := [o] + [p] + [q];
  }

  /** Thread 1 runs. */
  lemma OneRuns() returns (ops: seq<Op>, t: State)
    ensures Reaches(Legal, Run, System(), ops, t) && Inv(t) && Awaits(t) && OneReady(t) && t.current == 1
  {
    var u;
    ops, u := StartsUp(System());
    OneStep(Legal, Run, u, DoSchedule);
    Continues(Legal, Run, System(), ops, u, [DoSchedule], Schedule(u));
    ops, t := ops + [DoSchedule], Schedule(u);
    StepInv(u, DoSchedule);
    OneChosen(u);
  }

  lemma OneChosen(s: State)
    requires Inv(s) && OneReady(s)
    ensures Schedule(s).current == 1 && OneReady(Schedule(s))
  {
    MostUrgentRuns(s);
  }

  /** A reachable state in which the timer of a suspended thread is armed: deleting or resuming it with interrupts
      enabled is not safe. */
  lemma SleeperReached() returns (ops: seq<Op>, t: State)
    ensures Boot(System()) && Reaches(Legal, Run, System(), ops, t) && 1 in t.threads
    ensures !SafeDelete(t, 1, false) && !SafeResume(t, 1)
  {
    var a, u := OneRuns();
    SystemBoots();
    OneStep(Legal, Run, u, DoSleep);
    Continues(Legal, Run, System(), a, u, [DoSleep], Sleep(u));
    StepInv(u, DoSleep);
    StepTouches(u, DoSleep);
    ops, t := a + [DoSleep], Sleep(u);
    DeleteExact(t, 1, false);
    ResumeExact(t, 1);
  }

  /** A reachable state in which a ready thread has no timer armed and yet neither suspending it is safe (the idle
      thread runs and has not locked the scheduler) nor deleting it if others may change its priority. */
  lemma ReadyReached() returns (ops: seq<Op>, t: State)
    ensures Boot(System()) && Reaches(Legal, Run, System(), ops, t) && 1 in t.threads
    ensures t.threads[1].stat == Ready && !t.threads[1].armed
    ensures !SafeSuspend(t, 1) && !SafeDelete(t, 1, true) && SafeDelete(t, 1, false)
  {
    SystemBoots();
    ops, t := StartsUp(System());
    assert Sound(t.threads[1]);
    SuspendExact(t, 1);
    DeleteExact(t, 1, true);
    DeleteExact(t, 1, false);
  }

  /** A reachable state in which rt_sem_take reports success for a unit that nobody has released. */
  lemma LockedTakeReached() returns (ops: seq<Op>, t: State)
    ensures Boot(System()) && Reaches(Legal, Run, System(), ops, t) && 0 in t.sems && t.current in t.threads
    ensures t.sems[0].tally.releases == 0 && t.sems[0].value == 0 && TakeCall(t, 0, -1).1 == Done(Eok)
  {
    var a, u := OneRuns();
    SystemBoots();
    OneStep(Legal, Run, u, DoEnterCritical);
    Continues(Legal, Run, System(), a, u, [DoEnterCritical], u.(nest := 1));
    StepInv(u, DoEnterCritical);
    ops, t := a + [DoEnterCritical], u.(nest := 1);
    TakeUnderLock(t, 0, -1);
  }
}
