/** Theorems about every run of the kernel calls in KernelSpec. A step is what happens with interrupts disabled. */
module KernelRuns {
  import opened Lists
  import opened Runs
  import opened WaitList
  import opened KernelSpec

  /** `DoDelete` is rt_thread_delete with nothing in between: called with interrupts disabled. */
  datatype Op =
    | DoMark(id: nat)
    | DoSuspendNow(id: nat)
    | DoTakeOff(id: nat)
    | DoPutBack(id: nat)
    | DoSleep
    | DoAwake
    | DoSwitchAway
    | DoTimeout(id: nat)
    | DoYield
    | DoSetPriority(id: nat, p: nat)
    | DoExit
    | DoRemove(id: nat)
    | DoDetach(id: nat)
    | DoBury(id: nat)
    | DoDelete(id: nat)
    | DoSchedule
    | DoEnterCritical
    | DoExitCritical
    | DoCountDown
    | DoTake(sem: nat, time: int)
    | DoRelease(sem: nat)
    | DoReturn

  predicate Known(s: State, id: nat) {
    id in s.threads
  }

  /** The current thread is running code of its own: it is ready, nobody is closing it, and it is not on its way out
      of a blocking call. */
  predicate Running(s: State) {
    && s.current in s.threads && s.threads[s.current].stat == Ready && s.threads[s.current].wait == NoWait
    && s.threads[s.current].stage.Whole?
  }

  predicate Deletable(s: State, id: nat) {
    Known(s, id) && id != IDLE && s.threads[id].stat != Closed && s.threads[id].stage.Whole?
  }

  /** A ready thread between the sections of rt_thread_delete: ready, but on no list. */
  predicate HalfDeleted(t: Thread) {
    t.stat == Ready && (t.stage.Removed? || t.stage.Detached?)
  }

  /** The client rules, for each section at the moment it runs. A thread that waits on a semaphore is not suspended or
      resumed by others, the idle thread never gives up being ready, nobody blocks while the scheduler is locked or
      locks it on the way out of a blocking call, a thread is not removed by rt_thread_delete, with interrupts enabled,
      while its timer is armed, and the priority of a ready thread is not changed while such a call is under way. */
  predicate Legal(s: State, op: Op) {
    match op
    case DoMark(id) => Known(s, id) && s.threads[id].stat == Init && s.threads[id].stage.Whole?
    case DoSuspendNow(id) => Known(s, id) && id != IDLE && s.threads[id].stat != Init && s.threads[id].stat != Closed
                             && !s.threads[id].wait.Waiting?
    case DoTakeOff(id) => Known(s, id) && s.threads[id].stat == Suspended && s.threads[id].stage.Whole?
                          && !s.threads[id].wait.Waiting?
    case DoPutBack(id) => Known(s, id) && s.threads[id].stage.Resuming?
    case DoSleep => Running(s) && s.current != IDLE
    case DoAwake => Known(s, s.current) && s.threads[s.current].wait.Sleeping? && !s.threads[s.current].leaving
    case DoSwitchAway => Known(s, s.current) && s.threads[s.current].leaving
    case DoTimeout(id) => Known(s, id) && s.threads[id].armed
    case DoYield => Known(s, s.current)
    case DoSetPriority(id, p) => Known(s, id) && p < RT_THREAD_PRIORITY_MAX && !HalfDeleted(s.threads[id])
    case DoExit => Running(s) && s.current != IDLE
    case DoRemove(id) => Deletable(s, id) && !s.threads[id].armed
    case DoDetach(id) => Known(s, id) && s.threads[id].stage.Removed?
    case DoBury(id) => Known(s, id) && s.threads[id].stage.Detached?
    case DoDelete(id) => Deletable(s, id)
    case DoSchedule => true
    case DoEnterCritical => Known(s, s.current) && !s.threads[s.current].wait.Waiting?
    case DoExitCritical => true
    case DoCountDown => Known(s, s.current)
    case DoTake(k, time) => k in s.sems && Running(s) && s.current != IDLE && (Blocks(s, k, time) ==> s.nest == 0)
    case DoRelease(k) => k in s.sems
    case DoReturn => Known(s, s.current) && !s.threads[s.current].leaving
                     && s.threads[s.current].wait != NoWait && !s.threads[s.current].wait.Sleeping?
  }

  function Step(s: State, op: Op): State
    requires Legal(s, op)
  {
    match op
    case DoMark(id) => Mark(s, id)
    case DoSuspendNow(id) => SuspendNow(s, id)
    case DoTakeOff(id) => TakeOff(s, id)
    case DoPutBack(id) => PutBack(s, id)
    case DoSleep => Sleep(s)
    case DoAwake => Awake(s)
    case DoSwitchAway => SwitchAway(s)
    case DoTimeout(id) => Timeout(s, id)
    case DoYield => Yield(s)
    case DoSetPriority(id, p) => SetPriority(s, id, p)
    case DoExit => Exit(s)
    case DoRemove(id) => Remove(s, id)
    case DoDetach(id) => Detach(s, id)
    case DoBury(id) => Bury(s, id)
    case DoDelete(id) => Delete(s, id)
    case DoSchedule => Schedule(s)
    case DoEnterCritical => s.(nest := s.nest + 1)
    case DoExitCritical => Unlock(s)
    case DoCountDown => CountDown(s)
    case DoTake(k, time) => Take(s, k, time)
    case DoRelease(k) => Release(s, k)
    case DoReturn => Return(s).0
  }

  /** Step, for runs: what is not legal does nothing. */
  function Run(s: State, op: Op): State {
    if Legal(s, op) then Step(s, op) else s
  }

  // ---------------------------------------------------------------- one thread per step

  /** The one thread a step may change. */
  function Touched(s: State, op: Op): nat {
    match op
    case DoMark(id) => id
    case DoSuspendNow(id) => id
    case DoTakeOff(id) => id
    case DoPutBack(id) => id
    case DoTimeout(id) => id
    case DoSetPriority(id, _) => id
    case DoRemove(id) => id
    case DoDetach(id) => id
    case DoBury(id) => id
    case DoDelete(id) => id
    case DoRelease(k) => if k in s.sems && s.sems[k].waiters != [] then s.sems[k].waiters[0] else s.current
    case _ => s.current
  }

  /** What a step makes of that thread. */
  function Becomes(s: State, op: Op, t: Thread): Thread {
    match op
    case DoMark(_) => t.(prio := t.initPrio, stat := Suspended)
    case DoSuspendNow(_) => t.(stat := Suspended, armed := false, node := Nowhere)
    case DoTakeOff(_) => t.(armed := false, stage := Resuming, node := Nowhere)
    case DoPutBack(_) => t.(stat := Ready, stage := Whole, node := OnReady(t.prio))
    case DoSleep => t.(stat := Suspended, armed := true, node := Nowhere, wait := Sleeping, leaving := true)
    case DoAwake => t.(wait := NoWait, error := if t.error == Etimeout then Eok else t.error)
    case DoSwitchAway => t.(leaving := false)
    case DoTimeout(_) => TimedOutThread(t)
    case DoSetPriority(_, p) => if t.stat == Ready then t.(prio := p, node := OnReady(p)) else t.(prio := p)
    case DoExit => ClosedThread(t, if t.detaches then Nowhere else OnDefunct)
    case DoRemove(_) => t.(wait := NoWait, leaving := false, stage := Removed, node := Nowhere)
    case DoDetach(_) => t.(armed := false, stage := Detached)
    case DoBury(_) => t.(stat := Closed, stage := Whole, node := OnDefunct)
    case DoDelete(_) => ClosedThread(t, OnDefunct)
    case DoCountDown => t.(remaining := if t.remaining == 1 then t.slice
                                        else if t.remaining == 0 then 0xFFFF_FFFF else t.remaining - 1)
    case DoTake(k, time) => if k in s.sems && Blocks(s, k, time) then WaitingThread(t, k, time > 0) else t
    case DoRelease(k) => if k in s.sems && s.sems[k].waiters != [] then GrantedThread(t, k) else t
    case DoReturn => t.(wait := NoWait)
    case _ => t
  }

  /** The thread that runs is not one that waits, unless it is about to call rt_schedule. */
  predicate Awaits(s: State) {
    s.current in s.threads && s.threads[s.current].wait.Waiting? ==> s.threads[s.current].leaving && s.nest == 0
  }

  /** Step `op` changes at most the thread it is about, and makes it what Becomes says. */
  predicate Touches(s: State, op: Op)
    requires Legal(s, op)
  {
    var (t, x) := (Step(s, op), Touched(s, op));
    && x in s.threads && OnlyThread(s, t, x) && t.threads[x] == Becomes(s, op, s.threads[x])
    && (Schedules(op) || t.current == s.current)
    && (op.DoEnterCritical? || op.DoExitCritical? || t.nest == s.nest)
  }

  /** Only rt_schedule changes the current thread. */
  predicate Schedules(op: Op) {
    op.DoSchedule? || op.DoSwitchAway? || op.DoTimeout?
  }

  /** Steps that change fields of one thread only. */
  predicate Local(op: Op) {
    op.DoMark? || op.DoAwake? || op.DoDetach? || op.DoCountDown? || op.DoReturn?
  }

  /** Suspending and resuming, in sections. */
  lemma ResumeTouches(s: State, op: Op)
    requires Inv(s) && Legal(s, op)
    requires op.DoSuspendNow? || op.DoTakeOff? || op.DoPutBack? || op.DoSetPriority?
    ensures Touches(s, op)
  {
    assert Sound(s.threads[op.id]);
    match op
    case DoSuspendNow(id) => SuspendNowIs(s, id);
    case DoTakeOff(id) => TakeOffIs(s, id);
    case DoPutBack(id) => PutBackIs(s, id);
    case DoSetPriority(id, p) => SetPriorityIs(s, id, p);
  }

  lemma DeleteTouches(s: State, op: Op)
    requires Inv(s) && Legal(s, op) && (op.DoRemove? || op.DoDetach? || op.DoBury? || op.DoDelete?)
    ensures Touches(s, op)
  {
    assert Sound(s.threads[op.id]);
    match op
    case DoRemove(id) => RemoveIs(s, id);
    case DoDetach(id) => DetachIs(s, id);
    case DoBury(id) => BuryIs(s, id);
    case DoDelete(id) => DeleteIs(s, id);
  }

  /** What the current thread does to itself. */
  lemma CurrentTouches(s: State, op: Op)
    requires Inv(s) && Legal(s, op) && (op.DoSleep? || op.DoYield? || op.DoExit? || op.DoTake?)
    ensures Touches(s, op)
  {
    assert Sound(s.threads[s.current]);
    match op
    case DoSleep => SleepIs(s);
    case DoYield => YieldIs(s);
    case DoExit => ExitIs(s);
    case DoTake(k, time) => if Blocks(s, k, time) { BlockingIs(s, k, time > 0); }
  }

  lemma TimeoutTouches(s: State, id: nat)
    requires Inv(s) && Legal(s, DoTimeout(id))
    ensures Touches(s, DoTimeout(id))
  {
    FiredIs(s, id);
  }

  lemma ReleaseTouches(s: State, k: nat)
    requires Inv(s) && Legal(s, DoRelease(k))
    ensures Touches(s, DoRelease(k))
  {
    if s.sems[k].waiters != [] {
      FirstWaiter(s, k);
      HandOverIs(s, k, s.sems[k].waiters[0]);
    }
  }

  lemma LocalTouches(s: State, op: Op)
    requires Inv(s) && Legal(s, op) && Local(op)
    ensures Touches(s, op)
  {
  }

  lemma LockTouches(s: State, op: Op)
    requires Inv(s) && Legal(s, op)
    requires op.DoSwitchAway? || op.DoSchedule? || op.DoEnterCritical? || op.DoExitCritical?
    ensures Touches(s, op)
  {
  }

  lemma StepTouches(s: State, op: Op)
    requires Inv(s) && Legal(s, op)
    ensures Touches(s, op)
  {
    if op.DoSuspendNow? || op.DoTakeOff? || op.DoPutBack? || op.DoSetPriority? {
      ResumeTouches(s, op);
    } else if op.DoRemove? || op.DoDetach? || op.DoBury? || op.DoDelete? {
      DeleteTouches(s, op);
    } else if op.DoSleep? || op.DoYield? || op.DoExit? || op.DoTake? {
      CurrentTouches(s, op);
    } else if Local(op) {
      LocalTouches(s, op);
    } else {
      match op
      case DoTimeout(id) => TimeoutTouches(s, id);
      case DoRelease(k) => ReleaseTouches(s, k);
      case _ => LockTouches(s, op);
    }
  }

  // ---------------------------------------------------------------- every section keeps the invariant

  lemma LocalSound(s: State, op: Op)
    requires Legal(s, op) && Local(op) && Touched(s, op) in s.threads && Sound(s.threads[Touched(s, op)])
    requires op.DoReturn? ==> !s.threads[s.current].wait.Waiting?
    ensures var u := Becomes(s, op, s.threads[Touched(s, op)]);
      Sound(u) && u.node == s.threads[Touched(s, op)].node && Step(s, op) == Set(s, Touched(s, op), u)
    ensures var (t, u) := (s.threads[Touched(s, op)], Becomes(s, op, s.threads[Touched(s, op)]));
      t.stat == Ready && t.stage.Whole? ==> u.stat == Ready && u.stage.Whole?
  {
  }

  lemma SuspendNowInv(s: State, id: nat)
    requires Inv(s) && Legal(s, DoSuspendNow(id))
    ensures Inv(SuspendNow(s, id))
  {
    assert Sound(s.threads[id]);
    SuspendNowIs(s, id);
    SemsKept(s, SuspendNow(s, id));
    InvAfter(s, SuspendNow(s, id), id, Becomes(s, DoSuspendNow(id), s.threads[id]));
  }

  lemma TakeOffInv(s: State, id: nat)
    requires Inv(s) && Legal(s, DoTakeOff(id))
    ensures Inv(TakeOff(s, id))
  {
    assert Sound(s.threads[id]);
    TakeOffIs(s, id);
    SemsKept(s, TakeOff(s, id));
    InvAfter(s, TakeOff(s, id), id, Becomes(s, DoTakeOff(id), s.threads[id]));
  }

  lemma PutBackInv(s: State, id: nat)
    requires Inv(s) && Legal(s, DoPutBack(id))
    ensures Inv(PutBack(s, id))
  {
    assert Sound(s.threads[id]);
    PutBackIs(s, id);
    InvAfter(s, PutBack(s, id), id, Becomes(s, DoPutBack(id), s.threads[id]));
  }

  lemma SleepInv(s: State)
    requires Inv(s) && Legal(s, DoSleep)
    ensures Inv(Sleep(s))
  {
    assert Sound(s.threads[s.current]);
    SleepIs(s);
    SemsKept(s, Sleep(s));
    InvAfter(s, Sleep(s), s.current, Becomes(s, DoSleep, s.threads[s.current]));
  }

  lemma SwitchAwayInv(s: State)
    requires Inv(s)
    ensures Inv(SwitchAway(s))
  {
    assert Sound(s.threads[s.current]);
    SetInv(s, s.current, s.threads[s.current].(leaving := false));
    ScheduleInv(Set(s, s.current, s.threads[s.current].(leaving := false)));
  }

  lemma FiredInv(s: State, id: nat)
    requires Inv(s) && Legal(s, DoTimeout(id))
    ensures Inv(Fired(s, id))
  {
    assert Sound(s.threads[id]);
    FiredIs(s, id);
    WaiterGone(s, id, CountTimeout(s, s.threads[id].wait), Fired(s, id));
    InvAfter(s, Fired(s, id), id, TimedOutThread(s.threads[id]));
  }

  lemma YieldInv(s: State)
    requires Inv(s)
    ensures Inv(Yield(s))
  {
    assert Sound(s.threads[s.current]);
    YieldIs(s);
    InvAfter(s, Yield(s), s.current, s.threads[s.current]);
  }

  lemma SetPriorityInv(s: State, id: nat, p: nat)
    requires Inv(s) && Legal(s, DoSetPriority(id, p))
    ensures Inv(SetPriority(s, id, p))
  {
    assert Sound(s.threads[id]);
    SetPriorityIs(s, id, p);
    InvAfter(s, SetPriority(s, id, p), id, Becomes(s, DoSetPriority(id, p), s.threads[id]));
  }

  lemma ExitInv(s: State)
    requires Inv(s) && Legal(s, DoExit)
    ensures Inv(Exit(s))
  {
    var me := s.current;
    assert Sound(s.threads[me]);
    ExitIs(s);
    WaiterGone(s, me, CountAbandoned(s, s.threads[me].wait), Exit(s));
    InvAfter(s, Exit(s), me, Becomes(s, DoExit, s.threads[me]));
  }

  lemma RemoveInv(s: State, id: nat)
    requires Inv(s) && Legal(s, DoRemove(id))
    ensures Inv(Remove(s, id))
  {
    assert Sound(s.threads[id]);
    RemoveIs(s, id);
    WaiterGone(s, id, CountAbandoned(s, s.threads[id].wait), Remove(s, id));
    InvAfter(s, Remove(s, id), id, Becomes(s, DoRemove(id), s.threads[id]));
  }

  lemma BuryInv(s: State, id: nat)
    requires Inv(s) && Legal(s, DoBury(id))
    ensures Inv(Bury(s, id))
  {
    assert Sound(s.threads[id]);
    BuryIs(s, id);
    InvAfter(s, Bury(s, id), id, Becomes(s, DoBury(id), s.threads[id]));
  }

  lemma DeleteInv(s: State, id: nat)
    requires Inv(s) && Legal(s, DoDelete(id))
    ensures Inv(Delete(s, id))
  {
    assert Sound(s.threads[id]);
    DeleteIs(s, id);
    WaiterGone(s, id, CountAbandoned(s, s.threads[id].wait), Delete(s, id));
    InvAfter(s, Delete(s, id), id, Becomes(s, DoDelete(id), s.threads[id]));
  }

  lemma BlockingInv(s: State, k: nat, timed: bool)
    requires Inv(s) && k in s.sems && Running(s) && s.current != IDLE && s.sems[k].value == 0
    ensures Inv(Blocking(s, k, timed))
  {
    assert Sound(s.threads[s.current]);
    BlockingIs(s, k, timed);
    OneMoreKept(s, Blocking(s, k, timed), k);
    InvAfter(s, Blocking(s, k, timed), s.current, WaitingThread(s.threads[s.current], k, timed));
  }

  lemma TakeInv(s: State, k: nat, time: int)
    requires Inv(s) && k in s.sems && Running(s) && s.current != IDLE
    ensures Inv(Take(s, k, time))
  {
    if s.sems[k].value > 0 {
      TakeUnitInv(s, k);
    } else if time != 0 {
      BlockingInv(s, k, time > 0);
    }
  }

  lemma ReleaseInv(s: State, k: nat)
    requires Inv(s) && k in s.sems
    ensures Inv(Release(s, k))
  {
    if s.sems[k].waiters == [] {
      CountUpInv(s, k);
    } else {
      var w := s.sems[k].waiters[0];
      FirstWaiter(s, k);
      HandOverIs(s, k, w);
      HandOverSems(s, k, Release(s, k));
      InvAfter(s, Release(s, k), w, GrantedThread(s.threads[w], k));
    }
  }

  lemma NestInv(s: State, n: nat)
    requires Inv(s)
    ensures Inv(s.(nest := n))
  {
    SameQueues(s, s.(nest := n));
  }

  lemma LocalInv(s: State, op: Op)
    requires Inv(s) && Legal(s, op) && Local(op)
    requires op.DoReturn? ==> !s.threads[s.current].wait.Waiting?
    ensures Inv(Step(s, op))
  {
    var x := Touched(s, op);
    assert Sound(s.threads[x]);
    LocalSound(s, op);
    SetInv(s, x, Becomes(s, op, s.threads[x]));
  }

  lemma SuspendResumeInv(s: State, op: Op)
    requires Inv(s) && Legal(s, op)
    requires op.DoSuspendNow? || op.DoTakeOff? || op.DoPutBack? || op.DoSetPriority?
    ensures Inv(Step(s, op))
  {
    match op
    case DoSuspendNow(id) => SuspendNowInv(s, id);
    case DoTakeOff(id) => TakeOffInv(s, id);
    case DoPutBack(id) => PutBackInv(s, id);
    case DoSetPriority(id, p) => SetPriorityInv(s, id, p);
  }

  lemma CloseInv(s: State, op: Op)
    requires Inv(s) && Legal(s, op) && (op.DoRemove? || op.DoBury? || op.DoDelete? || op.DoExit?)
    ensures Inv(Step(s, op))
  {
    match op
    case DoRemove(id) => RemoveInv(s, id);
    case DoBury(id) => BuryInv(s, id);
    case DoDelete(id) => DeleteInv(s, id);
    case DoExit => ExitInv(s);
  }

  lemma ScheduleStepInv(s: State, op: Op)
    requires Inv(s) && Legal(s, op) && (Schedules(op) || op.DoEnterCritical? || op.DoExitCritical?)
    ensures Inv(Step(s, op))
  {
    match op
    case DoSwitchAway => SwitchAwayInv(s);
    case DoTimeout(id) => FiredInv(s, id); ScheduleInv(Fired(s, id));
    case DoSchedule => ScheduleInv(s);
    case DoEnterCritical => NestInv(s, s.nest + 1);
    case DoExitCritical => NestInv(s, Unlock(s).nest);
  }

  lemma OwnStepInv(s: State, op: Op)
    requires Inv(s) && Legal(s, op) && (op.DoSleep? || op.DoYield? || op.DoTake? || op.DoRelease?)
    ensures Inv(Step(s, op))
  {
    match op
    case DoSleep => SleepInv(s);
    case DoYield => YieldInv(s);
    case DoTake(k, time) => TakeInv(s, k, time);
    case DoRelease(k) => ReleaseInv(s, k);
  }

  /** Every section keeps the invariant. */
  lemma StepInv(s: State, op: Op)
    requires Inv(s) && Awaits(s) && Legal(s, op)
    ensures Inv(Step(s, op)) && Awaits(Step(s, op))
  {
    SectionInv(s, op);
    StepAwaits(s, op);
  }

  lemma SectionInv(s: State, op: Op)
    requires Inv(s) && Legal(s, op) && (op.DoReturn? ==> !s.threads[s.current].wait.Waiting?)
    ensures Inv(Step(s, op))
  {
    if Local(op) {
      LocalInv(s, op);
    } else if op.DoSuspendNow? || op.DoTakeOff? || op.DoPutBack? || op.DoSetPriority? {
      SuspendResumeInv(s, op);
    } else if op.DoRemove? || op.DoBury? || op.DoDelete? || op.DoExit? {
      CloseInv(s, op);
    } else if op.DoSleep? || op.DoYield? || op.DoTake? || op.DoRelease? {
      OwnStepInv(s, op);
    } else {
      ScheduleStepInv(s, op);
    }
  }

  /** What rt_schedule chooses does not wait. */
  lemma ScheduleAwaits(s: State)
    requires Inv(s) && (s.nest == 0 || Awaits(s))
    ensures Awaits(Schedule(s))
  {
    if s.nest == 0 {
      MostUrgentRuns(s);
      assert Sound(s.threads[Schedule(s).current]);
    }
  }

  lemma StepAwaits(s: State, op: Op)
    requires Inv(s) && Awaits(s) && Legal(s, op)
    ensures Awaits(Step(s, op))
  {
    if Schedules(op) {
      SchedulingAwaits(s, op);
    } else {
      StepTouches(s, op);
      OtherAwaits(s, op, Step(s, op));
    }
  }

  lemma OtherAwaits(s: State, op: Op, t: State)
    requires Inv(s) && Awaits(s) && Legal(s, op) && !Schedules(op) && t == Step(s, op) && Touches(s, op)
    ensures Awaits(t)
  {
    var me := s.current;
    if op.DoExitCritical? { assert t.nest == Unlock(s).nest; }
    if op.DoEnterCritical? { assert t.threads == s.threads; }
    if Touched(s, op) == me && Becomes(s, op, s.threads[me]).wait.Waiting? { BecomesAwaits(s, op, s.threads[me]); }
  }

  /** A thread only comes to wait by its own rt_sem_take. */
  lemma BecomesAwaits(s: State, op: Op, t: Thread)
    requires Legal(s, op) && Becomes(s, op, t).wait.Waiting?
    ensures if t.wait.Waiting? then op.DoSwitchAway? || (t.leaving ==> Becomes(s, op, t).leaving)
            else op.DoTake? && s.nest == 0 && Becomes(s, op, t).leaving
  {
  }

  lemma SchedulingAwaits(s: State, op: Op)
    requires Inv(s) && Awaits(s) && Legal(s, op) && Schedules(op)
    ensures Awaits(Step(s, op))
  {
    match op
    case DoSchedule => ScheduleAwaits(s);
    case DoSwitchAway =>
      assert Sound(s.threads[s.current]);
      SetInv(s, s.current, s.threads[s.current].(leaving := false));
      ScheduleAwaits(Set(s, s.current, s.threads[s.current].(leaving := false)));
    case DoTimeout(id) =>
      FiredInv(s, id);
      FiredIs(s, id);
      ScheduleAwaits(Fired(s, id));
  }

  /** The system when the scheduler starts: the idle thread runs, all others are initialised but not started. */
  ghost predicate Boot(s: State) {
    && Inv(s) && s.current == IDLE && s.nest == 0 && s.threads[IDLE].wait == NoWait
    && (forall id :: id in s.threads && id != IDLE ==>
          s.threads[id].stat == Init && s.threads[id].stage.Whole? && !s.threads[id].armed)
    && (forall k :: k in s.sems ==> s.sems[k].waiters == [] && s.sems[k].tally == Tally(s.sems[k].value, 0, 0, 0, 0, 0, 0))
  }

  /** In all reachable states every list holds exactly the threads whose node is linked there, a thread that nobody is
      resuming or deleting is ready if and only if it is on the list of its current priority, the semaphores are in
      order, and the thread that runs is not one that waits. */
  lemma RunInv(s: State, ops: seq<Op>, t: State)
    requires Boot(s)
    requires Reaches(Legal, Run, s, ops, t)
    ensures Inv(t) && Awaits(t)
  {
    RunKeepsInv(s, ops, t);
  }

  lemma RunKeepsInv(s: State, ops: seq<Op>, t: State)
    requires Inv(s) && Awaits(s) && Reaches(Legal, Run, s, ops, t)
    ensures Inv(t) && Awaits(t)
  {
    var inv := (s: State) => Inv(s) && Awaits(s);
    forall s: State, op: Op | inv(s) && Legal(s, op)
      ensures inv(Run(s, op))
    {
      StepInv(s, op);
    }
    RunKeeps(inv, Legal, Run, s, ops, t);
  }

  /** Such a system exists. */
  lemma BootExists()
    ensures var idle := Thread(Ready, 31, 31, Eok, false, 5, 5, OnReady(31), NoWait, Whole, false, false);
      var sem := Sem(1, Fifo, [], Tally(1, 0, 0, 0, 0, 0, 0));
      Boot(State(map[IDLE := idle], seq(32, (p: int) => if p == 31 then [IDLE] else []), map[0 := sem], [], IDLE, 0))
  {
    var idle := Thread(Ready, 31, 31, Eok, false, 5, 5, OnReady(31), NoWait, Whole, false, false);
    var sem := Sem(1, Fifo, [], Tally(1, 0, 0, 0, 0, 0, 0));
    var s := State(map[IDLE := idle], seq(32, (p: int) => if p == 31 then [IDLE] else []), map[0 := sem], [], IDLE, 0);
    assert [IDLE][1..] == [];
    forall q | q != Nowhere
      ensures Holds(s, q)
    {
      if q == OnReady(31) { assert Queue(s, q) == [IDLE]; } else { assert Queue(s, q) == []; }
    }
  }

  // ---------------------------------------------------------------- what is scheduled

  /** After rt_schedule with the scheduler unlocked the head of the most urgent non-empty list runs: no ready thread
      is more urgent, and none of the same priority is in front of it. */
  lemma MostUrgentRuns(s: State)
    requires Inv(s) && s.nest == 0
    ensures var t := Schedule(s);
      && t.current in t.threads && t.threads[t.current].stat == Ready
      && t.threads[t.current].prio < |t.ready| && t.ready[t.threads[t.current].prio] != []
      && t.ready[t.threads[t.current].prio][0] == t.current
      && t.threads[t.current].stage.Whole?
      && forall id :: id in t.threads && t.threads[id].stat == Ready && t.threads[id].stage.Whole? ==>
           t.threads[t.current].prio <= t.threads[id].prio
  {
    ReadyListed(s, IDLE);
    var p := FirstReady(s.ready);
    assert Holds(s, OnReady(p)) && s.ready[p][0] in Queue(s, OnReady(p));
    assert Sound(s.threads[s.ready[p][0]]);
    forall id | id in s.threads && s.threads[id].stat == Ready && s.threads[id].stage.Whole?
      ensures p <= s.threads[id].prio
    {
      ReadyListed(s, id);
    }
  }

  lemma ReadyListed(s: State, id: nat)
    requires Inv(s) && id in s.threads && s.threads[id].stat == Ready && s.threads[id].stage.Whole?
    ensures s.threads[id].prio < |s.ready| && id in s.ready[s.threads[id].prio]
  {
    assert Sound(s.threads[id]);
    assert Holds(s, OnReady(s.threads[id].prio));
  }

  /** A thread's `tlist` is on no list but the one its state says, and there once. */
  lemma OneList(s: State, id: nat, q: Place)
    requires Inv(s) && id in s.threads && q != Nowhere
    ensures multiset(Queue(s, q))[id] == if q == s.threads[id].node then 1 else 0
    ensures s.threads[id].stat == Ready && s.threads[id].stage.Whole? <==> id in Queue(s, OnReady(s.threads[id].prio))
  {
    assert Holds(s, q) && Holds(s, OnReady(s.threads[id].prio)) && Sound(s.threads[id]);
    if id in Queue(s, q) { OnceIn(Queue(s, q), id); }
  }

  lemma {:induction false} OnceIn(xs: seq<nat>, x: nat)
    requires Distinct(xs) && x in xs
    ensures multiset(xs)[x] == 1
  {
    assert xs == [xs[0]] + xs[1..];
    if xs[0] == x {
      assert x !in multiset(xs[1..]);
    } else {
      OnceIn(xs[1..], x);
    }
  }

  // ---------------------------------------------------------------- semaphores

  /** A value above 0 means that nobody waits; while less than 2^16 units have come in the value counts them; a wait
      has been handed a unit, has timed out, has been given up with its thread, or goes on. */
  lemma SemaphoreCounts(s: State, k: nat)
    requires Inv(s) && k in s.sems
    ensures s.sems[k].value > 0 ==> s.sems[k].waiters == []
    ensures var m := s.sems[k].tally;
      m.initial + m.releases < VALUES ==> s.sems[k].value == m.initial + m.releases - m.grants
    ensures var m := s.sems[k].tally; m.blocked == m.handed + m.timedOut + m.abandoned + |s.sems[k].waiters|
  {
    assert SemOk(s.sems[k]);
  }

  /** The thread that suspends itself is not the one that runs next, unless the scheduler is locked. */
  lemma SwitchesAway(s: State)
    requires Inv(s) && s.threads[s.current].stat != Ready
    ensures SwitchAway(s).current == s.current <==> s.nest != 0
    ensures s.current in SwitchAway(s).threads && SwitchAway(s).threads[s.current].error == s.threads[s.current].error
    ensures SwitchAway(s).sems == s.sems
  {
    assert Sound(s.threads[s.current]);
    SetInv(s, s.current, s.threads[s.current].(leaving := false));
    if s.nest == 0 { MostUrgentRuns(Set(s, s.current, s.threads[s.current].(leaving := false))); }
  }

  /** rt_sem_take reports success without having taken a unit if and only if it has to wait while the scheduler is
      locked: rt_schedule then does not switch away and the thread's error field still says RT_EOK. */
  lemma TakeUnderLock(s: State, k: nat, time: int)
    requires Inv(s) && k in s.sems && Running(s) && s.current != IDLE
    ensures FalseSuccess(s, k, time) <==> Blocks(s, k, time) && s.nest != 0
  {
    if Blocks(s, k, time) {
      assert Sound(s.threads[s.current]);
      BlockingInv(s, k, time > 0);
      BlockingIs(s, k, time > 0);
      SwitchesAway(Blocking(s, k, time > 0));
    }
  }

  /** rt_sem_take returns RT_EOK and no unit has been granted. */
  predicate FalseSuccess(s: State, k: nat, time: int)
    requires k in s.sems && s.current in s.threads
  {
    var (t, r) := TakeCall(s, k, time);
    r == Done(Eok) && k in t.sems && t.sems[k].tally.grants == s.sems[k].tally.grants
  }

  /** The error a blocked rt_sem_take returns is RT_EOK if a release handed it a unit and -RT_ETIMEOUT if its timer
      fired; it does not return while it waits. */
  lemma ReturnTells(s: State)
    requires Inv(s) && Awaits(s) && Legal(s, DoReturn)
    ensures s.threads[s.current].wait.Granted? || s.threads[s.current].wait.TimedOut?
    ensures Return(s).1 == Eok <==> s.threads[s.current].wait.Granted?
  {
    assert Sound(s.threads[s.current]);
  }

  /** The thread behind an armed timer is suspended: the assertion in rt_thread_timeout holds. */
  lemma TimeoutAssertHolds(s: State, id: nat)
    requires Inv(s) && Legal(s, DoTimeout(id))
    ensures s.threads[id].stat == Suspended
  {
    assert Sound(s.threads[id]);
  }

  /** How a wait can go on from one step to the next: once ended by a release or by the timer it stays so until the
      thread returns from its call or is closed. */
  predicate WaitGoesOn(before: Thread, after: Thread, returned: bool) {
    || after.stat == Closed || after.stage.Removed? || after.stage.Detached?
    || match before.wait
       case NoWait => after.wait.NoWait? || after.wait.Waiting? || after.wait.Sleeping?
       case Waiting(k) => after.wait == Waiting(k) || after.wait == Granted(k) || after.wait == TimedOut(k)
       case _ => after.wait == if returned then NoWait else before.wait
  }

  /** No wait ends twice. */
  lemma WaitEndsOnce(s: State, op: Op, id: nat)
    requires Inv(s) && Awaits(s) && Legal(s, op) && id in s.threads
    ensures id in Step(s, op).threads
    ensures WaitGoesOn(s.threads[id], Step(s, op).threads[id], (op == DoReturn || op == DoAwake) && id == s.current)
  {
    StepTouches(s, op);
    if op.DoRelease? && s.sems[op.sem].waiters != [] { FirstWaiter(s, op.sem); }
    if id == Touched(s, op) {
      assert Sound(s.threads[id]);
      BecomesGoesOn(s, op, s.threads[id]);
    }
  }

  lemma BecomesGoesOn(s: State, op: Op, t: Thread)
    requires Legal(s, op) && Awaits(s) && Touched(s, op) in s.threads && t == s.threads[Touched(s, op)] && Sound(t)
    requires op.DoRelease? && s.sems[op.sem].waiters != [] ==> t.wait == Waiting(op.sem)
    ensures WaitGoesOn(t, Becomes(s, op, t), op == DoReturn || op == DoAwake)
  {
  }
}
