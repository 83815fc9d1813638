/** The order of the lists of threads: what each section does to every list, and that nobody is overtaken; and how the
    locking of the scheduler nests. */
module ReadyOrder {
  import opened Lists
  import opened Runs
  import opened WaitList
  import opened KernelSpec
  import opened KernelRuns

  // ---------------------------------------------------------------- one step

  /** A list `xs` with thread `id` put in where it belongs on a list at `q`: at the end of a ready list, at the head
      of the defunct list, and where its order says on the list of a semaphore. */
  ghost predicate PutIn(t: State, q: Place, xs: seq<nat>, id: nat, ys: seq<nat>) {
    match q
    case Nowhere => ys == xs
    case OnReady(_) => ys == xs + [id]
    case OnDefunct => ys == [id] + xs
    case OnSem(k) => k in t.sems && Joined(xs, ys, t.sems[k].flag, Priorities(t.threads), id)
  }

  /** Thread `id` has left its list and is on the list its node is at now; all others are where they were, in order. */
  ghost predicate Moves(s: State, t: State, id: nat) {
    && id in t.threads
    && forall q :: q != Nowhere ==>
         if q == t.threads[id].node then PutIn(t, q, Drop(Queue(s, q), id), id, Queue(t, q))
         else Queue(t, q) == Drop(Queue(s, q), id)
  }

  /** No list has changed. */
  ghost predicate Stays(s: State, t: State) {
    forall q :: Queue(t, q) == Queue(s, q)
  }

  lemma UnlinkDrops(s: State, id: nat)
    requires Placed(s) && id in s.threads
    ensures forall q :: q != Nowhere ==> Queue(Unlink(s, id), q) == Drop(Queue(s, q), id)
  {
    UnlinkPlaced(s, id);
    forall q | q != Nowhere && q != s.threads[id].node
      ensures Queue(Unlink(s, id), q) == Drop(Queue(s, q), id)
    {
      assert Holds(s, q);
      DropAbsent(Queue(s, q), id);
    }
  }

  /** Thread `id` has left its list; all others are where they were, in order. */
  ghost predicate Drops(s: State, t: State, id: nat) {
    && id in t.threads && t.threads[id].node == Nowhere
    && forall q :: q != Nowhere ==> Queue(t, q) == Drop(Queue(s, q), id)
  }

  lemma NowhereDrops(s: State, id: nat)
    requires Placed(s) && id in s.threads && s.threads[id].node == Nowhere
    ensures Drops(s, s, id)
  {
    forall q | q != Nowhere
      ensures Queue(s, q) == Drop(Queue(s, q), id)
    {
      assert Holds(s, q);
      DropAbsent(Queue(s, q), id);
    }
  }

  /** A field change and then the removal from the list. */
  lemma SetUnlinkDrops(s: State, id: nat, u: Thread)
    requires Placed(s) && id in s.threads && u.node == s.threads[id].node
    ensures Drops(s, Unlink(Set(s, id, u), id), id)
  {
    SetPlaced(s, id, u);
    UnlinkDrops(Set(s, id, u), id);
    UnlinkPlaced(Set(s, id, u), id);
  }

  /** A thread that is on no list becomes ready: it goes to the end of its list. */
  lemma InsertMoves(s: State, v: State, id: nat)
    requires Placed(v) && id in v.threads && v.threads[id].node == Nowhere && v.threads[id].prio < |v.ready|
    requires forall q :: q != Nowhere ==> Queue(v, q) == Drop(Queue(s, q), id)
    ensures Moves(s, ScheduleInsert(v, id), id)
  {
    InsertPlaced(v, id);
  }

  lemma ScheduleStays(s: State)
    ensures Stays(s, Schedule(s))
  {
  }

  lemma SuspendDrops(s: State, id: nat)
    requires Placed(s) && id in s.threads
    ensures Drops(s, SuspendNow(s, id), id) && Drops(s, TakeOff(s, id), id)
  {
    SetUnlinkDrops(s, id, s.threads[id].(stat := Suspended, armed := false));
    SetUnlinkDrops(s, id, s.threads[id].(armed := false, stage := Resuming));
  }

  lemma PutBackMoves(s: State, id: nat)
    requires Placed(s) && id in s.threads && s.threads[id].node == Nowhere && s.threads[id].prio < |s.ready|
    ensures Moves(s, PutBack(s, id), id)
  {
    var u := s.threads[id].(stage := Whole);
    NowhereDrops(s, id);
    SetPlaced(s, id, u);
    InsertMoves(s, Set(s, id, u), id);
  }

  lemma SleepDrops(s: State)
    requires Placed(s) && s.current in s.threads && s.threads[s.current].stat == Ready
    ensures Drops(s, Sleep(s), s.current)
  {
    var (me, t) := (s.current, SuspendNow(s, s.current));
    SuspendDrops(s, me);
    SuspendNowIs(s, me);
    SetPlaced(t, me, t.threads[me].(armed := true, wait := Sleeping, leaving := true));
  }

  lemma WakeMoves(s: State, v: State, id: nat)
    requires Placed(v) && id in v.threads && v.threads[id].prio < |v.ready| && Stays(s, v)
    ensures Moves(s, Wake(v, id), id)
  {
    UnlinkDrops(v, id);
    UnlinkPlaced(v, id);
    InsertMoves(s, Unlink(v, id), id);
  }

  lemma FiredMoves(s: State, id: nat)
    requires Inv(s) && id in s.threads
    ensures Moves(s, Fired(s, id), id)
  {
    var t := s.threads[id];
    assert Sound(t);
    var u := t.(error := Etimeout, armed := false, wait := if t.wait.Waiting? then TimedOut(t.wait.sem) else t.wait);
    var r := Set(s, id, u);
    SetPlaced(s, id, u);
    WaitedFor(s, id);
    if t.wait.Waiting? {
      var tally := r.sems[t.wait.sem].tally;
      TallyPlaced(r, t.wait.sem, tally.(timedOut := tally.timedOut + 1));
    }
    WakeMoves(s, CountTimeout(r, t.wait), id);
  }

  lemma HandOverMoves(s: State, k: nat)
    requires Inv(s) && k in s.sems && s.sems[k].waiters != [] && s.sems[k].waiters[0] in s.threads
    ensures Moves(s, HandOver(s, k, s.sems[k].waiters[0]), s.sems[k].waiters[0])
  {
    var (w, tally) := (s.sems[k].waiters[0], s.sems[k].tally);
    FirstWaiter(s, k);
    var more := tally.(releases := tally.releases + 1, grants := tally.grants + 1, handed := tally.handed + 1);
    TallyPlaced(s, k, more);
    var r := WithTally(s, k, more);
    SetPlaced(r, w, r.threads[w].(wait := Granted(k)));
    ResumeMoves(s, Handing(s, k, w), w);
  }

  lemma ResumeMoves(s: State, v: State, id: nat)
    requires Placed(v) && id in v.threads && v.threads[id].prio < |v.ready| && v.threads[id].stat == Suspended && Stays(s, v)
    ensures Moves(s, Resume(v, id).0, id)
  {
    var r := TakeOff(v, id);
    SuspendDrops(v, id);
    TakeOffIs(v, id);
    SetPlaced(r, id, r.threads[id].(stage := Whole));
    InsertMoves(s, Set(r, id, r.threads[id].(stage := Whole)), id);
  }

  lemma SetPriorityMoves(s: State, id: nat, p: nat)
    requires Placed(s) && id in s.threads && p < |s.ready|
    ensures if s.threads[id].stat == Ready then Moves(s, SetPriority(s, id, p), id) else Stays(s, SetPriority(s, id, p))
  {
    if s.threads[id].stat == Ready {
      var r := Unlink(s, id);
      UnlinkDrops(s, id);
      UnlinkPlaced(s, id);
      SetPlaced(r, id, r.threads[id].(prio := p));
      InsertMoves(s, Set(r, id, r.threads[id].(prio := p)), id);
    } else {
      SetPlaced(s, id, s.threads[id].(prio := p));
    }
  }

  lemma YieldMoves(s: State)
    requires Inv(s)
    ensures if Yields(s) then Moves(s, Yield(s), s.current) else Yield(s) == s
  {
    if Yields(s) {
      var (me, r, q) := (s.current, Unlink(s, s.current), OnReady(s.threads[s.current].prio));
      assert Sound(s.threads[me]);
      UnlinkDrops(s, me);
      UnlinkPlaced(s, me);
      assert Holds(r, q);
      AppendIs(Queue(r, q), me);
      LinkPlaced(r, me, q, Queue(r, q) + [me]);
    }
  }

  lemma RemoveDrops(s: State, id: nat)
    requires Threads(s) && id in s.threads
    ensures Drops(s, Remove(s, id), id)
  {
    var t := s.threads[id];
    WaitedFor(s, id);
    if t.wait.Waiting? {
      var tally := s.sems[t.wait.sem].tally;
      TallyPlaced(s, t.wait.sem, tally.(abandoned := tally.abandoned + 1));
    }
    SetUnlinkDrops(CountAbandoned(s, t.wait), id, t.(wait := NoWait, leaving := false, stage := Removed));
  }

  lemma BuryMoves(s: State, v: State, id: nat)
    requires Placed(v) && id in v.threads && v.threads[id].node == Nowhere
    requires forall q :: q != Nowhere ==> Queue(v, q) == Drop(Queue(s, q), id)
    ensures Moves(s, Bury(v, id), id)
  {
    var u := v.threads[id].(stat := Closed, stage := Whole);
    SetPlaced(v, id, u);
    assert Holds(v, OnDefunct) && Queue(v, OnDefunct) == v.defunct;
    PushIs(v.defunct, id);
    LinkPlaced(Set(v, id, u), id, OnDefunct, [id] + v.defunct);
  }

  lemma DeleteMoves(s: State, id: nat)
    requires Threads(s) && id in s.threads
    ensures Moves(s, Delete(s, id), id)
  {
    RemoveDrops(s, id);
    RemoveIs(s, id);
    DetachIs(Remove(s, id), id);
    SetPlaced(Remove(s, id), id, Remove(s, id).threads[id].(armed := false, stage := Detached));
    BuryMoves(s, Detach(Remove(s, id), id), id);
  }

  lemma ExitMoves(s: State)
    requires Threads(s) && s.current in s.threads
    ensures Moves(s, Exit(s), s.current)
  {
    var me := s.current;
    if s.threads[me].detaches {
      RemoveDrops(s, me);
      RemoveIs(s, me);
      var a := Remove(s, me);
      SetPlaced(a, me, a.threads[me].(armed := false, stage := Detached));
      DetachIs(a, me);
      var r := Detach(a, me);
      SetPlaced(r, me, r.threads[me].(stat := Closed, stage := Whole));
    } else {
      DeleteMoves(s, me);
    }
  }

  lemma BlockingMoves(s: State, k: nat, timed: bool)
    requires Inv(s) && k in s.sems && Running(s)
    ensures Moves(s, Blocking(s, k, timed), s.current)
  {
    BlockReadyDrops(s, k, timed);
    WaiterPlace(s, k, timed);
    BlockingLinks(s, k, timed);
  }

  /** Where the thread joins the waiters. */
  lemma WaiterPlace(s: State, k: nat, timed: bool)
    requires Inv(s) && k in s.sems && Running(s)
    ensures k in Blocking(s, k, timed).sems
    ensures PutIn(Blocking(s, k, timed), OnSem(k), s.sems[k].waiters, s.current, Waiters(s, k, timed))
  {
    var (v, t) := (BlockReady(s, k, timed), Blocking(s, k, timed));
    SamePriorities(s, k, timed, v, t);
    PlaceIs(s.sems[k].waiters, s.sems[k].flag, v.threads, t, k, s.current);
  }

  lemma SamePriorities(s: State, k: nat, timed: bool, v: State, t: State)
    requires Inv(s) && k in s.sems && Running(s) && v == BlockReady(s, k, timed) && t == Blocking(s, k, timed)
    ensures k in t.sems && t.sems[k].flag == s.sems[k].flag && t.threads.Keys == v.threads.Keys
    ensures forall x :: x in v.threads ==> t.threads[x].prio == v.threads[x].prio
  {
    assert Sound(s.threads[s.current]);
    BlockReadyIs(s, k, timed);
    BlockingIs(s, k, timed);
  }

  lemma PlaceIs(ws: seq<nat>, flag: Flag, a: map<nat, Thread>, t: State, k: nat, id: nat)
    requires k in t.sems && t.sems[k].flag == flag
    requires t.threads.Keys == a.Keys && forall x :: x in a ==> t.threads[x].prio == a[x].prio
    ensures PutIn(t, OnSem(k), ws, id, Enqueue(ws, flag, Priorities(a), id))
  {
    var i := EnqueuePlace(ws, flag, Priorities(a), id);
    SamePlace(ws, flag, a, t.threads, id, i);
  }

  lemma BlockingLinks(s: State, k: nat, timed: bool)
    requires Inv(s) && k in s.sems && Running(s)
    ensures var (v, t) := (BlockReady(s, k, timed), Blocking(s, k, timed));
      && s.current in t.threads && t.threads[s.current].node == OnSem(k)
      && Queue(t, OnSem(k)) == Waiters(s, k, timed) && (forall q :: q != OnSem(k) ==> Queue(t, q) == Queue(v, q))
      && Drop(Queue(s, OnSem(k)), s.current) == s.sems[k].waiters
  {
    assert Sound(s.threads[s.current]);
    BlockReadyIs(s, k, timed);
    WaitersAre(s, k, timed);
    LinkPlaced(BlockReady(s, k, timed), s.current, OnSem(k), Waiters(s, k, timed));
    assert Holds(s, OnSem(k)) && Queue(s, OnSem(k)) == s.sems[k].waiters;
    DropAbsent(s.sems[k].waiters, s.current);
  }

  lemma SamePlace(ws: seq<nat>, flag: Flag, a: map<nat, Thread>, b: map<nat, Thread>, id: nat, i: nat)
    requires JoinsAt(ws, flag, Priorities(a), id, i) && b.Keys == a.Keys && forall x :: x in a ==> b[x].prio == a[x].prio
    ensures JoinsAt(ws, flag, Priorities(b), id, i)
  {
  }

  lemma BlockReadyDrops(s: State, k: nat, timed: bool)
    requires Inv(s) && k in s.sems && Running(s)
    ensures Drops(s, BlockReady(s, k, timed), s.current)
  {
    var (me, t) := (s.current, s.threads[s.current]);
    var a := Set(s, me, t.(error := Eok));
    SetPlaced(s, me, t.(error := Eok));
    SuspendDrops(a, me);
    SuspendNowIs(a, me);
    var u := SuspendNow(a, me);
    var tally := s.sems[k].tally;
    TallyPlaced(u, k, tally.(blocked := tally.blocked + 1));
    var w := WithTally(u, k, tally.(blocked := tally.blocked + 1));
    SetPlaced(w, me, w.threads[me].(wait := Waiting(k), armed := timed, leaving := true));
  }

  /** Whether a step moves the thread it is about from one list to another, or to another place. */
  predicate MovesThread(s: State, op: Op)
    requires Legal(s, op)
  {
    match op
    case DoSuspendNow(_) => true
    case DoTakeOff(_) => true
    case DoPutBack(_) => true
    case DoSleep => true
    case DoTimeout(_) => true
    case DoYield => Yields(s)
    case DoSetPriority(id, _) => s.threads[id].stat == Ready
    case DoExit => true
    case DoRemove(_) => true
    case DoBury(_) => true
    case DoDelete(_) => true
    case DoTake(k, time) => Blocks(s, k, time)
    case DoRelease(k) => s.sems[k].waiters != []
    case _ => false
  }

  /** Every step moves at most the one thread it is about: to the end of its ready list, to the head of the defunct
      list, to the place among the waiters that their order says, or off all lists; everybody else keeps place and
      order. */
  lemma StepMoves(s: State, op: Op)
    requires Inv(s) && Legal(s, op)
    ensures if MovesThread(s, op) then Moves(s, Step(s, op), Touched(s, op)) else Stays(s, Step(s, op))
  {
    if op.DoSuspendNow? || op.DoTakeOff? || op.DoPutBack? || op.DoSetPriority? || op.DoRemove? || op.DoBury? || op.DoDelete? {
      OtherMoves(s, op);
    } else if op.DoSleep? || op.DoYield? || op.DoExit? || op.DoTake? {
      CurrentMoves(s, op);
    } else {
      WakeUpMoves(s, op);
    }
  }

  lemma OtherMoves(s: State, op: Op)
    requires Inv(s) && Legal(s, op)
    requires op.DoSuspendNow? || op.DoTakeOff? || op.DoPutBack? || op.DoSetPriority? || op.DoRemove? || op.DoBury? || op.DoDelete?
    ensures if MovesThread(s, op) then Moves(s, Step(s, op), op.id) else Stays(s, Step(s, op))
  {
    match op
    case DoSuspendNow(id) => SuspendDrops(s, id);
    case DoTakeOff(id) => SuspendDrops(s, id);
    case DoPutBack(id) => assert Sound(s.threads[id]); PutBackMoves(s, id);
    case DoSetPriority(id, p) => SetPriorityMoves(s, id, p);
    case DoRemove(id) => RemoveDrops(s, id);
    case DoBury(id) => assert Sound(s.threads[id]); NowhereDrops(s, id); BuryMoves(s, s, id);
    case DoDelete(id) => DeleteMoves(s, id);
  }

  lemma CurrentMoves(s: State, op: Op)
    requires Inv(s) && Legal(s, op) && (op.DoSleep? || op.DoYield? || op.DoExit? || op.DoTake?)
    ensures if MovesThread(s, op) then Moves(s, Step(s, op), s.current) else Stays(s, Step(s, op))
  {
    match op
    case DoSleep => SleepDrops(s);
    case DoYield => YieldMoves(s);
    case DoExit => ExitMoves(s);
    case DoTake(k, time) => if Blocks(s, k, time) { BlockingMoves(s, k, time > 0); }
  }

  lemma WakeUpMoves(s: State, op: Op)
    requires Inv(s) && Legal(s, op) && !op.DoSleep? && !op.DoYield? && !op.DoExit? && !op.DoTake?
    requires !op.DoSuspendNow? && !op.DoTakeOff? && !op.DoPutBack? && !op.DoSetPriority? && !op.DoRemove? && !op.DoBury? && !op.DoDelete?
    ensures if MovesThread(s, op) then Moves(s, Step(s, op), Touched(s, op)) else Stays(s, Step(s, op))
  {
    match op
    case DoTimeout(id) => FiredMoves(s, id); ScheduleStays(Fired(s, id));
    case DoRelease(k) => if s.sems[k].waiters != [] { FirstWaiter(s, k); HandOverMoves(s, k); }
    case _ =>
  }

  // ---------------------------------------------------------------- what the calls answer

  /** rt_thread_suspend succeeds exactly for a ready thread, which is suspended then, off all lists and without a timer;
      otherwise it changes nothing. */
  lemma SuspendAnswers(s: State, id: nat)
    requires Inv(s) && id in s.threads
    ensures var (t, ok) := Suspend(s, id);
      && (ok <==> s.threads[id].stat == Ready)
      && (!ok ==> t == s)
      && (ok ==> id in t.threads && Drops(s, t, id)
                 && t.threads[id] == s.threads[id].(stat := Suspended, armed := false, node := Nowhere))
  {
    SuspendNowIs(s, id);
    SuspendDrops(s, id);
  }

  /** rt_thread_resume succeeds exactly for a suspended thread, which is then ready, last on the list of its priority,
      and without a timer; otherwise it changes nothing. */
  lemma ResumeAnswers(s: State, id: nat)
    requires Inv(s) && id in s.threads
    ensures var ((t, ok), x) := (Resume(s, id), s.threads[id]);
      && (ok <==> x.stat == Suspended)
      && (!ok ==> t == s)
      && (ok ==> id in t.threads && Moves(s, t, id)
                 && t.threads[id] == x.(stat := Ready, armed := false, stage := Whole, node := OnReady(x.prio)))
  {
    assert Sound(s.threads[id]);
    if s.threads[id].stat == Suspended {
      ResumeIs(s, id);
      ResumeMoves(s, s, id);
    }
  }

  // ---------------------------------------------------------------- who runs after a call

  /** The running thread is ready and the first of the most urgent list: no ready thread is more urgent, and none of
      the same priority has been ready for longer. */
  predicate TopRuns(t: State) {
    && t.current in t.threads && t.threads[t.current].stat == Ready && t.threads[t.current].stage.Whole?
    && t.threads[t.current].prio < |t.ready| && t.ready[t.threads[t.current].prio] != []
    && t.ready[t.threads[t.current].prio][0] == t.current
    && forall id :: id in t.threads && t.threads[id].stat == Ready && t.threads[id].stage.Whole? ==>
         t.threads[t.current].prio <= t.threads[id].prio
  }

  lemma SchedulePreempts(s: State)
    requires Inv(s)
    ensures s.nest == 0 ==> TopRuns(Schedule(s))
    ensures s.nest != 0 ==> Schedule(s).current == s.current
  {
    if s.nest == 0 { MostUrgentRuns(s); }
  }

  /** When rt_sem_release has woken a waiter, or a timer has fired, the most urgent thread runs, the woken one if that
      is it; under a locked scheduler, and where nobody is woken, the same thread runs on. */
  lemma WakeUpPreempts(s: State, op: Op)
    requires Inv(s) && Legal(s, op) && (op.DoRelease? || op.DoTimeout?)
    ensures var t := if op.DoRelease? then ReleaseCall(s, op.sem) else Step(s, op);
      var woken := op.DoRelease? ==> s.sems[op.sem].waiters != [];
      && (woken && s.nest == 0 ==> TopRuns(t))
      && (!woken || s.nest != 0 ==> t.current == s.current)
  {
    StepTouches(s, op);
    match op
    case DoRelease(k) => ReleaseInv(s, k); SchedulePreempts(Release(s, k));
    case DoTimeout(id) => FiredInv(s, id); FiredIs(s, id); SchedulePreempts(Fired(s, id));
  }

  /** A thread that yields to others of its priority, or has to wait for a semaphore, is not the one that runs next,
      and the most urgent thread does; otherwise it runs on. */
  lemma GivingUpPreempts(s: State, k: nat, time: int)
    requires Inv(s) && s.nest == 0 && Running(s) && s.current != IDLE && k in s.sems
    ensures Yields(s) ==> TopRuns(YieldCall(s)) && YieldCall(s).current != s.current
    ensures !Yields(s) ==> YieldCall(s) == s
    ensures Blocks(s, k, time) ==> TopRuns(TakeCall(s, k, time).0) && TakeCall(s, k, time).0.current != s.current
    ensures !Blocks(s, k, time) ==> TakeCall(s, k, time).0.current == s.current
  {
    if Yields(s) { YieldPreempts(s); }
    if Blocks(s, k, time) { BlockedPreempts(s, k, time > 0); }
  }

  lemma YieldPreempts(s: State)
    requires Inv(s) && s.nest == 0 && Yields(s)
    ensures TopRuns(YieldCall(s)) && YieldCall(s).current != s.current
  {
    var (me, t) := (s.current, Yield(s));
    YieldInv(s);
    YieldIs(s);
    SchedulePreempts(t);
    GoesBehind(s);
  }

  /** The thread that yields is not the first of its list any more. */
  lemma GoesBehind(s: State)
    requires Inv(s) && Yields(s)
    ensures var q := OnReady(s.threads[s.current].prio); Queue(Yield(s), q) != [] && Queue(Yield(s), q)[0] != s.current
  {
    var (me, q) := (s.current, OnReady(s.threads[s.current].prio));
    assert Sound(s.threads[me]) && Holds(s, q);
    YieldMoves(s);
    YieldIs(s);
    Leaves(Queue(s, q), me);
    DropLength(Queue(s, q), me);
    assert Drop(Queue(s, q), me)[0] in Drop(Queue(s, q), me);
  }

  lemma BlockedPreempts(s: State, k: nat, timed: bool)
    requires Inv(s) && s.nest == 0 && Running(s) && s.current != IDLE && k in s.sems && s.sems[k].value == 0
    ensures TopRuns(SwitchAway(Blocking(s, k, timed))) && SwitchAway(Blocking(s, k, timed)).current != s.current
  {
    var u := Blocking(s, k, timed);
    assert Inv(u) && u.nest == 0 && u.current == s.current && u.threads[s.current].stat == Suspended by {
      assert Sound(s.threads[s.current]);
      BlockingInv(s, k, timed);
      BlockingIs(s, k, timed);
    }
    AwayPreempts(u);
  }

  lemma AwayPreempts(s: State)
    requires Inv(s) && s.nest == 0 && s.threads[s.current].stat != Ready
    ensures TopRuns(SwitchAway(s)) && SwitchAway(s).current != s.current
  {
    assert Sound(s.threads[s.current]);
    SetInv(s, s.current, s.threads[s.current].(leaving := false));
    SchedulePreempts(Set(s, s.current, s.threads[s.current].(leaving := false)));
    SwitchesAway(s);
  }

  // ---------------------------------------------------------------- nobody is overtaken

  /** Thread `a` is in front of thread `b`. */
  ghost predicate InFront(xs: seq<nat>, a: nat, b: nat) {
    exists i, j :: 0 <= i < j < |xs| && xs[i] == a && xs[j] == b
  }

  lemma DropKeepsFront(xs: seq<nat>, x: nat, a: nat, b: nat)
    requires InFront(xs, a, b) && x != a && x != b
    ensures InFront(Drop(xs, x), a, b)
  {
    var i, j :| 0 <= i < j < |xs| && xs[i] == a && xs[j] == b;
    if x in xs {
      var k := DropsAt(xs, x);
      var (m, n) := (if i < k then i else i - 1, if j < k then j else j - 1);
      assert Drop(xs, x)[m] == a && Drop(xs, x)[n] == b;
    } else {
      DropAbsent(xs, x);
    }
  }

  lemma PutKeepsFront(xs: seq<nat>, k: nat, x: nat, a: nat, b: nat)
    requires InFront(xs, a, b) && k <= |xs|
    ensures InFront(xs[..k] + [x] + xs[k..], a, b)
  {
    var i, j :| 0 <= i < j < |xs| && xs[i] == a && xs[j] == b;
    var ys := xs[..k] + [x] + xs[k..];
    var (m, n) := (if i < k then i else i + 1, if j < k then j else j + 1);
    assert ys[m] == a && ys[n] == b;
  }

  lemma PutInKeepsFront(t: State, q: Place, xs: seq<nat>, id: nat, ys: seq<nat>, a: nat, b: nat)
    requires q != Nowhere && PutIn(t, q, xs, id, ys) && InFront(xs, a, b)
    ensures InFront(ys, a, b)
  {
    match q
    case OnReady(_) => PutKeepsFront(xs, |xs|, id, a, b); assert ys == xs[..|xs|] + [id] + xs[|xs|..];
    case OnDefunct => PutKeepsFront(xs, 0, id, a, b); assert ys == xs[..0] + [id] + xs[0..];
    case OnSem(k) =>
      var i: nat :| JoinsAt(xs, t.sems[k].flag, Priorities(t.threads), id, i) && ys == xs[..i] + [id] + xs[i..];
      PutKeepsFront(xs, i, id, a, b);
  }

  /** Steps that move neither of two threads. */
  function MovesNeither(a: nat, b: nat): (State, Op) -> bool {
    (s: State, op: Op) => Legal(s, op) && (MovesThread(s, op) ==> Touched(s, op) != a && Touched(s, op) != b)
  }

  lemma StepKeepsFront(s: State, op: Op, q: Place, a: nat, b: nat)
    requires Inv(s) && MovesNeither(a, b)(s, op) && q != Nowhere && InFront(Queue(s, q), a, b)
    ensures InFront(Queue(Step(s, op), q), a, b)
  {
    var (t, x) := (Step(s, op), Touched(s, op));
    StepMoves(s, op);
    if MovesThread(s, op) {
      DropKeepsFront(Queue(s, q), x, a, b);
      if q == t.threads[x].node { PutInKeepsFront(t, q, Drop(Queue(s, q), x), x, Queue(t, q), a, b); }
    }
  }

  /** Of two threads on a list, ready ones or waiters, the one in front stays in front as long as neither of them is
      moved, whatever happens to all others. */
  lemma NoOvertaking(s: State, ops: seq<Op>, t: State, q: Place, a: nat, b: nat)
    requires Inv(s) && Awaits(s) && q != Nowhere && InFront(Queue(s, q), a, b)
    requires Reaches(MovesNeither(a, b), Run, s, ops, t)
    ensures InFront(Queue(t, q), a, b)
  {
    var inv := (x: State) => Inv(x) && Awaits(x) && InFront(Queue(x, q), a, b);
    forall x: State, o: Op | inv(x) && MovesNeither(a, b)(x, o)
      ensures inv(Run(x, o))
    {
      StepInv(x, o);
      StepKeepsFront(x, o, q, a, b);
    }
    RunKeeps(inv, MovesNeither(a, b), Run, s, ops, t);
  }

  // ---------------------------------------------------------------- the lock

  /** How deep the lock is after `ops`: one deeper for every rt_enter_critical, one less deep for every
      rt_exit_critical, but not less than unlocked. */
  function Depth(n: nat, ops: seq<Op>): nat
    decreases |ops|
  {
    if ops == [] then n
    else if ops[0].DoEnterCritical? then Depth(n + 1, ops[1..])
    else if ops[0].DoExitCritical? then Depth(if n > 0 then n - 1 else 0, ops[1..])
    else Depth(n, ops[1..])
  }

  /** The scheduler is unlocked exactly if every rt_enter_critical has been matched. */
  lemma {:induction false} LockNests(s: State, ops: seq<Op>, t: State)
    requires Inv(s) && Awaits(s) && Reaches(Legal, Run, s, ops, t)
    ensures t.nest == Depth(s.nest, ops)
    decreases |ops|
  {
    if ops != [] {
      StepInv(s, ops[0]);
      StepTouches(s, ops[0]);
      LockNests(Run(s, ops[0]), ops[1..], t);
    }
  }
}
