/** The mutex of ipc.c with priority inheritance, for one mutex and threads whose own priorities do not change: who
    owns it, who waits, and at which priority everybody runs. */
module MutexSpec {
  import opened Words
  import opened Lists
  import opened Runs
  import opened WaitList

  const RT_THREAD_PRIORITY_MAX := 32
  const HOLD := 256   // `hold` is a rt_uint8_t

  /** `Blocked`: on the list of waiters; `Granted`: handed the mutex by a release and about to return from its take. */
  datatype Phase = Running | Blocked(timed: bool) | Granted | TimedOut

  /** `base` is the priority the thread has of itself, `prio` the one it runs at; `takes` counts its successful takes
      that it has not matched with a release yet. */
  datatype Thread = Thread(base: nat, prio: nat, phase: Phase, takes: nat)

  datatype Result = Ok | Etimeout | Error | Waits

  /** `boost` is the most urgent priority of a thread that has blocked since the owner got the mutex (32 if none has);
      `nest` is how often the scheduler is locked. */
  datatype State = State(owner: Option<nat>, hold: nat, boost: nat, waiters: seq<nat>, flag: Flag,
                         threads: map<nat, Thread>, nest: nat)

  datatype Op =
    | DoTake(id: nat, time: int)
    | DoRelease(id: nat)
    | DoTimeout(id: nat)
    | DoReturn(id: nat)
    | DoEnterCritical
    | DoExitCritical

  function Prios(threads: map<nat, Thread>): nat -> nat {
    id => if id in threads then threads[id].prio else 0
  }

  function Set(s: State, id: nat, t: Thread): State {
    s.(threads := s.threads[id := t])
  }

  function Min(a: nat, b: nat): nat {
    if a < b then a else b
  }

  // ---------------------------------------------------------------- the steps

  /** The section of rt_mutex_take. */
  function Take(s: State, id: nat, time: int): (State, Result)
    requires id in s.threads
  {
    var t := s.threads[id];
    if s.owner == Some(id) then (Set(s, id, t.(takes := t.takes + 1)).(hold := (s.hold + 1) % HOLD), Ok)
    else if s.owner.None? then
      (Set(s, id, t.(takes := t.takes + 1))
         .(owner := Some(id), hold := (s.hold + 1) % HOLD, boost := RT_THREAD_PRIORITY_MAX), Ok)
    else if time == 0 then (s, Etimeout)
    else (Block(s, id, time > 0), Waits)
  }

  /** rt_mutex_take with nothing between its section and its rt_schedule. With the scheduler unlocked a thread that
      has to wait stops running there; with it locked the thread runs on and returns what its error field says. */
  function TakeCall(s: State, id: nat, time: int): (State, Result)
    requires id in s.threads
  {
    var (t, r) := Take(s, id, time);
    (t, if r == Waits && s.nest != 0 then Ok else r)
  }

  /** Whether rt_mutex_take puts thread `id` on the list of waiters. */
  predicate MustWait(s: State, id: nat, time: int) {
    s.owner.Some? && s.owner != Some(id) && time != 0
  }

  /** The owner inherits the priority of thread `id` if that is more urgent, and the thread joins the waiters. */
  function Block(s: State, id: nat, timed: bool): State
    requires id in s.threads
  {
    var r := Set(Inherit(s, s.threads[id].prio), id, s.threads[id].(phase := Blocked(timed)));
    r.(waiters := Enqueue(s.waiters, s.flag, Prios(r.threads), id))
  }

  function Inherit(s: State, p: nat): State {
    var r := s.(boost := Min(s.boost, p));
    if s.owner.Some? && s.owner.value in s.threads && p < s.threads[s.owner.value].prio then
      Set(r, s.owner.value, s.threads[s.owner.value].(prio := p))
    else r
  }

  /** rt_mutex_release */
  function Release(s: State, id: nat): (State, Result)
    requires id in s.threads
  {
    if s.owner != Some(id) then (s, Error)
    else
      var t := s.threads[id];
      var u := t.(takes := if t.takes > 0 then t.takes - 1 else 0);
      var hold := (s.hold + HOLD - 1) % HOLD;
      if hold > 0 then (Set(s, id, u).(hold := hold), Ok)
      else (GiveUp(Set(s, id, u.(prio := t.base)).(hold := hold)), Ok)
  }

  /** The first waiter becomes the owner, if there is one. */
  function GiveUp(s: State): State {
    if s.waiters != [] && s.waiters[0] in s.threads then
      var w := s.waiters[0];
      Set(s, w, s.threads[w].(phase := Granted))
        .(owner := Some(w), hold := (s.hold + 1) % HOLD, boost := RT_THREAD_PRIORITY_MAX, waiters := s.waiters[1..])
    else s.(owner := None, boost := RT_THREAD_PRIORITY_MAX)
  }

  /** The client rule: nobody waits for the mutex with the scheduler locked. */
  predicate Legal(s: State, op: Op) {
    match op
    case DoTake(id, time) => id in s.threads && s.threads[id].phase == Running && (MustWait(s, id, time) ==> s.nest == 0)
    case DoRelease(id) => id in s.threads && s.threads[id].phase == Running
    case DoTimeout(id) => id in s.threads && s.threads[id].phase == Blocked(true)
    case DoReturn(id) => id in s.threads && (s.threads[id].phase == Granted || s.threads[id].phase == TimedOut)
    case DoEnterCritical => true
    case DoExitCritical => true
  }

  function Step(s: State, op: Op): (State, Result)
    requires Legal(s, op)
  {
    match op
    case DoTake(id, time) => Take(s, id, time)
    case DoRelease(id) => Release(s, id)
    case DoTimeout(id) =>
      (Set(s, id, s.threads[id].(phase := TimedOut)).(waiters := Drop(s.waiters, id)), Waits)
    case DoReturn(id) =>
      var t := s.threads[id];
      if t.phase == Granted then (Set(s, id, t.(phase := Running, takes := t.takes + 1)), Ok)
      else (Set(s, id, t.(phase := Running)), Etimeout)
    case DoEnterCritical => (s.(nest := s.nest + 1), Ok)
    case DoExitCritical => (s.(nest := if s.nest <= 1 then 0 else s.nest - 1), Ok)
  }

  /** Step, for runs: what is not legal does nothing. */
  function Run(s: State, op: Op): State {
    if Legal(s, op) then Step(s, op).0 else s
  }

  function Init(flag: Flag, prios: map<nat, nat>): State {
    State(None, 0, RT_THREAD_PRIORITY_MAX, [], flag, map id | id in prios :: Thread(prios[id], prios[id], Running, 0), 0)
  }

  /** Whether the release gives the mutex up. */
  predicate GivesUp(s: State, op: Op) {
    op.DoRelease? && s.owner == Some(op.id) && (s.hold + HOLD - 1) % HOLD == 0
  }

  // ---------------------------------------------------------------- the invariant

  /** The owner has taken the mutex or is about to return with it, and `hold` counts its takes modulo 256; the takes
      of others that are not matched make up full rounds of the counter; without an owner nobody waits; the list holds
      exactly the blocked threads. */
  ghost predicate Ownership(s: State) {
    && (s.owner.Some? ==> s.owner.value in s.threads && Owns(s.threads[s.owner.value], s.hold))
    && (forall id :: id in s.threads && s.owner != Some(id) ==> OwnsNot(s.threads[id]))
    && (s.owner.None? ==> s.hold == 0 && s.waiters == [])
    && Distinct(s.waiters)
    && (forall id :: id in s.waiters <==> id in s.threads && s.threads[id].phase.Blocked?)
  }

  predicate Owns(t: Thread, hold: nat) {
    || (t.phase == Running && t.takes > 0 && hold == t.takes % HOLD)
    || (t.phase == Granted && t.takes % HOLD == 0 && hold == 1)
  }

  predicate OwnsNot(t: Thread) {
    t.phase != Granted && t.takes % HOLD == 0
  }

  /** Every thread but the owner runs at its own priority, and the owner at the most urgent of its own and those of
      the threads that have blocked since it got the mutex. */
  ghost predicate Priorities(s: State) {
    && s.boost <= RT_THREAD_PRIORITY_MAX
    && (forall id :: id in s.threads ==> s.threads[id].base < RT_THREAD_PRIORITY_MAX)
    && (forall id :: id in s.threads ==>
          s.threads[id].prio == if s.owner == Some(id) then Min(s.threads[id].base, s.boost) else s.threads[id].base)
  }

  /** No waiter is more urgent than the owner. */
  predicate Urgent(s: State) {
    s.owner.Some? && s.owner.value in s.threads ==>
      forall w :: w in s.waiters && w in s.threads ==> s.threads[s.owner.value].prio <= s.threads[w].prio
  }

  /** In priority order: the most urgent waiter is first, and none is more urgent than the owner. */
  predicate Inheritance(s: State) {
    s.flag == Prio ==> ByPriority(s.waiters, Prios(s.threads)) && Urgent(s)
  }

  ghost predicate Inv(s: State) {
    Ownership(s) && Priorities(s) && Inheritance(s)
  }

  /** The order of a list only depends on the priorities of its own threads. */
  lemma OrderFrame(ws: seq<nat>, f: nat -> nat, g: nat -> nat)
    requires ByPriority(ws, f) && forall w :: w in ws ==> g(w) == f(w)
    ensures ByPriority(ws, g)
  {
  }

  lemma InheritIs(s: State, p: nat)
    requires Inv(s) && s.owner.Some? && p < RT_THREAD_PRIORITY_MAX
    ensures var (r, o) := (Inherit(s, p), s.owner.value);
      && r.threads.Keys == s.threads.Keys && (forall x :: x in s.threads && x != o ==> r.threads[x] == s.threads[x])
      && r.threads[o] == s.threads[o].(prio := Min(s.threads[o].prio, p))
      && r == s.(boost := Min(s.boost, p), threads := r.threads)
  {
    var o := s.owner.value;
    assert Min(s.threads[o].prio, p) == if p < s.threads[o].prio then p else s.threads[o].prio;
    assert p >= s.threads[o].prio ==> s.threads[o].(prio := s.threads[o].prio) == s.threads[o];
  }

  /** Thread `id` may have to wait for the owner, another thread. */
  predicate HasToWait(s: State, id: nat) {
    id in s.threads && s.threads[id].phase == Running && s.owner.Some? && s.owner != Some(id)
  }

  /** The threads after thread `id` has blocked. */
  lemma BlockThreads(s: State, id: nat, timed: bool)
    requires Inv(s) && HasToWait(s, id)
    ensures var (t, o, p) := (Block(s, id, timed), s.owner.value, s.threads[id].prio);
      && o in s.threads && p < RT_THREAD_PRIORITY_MAX
      && t.threads.Keys == s.threads.Keys
      && (forall x :: x in s.threads && x != o && x != id ==> t.threads[x] == s.threads[x])
      && t.threads[o] == s.threads[o].(prio := Min(s.threads[o].prio, p))
      && t.threads[id] == s.threads[id].(phase := Blocked(timed))
      && t == s.(boost := Min(s.boost, p), threads := t.threads,
                 waiters := Enqueue(s.waiters, s.flag, Prios(t.threads), id))
  {
    InheritIs(s, s.threads[id].prio);
  }

  lemma BlockOwnership(s: State, id: nat, timed: bool)
    requires Inv(s) && HasToWait(s, id)
    ensures Ownership(Block(s, id, timed))
  {
    var t := Block(s, id, timed);
    BlockThreads(s, id, timed);
    Joins(s.waiters, s.flag, Prios(t.threads), id);
  }

  lemma BlockPriorities(s: State, id: nat, timed: bool)
    requires Inv(s) && HasToWait(s, id)
    ensures Priorities(Block(s, id, timed))
  {
    BlockThreads(s, id, timed);
  }

  /** A blocking thread hands its priority to the owner, so the owner is urgent compared with it. */
  lemma BlockUrgent(s: State, id: nat, timed: bool, early: set<nat>)
    requires Inv(s) && HasToWait(s, id) && UrgentBut(s, early)
    ensures UrgentBut(Block(s, id, timed), early)
  {
    var t := Block(s, id, timed);
    BlockThreads(s, id, timed);
    Joins(s.waiters, s.flag, Prios(t.threads), id);
  }

  /** No waiter outside `early` is more urgent than the owner. */
  predicate UrgentBut(s: State, early: set<nat>) {
    s.owner.Some? && s.owner.value in s.threads ==>
      forall w :: w in s.waiters && w in s.threads && w !in early ==> s.threads[s.owner.value].prio <= s.threads[w].prio
  }

  lemma BlockInheritance(s: State, id: nat, timed: bool)
    requires Inv(s) && HasToWait(s, id)
    ensures Inheritance(Block(s, id, timed))
  {
    var t := Block(s, id, timed);
    BlockThreads(s, id, timed);
    if s.flag == Prio {
      BlockUrgent(s, id, timed, {});
      assert s.owner.value !in s.waiters;
      OrderFrame(s.waiters, Prios(s.threads), Prios(t.threads));
      PriorityOrderKept(s.waiters, Prios(t.threads), id);
    }
  }

  /** The owner with another number of takes. */
  lemma CountInv(s: State, id: nat, n: nat)
    requires Inv(s) && id in s.threads && s.threads[id].phase == Running && s.owner == Some(id) && n > 0
    ensures Inv(Set(s, id, s.threads[id].(takes := n)).(hold := n % HOLD))
  {
    var t := Set(s, id, s.threads[id].(takes := n)).(hold := n % HOLD);
    if s.flag == Prio { OrderFrame(s.waiters, Prios(s.threads), Prios(t.threads)); }
  }

  lemma TakeFreeInv(s: State, id: nat)
    requires Inv(s) && id in s.threads && s.threads[id].phase == Running && s.owner.None?
    ensures Inv(Take(s, id, 0).0)
  {
    NextHold(s.threads[id].takes);
  }

  lemma NextHold(takes: nat)
    ensures (takes + 1) % HOLD == (takes % HOLD + 1) % HOLD
    ensures takes > 0 ==> (takes - 1) % HOLD == (takes % HOLD + HOLD - 1) % HOLD
  {
  }

  lemma TakeInv(s: State, id: nat, time: int)
    requires Inv(s) && id in s.threads && s.threads[id].phase == Running
    ensures Inv(Take(s, id, time).0)
  {
    if s.owner == Some(id) {
      NextHold(s.threads[id].takes);
      CountInv(s, id, s.threads[id].takes + 1);
    } else if s.owner.None? {
      TakeFreeInv(s, id);
    } else if time != 0 {
      BlockOwnership(s, id, time > 0);
      BlockPriorities(s, id, time > 0);
      BlockInheritance(s, id, time > 0);
    }
  }

  /** The next release by thread `id` gives the mutex up. */
  predicate Last(s: State, id: nat) {
    id in s.threads && s.threads[id].phase == Running && s.owner == Some(id) && s.hold == 1
  }

  lemma ReleaseNoWaiter(s: State, id: nat)
    requires Inv(s) && Last(s, id) && s.waiters == []
    ensures Inv(Release(s, id).0)
  {
    NextHold(s.threads[id].takes);
  }

  /** A release that does not give the mutex up. */
  lemma ReleaseCounts(s: State, id: nat)
    requires Inv(s) && Legal(s, DoRelease(id)) && s.owner == Some(id) && s.hold != 1
    ensures var n := s.threads[id].takes;
      n > 1 && Release(s, id) == (Set(s, id, s.threads[id].(takes := n - 1)).(hold := (n - 1) % HOLD), Ok)
      && (n - 1) % HOLD == (s.hold + HOLD - 1) % HOLD
  {
    assert Owns(s.threads[id], s.hold);
    NextHold(s.threads[id].takes);
  }

  lemma HandOverIs(s: State, id: nat)
    requires Inv(s) && Last(s, id) && s.waiters != []
    ensures var (t, w) := (Release(s, id).0, s.waiters[0]);
      && w in s.threads && w != id && w in t.threads && id in t.threads && t.threads.Keys == s.threads.Keys
      && (forall x :: x in s.threads && x != id && x != w ==> t.threads[x] == s.threads[x])
      && t.threads[id] == s.threads[id].(prio := s.threads[id].base, takes := s.threads[id].takes - 1)
      && t.threads[w] == s.threads[w].(phase := Granted)
      && t == State(Some(w), 1, RT_THREAD_PRIORITY_MAX, s.waiters[1..], s.flag, t.threads, s.nest)
  {
    assert s.waiters[0] in s.waiters;
  }

  lemma HandOverInv(s: State, id: nat)
    requires Inv(s) && Last(s, id) && s.waiters != []
    ensures Inv(Release(s, id).0)
  {
    HandOverOwnership(s, id);
    HandOverPriorities(s, id);
    HandOverInheritance(s, id);
  }

  lemma HandOverOwnership(s: State, id: nat)
    requires Inv(s) && Last(s, id) && s.waiters != []
    ensures Ownership(Release(s, id).0)
  {
    HandOverIs(s, id);
    NextHold(s.threads[id].takes);
    assert s.waiters == [s.waiters[0]] + s.waiters[1..];
  }

  lemma HandOverPriorities(s: State, id: nat)
    requires Inv(s) && Last(s, id) && s.waiters != []
    ensures Priorities(Release(s, id).0)
  {
    HandOverIs(s, id);
  }

  lemma HandOverInheritance(s: State, id: nat)
    requires Inv(s) && Last(s, id) && s.waiters != []
    ensures Inheritance(Release(s, id).0)
  {
    var t := Release(s, id).0;
    HandOverIs(s, id);
    assert id !in s.waiters;
    if s.flag == Prio {
      OrderFrame(s.waiters, Prios(s.threads), Prios(t.threads));
      FirstIsMostUrgent(s.waiters, Prios(t.threads));
    }
  }

  lemma FirstIsMostUrgent(ws: seq<nat>, prio: nat -> nat)
    requires ByPriority(ws, prio) && ws != []
    ensures ByPriority(ws[1..], prio) && forall w :: w in ws[1..] ==> prio(ws[0]) <= prio(w)
  {
    forall w | w in ws[1..]
      ensures prio(ws[0]) <= prio(w)
    {
      var j :| 0 <= j < |ws| - 1 && ws[1..][j] == w;
      assert ws[j + 1] == w;
    }
    assert forall i :: 0 <= i < |ws| - 1 ==> ws[1..][i] == ws[i + 1];
  }

  lemma ReleaseInv(s: State, id: nat)
    requires Inv(s) && Legal(s, DoRelease(id))
    ensures Inv(Release(s, id).0)
  {
    if s.owner == Some(id) {
      if s.hold != 1 {
        ReleaseCounts(s, id);
        CountInv(s, id, s.threads[id].takes - 1);
      } else if s.waiters == [] {
        ReleaseNoWaiter(s, id);
      } else {
        HandOverInv(s, id);
      }
    }
  }

  lemma TimeoutInv(s: State, id: nat)
    requires Inv(s) && Legal(s, DoTimeout(id))
    ensures Inv(Step(s, DoTimeout(id)).0)
  {
    var t := Step(s, DoTimeout(id)).0;
    Leaves(s.waiters, id);
    if s.flag == Prio {
      OrderFrame(s.waiters, Prios(s.threads), Prios(t.threads));
      PriorityOrderAfterDrop(s.waiters, Prios(t.threads), id);
    }
  }

  lemma ReturnOwnership(s: State, id: nat)
    requires Inv(s) && Legal(s, DoReturn(id))
    ensures Ownership(Step(s, DoReturn(id)).0)
  {
    NextHold(s.threads[id].takes);
  }

  lemma ReturnInheritance(s: State, id: nat)
    requires Inv(s) && Legal(s, DoReturn(id))
    ensures Inheritance(Step(s, DoReturn(id)).0)
  {
    var t := Step(s, DoReturn(id)).0;
    if s.flag == Prio { OrderFrame(s.waiters, Prios(s.threads), Prios(t.threads)); }
  }

  lemma ReturnInv(s: State, id: nat)
    requires Inv(s) && Legal(s, DoReturn(id))
    ensures Inv(Step(s, DoReturn(id)).0)
  {
    ReturnOwnership(s, id);
    ReturnInheritance(s, id);
  }

  lemma StepInv(s: State, op: Op)
    requires Inv(s) && Legal(s, op)
    ensures Inv(Step(s, op).0)
  {
    match op
    case DoTake(id, time) => TakeInv(s, id, time);
    case DoRelease(id) => ReleaseInv(s, id);
    case DoTimeout(id) => TimeoutInv(s, id);
    case DoReturn(id) => ReturnInv(s, id);
    case _ => NestInv(s, op);
  }

  lemma NestInv(s: State, op: Op)
    requires Inv(s) && (op.DoEnterCritical? || op.DoExitCritical?)
    ensures Inv(Step(s, op).0) && Step(s, op).0.threads == s.threads && Step(s, op).0.owner == s.owner
  {
    var t := Step(s, op).0;
    if s.flag == Prio { OrderFrame(s.waiters, Prios(s.threads), Prios(t.threads)); }
  }

  /** In every run in which nobody waits with the scheduler locked, with any number of nested takes. */
  lemma RunInv(flag: Flag, prios: map<nat, nat>, ops: seq<Op>, t: State)
    requires forall id :: id in prios ==> prios[id] < RT_THREAD_PRIORITY_MAX
    requires Reaches(Legal, Run, Init(flag, prios), ops, t)
    ensures Inv(t)
  {
    StartsExclusive(flag, prios);
    forall s: State, op: Op | Inv(s) && Legal(s, op)
      ensures Inv(Run(s, op))
    {
      StepInv(s, op);
    }
    RunKeeps(Inv, Legal, Run, Init(flag, prios), ops, t);
  }

  // ---------------------------------------------------------------- taking under a locked scheduler

  /** rt_mutex_take returns RT_EOK to a thread that does not own the mutex then. */
  predicate FalseSuccess(s: State, id: nat, time: int)
    requires id in s.threads
  {
    var (t, r) := TakeCall(s, id, time);
    r == Ok && t.owner != Some(id)
  }

  /** That happens if and only if the thread has to wait while the scheduler is locked. */
  lemma TakeUnderLock(s: State, id: nat, time: int)
    requires Inv(s) && id in s.threads && s.threads[id].phase == Running
    ensures FalseSuccess(s, id, time) <==> MustWait(s, id, time) && s.nest != 0
  {
    if MustWait(s, id, time) { BlockThreads(s, id, time > 0); }
  }

  /** A reachable state in which thread 1 owns the mutex with one take, and a second take is told that it succeeded. */
  lemma LockedTakeReached(flag: Flag) returns (ops: seq<Op>, t: State)
    ensures Reaches(Within, Run, Init(flag, map[1 := 10, 2 := 20]), ops, t)
    ensures 1 in t.threads && 2 in t.threads && t.owner == Some(1) && t.threads[1].takes == 1
    ensures t.threads[2].phase == Running && FalseSuccess(t, 2, -1)
  {
    var s := Init(flag, map[1 := 10, 2 := 20]);
    var a := OneInside(s, flag);
    OneStep(Within, Run, a, DoEnterCritical);
    ops, t := [DoTake(1, 0)] + [DoEnterCritical], a.(nest := 1);
    Continues(Within, Run, s, [DoTake(1, 0)], a, [DoEnterCritical], t);
    NestInv(a, DoEnterCritical);
    TakeUnderLock(t, 2, -1);
  }

  lemma OneInside(s: State, flag: Flag) returns (t: State)
    requires s == Init(flag, map[1 := 10, 2 := 20])
    ensures Reaches(Within, Run, s, [DoTake(1, 0)], t) && Inv(t) && t.nest == 0
    ensures 1 in t.threads && 2 in t.threads && t.owner == Some(1) && t.threads[1].takes == 1 && t.threads[2].phase == Running
  {
    StartsExclusive(flag, map[1 := 10, 2 := 20]);
    TakeFreeInv(s, 1);
    OneStep(Within, Run, s, DoTake(1, 0));
    t := Take(s, 1, 0).0;
  }

  // ---------------------------------------------------------------- exclusion and the eight-bit counter

  /** Nobody but the owner is inside, and the owner is within what the counter can tell apart. */
  ghost predicate Exclusive(s: State) {
    forall id :: id in s.threads ==>
      if s.owner == Some(id) && s.threads[id].phase == Running then s.threads[id].takes <= HOLD else s.threads[id].takes == 0
  }

  /** The owner does not take the mutex a 257th time. */
  predicate Within(s: State, op: Op) {
    Legal(s, op) && (op.DoTake? && s.owner == Some(op.id) ==> s.threads[op.id].takes < HOLD)
  }

  lemma StepExclusive(s: State, op: Op)
    requires Inv(s) && Exclusive(s) && Within(s, op)
    ensures Exclusive(Step(s, op).0)
  {
    match op
    case DoTake(id, time) => if HasToWait(s, id) && time != 0 { BlockThreads(s, id, time > 0); }
    case DoRelease(id) => ReleaseExclusive(s, id);
    case _ =>
  }

  lemma ReleaseExclusive(s: State, id: nat)
    requires Inv(s) && Exclusive(s) && Legal(s, DoRelease(id))
    ensures Exclusive(Release(s, id).0)
  {
    if Last(s, id) && s.waiters != [] { HandOverIs(s, id); }
  }

  lemma StartsExclusive(flag: Flag, prios: map<nat, nat>)
    requires forall id :: id in prios ==> prios[id] < RT_THREAD_PRIORITY_MAX
    ensures Inv(Init(flag, prios)) && Exclusive(Init(flag, prios))
  {
  }

  /** While nobody takes the mutex more than 256 times over or waits for it with the scheduler locked, only its owner is
      inside. */
  lemma RunExclusive(flag: Flag, prios: map<nat, nat>, ops: seq<Op>, t: State)
    requires forall id :: id in prios ==> prios[id] < RT_THREAD_PRIORITY_MAX
    requires Reaches(Within, Run, Init(flag, prios), ops, t)
    ensures Inv(t) && Exclusive(t)
  {
    var inv := (s: State) => Inv(s) && Exclusive(s);
    StartsExclusive(flag, prios);
    forall s: State, op: Op | inv(s) && Within(s, op)
      ensures inv(Run(s, op))
    {
      StepInv(s, op);
      StepExclusive(s, op);
    }
    RunKeeps(inv, Within, Run, Init(flag, prios), ops, t);
  }

  /** Never are two threads between a successful take and the release that matches it. */
  lemma MutualExclusion(s: State, a: nat, b: nat)
    requires Exclusive(s) && a in s.threads && b in s.threads && s.threads[a].takes > 0 && s.threads[b].takes > 0
    ensures a == b
  {
  }

  /** Steps of a run in which thread `id` takes the mutex no more. */
  function NoTake(id: nat): (State, Op) -> bool {
    (s: State, op: Op) => Legal(s, op) && !(op.DoTake? && op.id == id)
  }

  /** Whatever happens, thread `id` keeps the mutex until it has matched all its takes. */
  ghost predicate KeepsUntilMatched(s: State, id: nat) {
    forall ops, t :: Reaches(NoTake(id), Run, s, ops, t) && id in t.threads && t.threads[id].takes > 0 ==> t.owner == Some(id)
  }

  /** Thread `id` is the owner as long as it has takes to match, and these are not too many. */
  predicate Keeps(s: State, id: nat) {
    && id in s.threads && s.threads[id].phase == Running
    && (s.threads[id].takes == 0 || (s.owner == Some(id) && s.threads[id].takes <= HOLD))
  }

  lemma StepKeeps(s: State, op: Op, id: nat)
    requires Inv(s) && Keeps(s, id) && NoTake(id)(s, op)
    ensures Keeps(Step(s, op).0, id)
  {
    match op
    case DoTake(x, time) => if HasToWait(s, x) && time != 0 { BlockThreads(s, x, time > 0); }
    case DoRelease(x) => ReleaseKeeps(s, x, id);
    case _ =>
  }

  lemma ReleaseKeeps(s: State, x: nat, id: nat)
    requires Inv(s) && Keeps(s, id) && Legal(s, DoRelease(x))
    ensures Keeps(Release(s, x).0, id)
  {
    if Last(s, x) && s.waiters != [] {
      HandOverIs(s, x);
      assert s.waiters[0] in s.waiters;
    }
  }

  lemma KeptIfWithin(s: State, id: nat)
    requires Inv(s) && Keeps(s, id)
    ensures KeepsUntilMatched(s, id)
  {
    var inv := (x: State) => Inv(x) && Keeps(x, id);
    forall x: State, op: Op | inv(x) && NoTake(id)(x, op)
      ensures inv(Run(x, op))
    {
      StepInv(x, op);
      StepKeeps(x, op, id);
    }
    forall ops, t | Reaches(NoTake(id), Run, s, ops, t) && id in t.threads && t.threads[id].takes > 0
      ensures t.owner == Some(id)
    {
      RunKeeps(inv, NoTake(id), Run, s, ops, t);
    }
  }

  /** The number of releases after which `hold` reads 0. */
  function Rounds(hold: nat): nat { if hold == 0 then HOLD else hold }

  /** The mutex has gone from thread `id`, which still has all but `n` of its takes to match. */
  predicate GivenAway(s: State, t: State, id: nat, n: nat) {
    && t.owner != Some(id) && (t.owner.Some? ==> t.owner.value in t.threads && t.threads[t.owner.value].phase == Granted)
    && t.threads.Keys == s.threads.Keys && id in s.threads
    && t.threads[id].phase == Running && t.threads[id].takes == s.threads[id].takes - n
  }

  lemma LastRelease(s: State, id: nat)
    requires Inv(s) && Last(s, id)
    ensures Inv(Release(s, id).0) && GivenAway(s, Release(s, id).0, id, 1)
  {
    ReleaseInv(s, id);
    if s.waiters != [] { HandOverIs(s, id); }
  }

  lemma ReleaseStep(s: State, id: nat)
    requires Legal(s, DoRelease(id))
    ensures Reaches(NoTake(id), Run, s, [DoRelease(id)], Release(s, id).0)
  {
    OneStep(NoTake(id), Run, s, DoRelease(id));
  }

  /** A release that does not give the mutex up leaves one less to match. */
  lemma OneLess(s: State, id: nat)
    requires Inv(s) && Legal(s, DoRelease(id)) && s.owner == Some(id) && s.hold != 1
    ensures var t := Release(s, id).0;
      && Inv(t) && Legal(t, DoRelease(id)) && t.owner == Some(id) && t.threads.Keys == s.threads.Keys
      && t.threads[id].takes == s.threads[id].takes - 1 && Rounds(s.hold) == Rounds(t.hold) + 1 && t.hold < HOLD
  {
    ReleaseCounts(s, id);
    CountInv(s, id, s.threads[id].takes - 1);
  }

  /** As many releases as `hold` says give the mutex up. */
  lemma {:induction false} GivesAway(s: State, id: nat) returns (ops: seq<Op>, t: State)
    requires Inv(s) && Legal(s, DoRelease(id)) && s.owner == Some(id)
    ensures Reaches(NoTake(id), Run, s, ops, t) && Inv(t) && GivenAway(s, t, id, Rounds(s.hold))
    decreases Rounds(s.hold)
  {
    ops, t := [DoRelease(id)], Release(s, id).0;
    ReleaseStep(s, id);
    if s.hold == 1 {
      LastRelease(s, id);
    } else {
      OneLess(s, id);
      var rest, u := GivesAway(t, id);
      Continues(NoTake(id), Run, s, ops, t, rest, u);
      ops, t := ops + rest, u;
    }
  }

  /** The owner keeps the mutex until it has matched all its takes if and only if these are at most 256. */
  lemma HoldCounts(s: State, id: nat)
    requires Inv(s) && id in s.threads && s.owner == Some(id) && s.threads[id].phase == Running
    ensures KeepsUntilMatched(s, id) <==> s.threads[id].takes <= HOLD
  {
    if s.threads[id].takes <= HOLD {
      KeptIfWithin(s, id);
    } else {
      var ops, t := GivesAway(s, id);
      assert t.threads[id].takes > 0;
    }
  }

  /** Thread `id` and another one are not inside together, whatever happens. */
  ghost predicate Excludes(s: State, id: nat) {
    forall ops, t, b :: Reaches(NoTake(id), Run, s, ops, t) && id in t.threads && b in t.threads && b != id
      ==> t.threads[id].takes == 0 || t.threads[b].takes == 0
  }

  /** Another thread gets the mutex that nobody holds or that a waiter has been handed. */
  lemma GetsIn(s: State, id: nat, b: nat) returns (ops: seq<Op>, t: State, w: nat)
    requires Inv(s) && id in s.threads && b in s.threads && b != id && s.owner != Some(id)
    requires s.owner.Some? ==> s.threads[s.owner.value].phase == Granted
    ensures Reaches(NoTake(id), Run, s, ops, t)
    ensures id in t.threads && t.threads[id].takes == s.threads[id].takes
    ensures w in t.threads && w != id && t.threads[w].takes > 0
  {
    var u := s;
    if s.owner.Some? {
      w, ops, t := s.owner.value, [DoReturn(s.owner.value)], Step(s, DoReturn(s.owner.value)).0;
      OneStep(NoTake(id), Run, s, DoReturn(w));
    } else {
      w, ops := b, [];
      if s.threads[b].phase == TimedOut {
        ops, u := [DoReturn(b)], Step(s, DoReturn(b)).0;
        OneStep(NoTake(id), Run, s, DoReturn(b));
      }
      t := Step(u, DoTake(b, 0)).0;
      OneStep(NoTake(id), Run, u, DoTake(b, 0));
      Continues(NoTake(id), Run, s, ops, u, [DoTake(b, 0)], t);
      ops := ops + [DoTake(b, 0)];
    }
  }

  /** Thread `id` is inside alone, or is not inside and will not be. */
  predicate Alone(s: State, id: nat) {
    Keeps(s, id) && (s.threads[id].takes == 0 || forall x :: x in s.threads && x != id ==> s.threads[x].takes == 0)
  }

  lemma StepAlone(s: State, op: Op, id: nat)
    requires Inv(s) && Alone(s, id) && NoTake(id)(s, op)
    ensures Alone(Step(s, op).0, id)
  {
    StepKeeps(s, op, id);
    match op
    case DoTake(x, time) => if HasToWait(s, x) && time != 0 { BlockThreads(s, x, time > 0); }
    case DoRelease(x) => if Last(s, x) && s.waiters != [] { HandOverIs(s, x); }
    case _ =>
  }

  lemma OwnerExcludes(s: State, id: nat)
    requires Inv(s) && Alone(s, id)
    ensures Excludes(s, id)
  {
    var inv := (x: State) => Inv(x) && Alone(x, id);
    forall x: State, op: Op | inv(x) && NoTake(id)(x, op)
      ensures inv(Run(x, op))
    {
      StepInv(x, op);
      StepAlone(x, op, id);
    }
    forall ops, t, b | Reaches(NoTake(id), Run, s, ops, t) && id in t.threads && b in t.threads && b != id
      ensures t.threads[id].takes == 0 || t.threads[b].takes == 0
    {
      RunKeeps(inv, NoTake(id), Run, s, ops, t);
    }
  }

  /** Of two threads of which one owns the mutex and only that one is inside, the owner excludes the other until it has
      matched all its takes if and only if these are at most 256. */
  lemma ExclusionExact(s: State, id: nat, b: nat)
    requires Inv(s) && id in s.threads && s.owner == Some(id) && s.threads[id].phase == Running
    requires b in s.threads && b != id
    requires forall x :: x in s.threads && x != id ==> s.threads[x].takes == 0
    ensures Excludes(s, id) <==> s.threads[id].takes <= HOLD
  {
    if s.threads[id].takes <= HOLD {
      OwnerExcludes(s, id);
    } else {
      var ops, t := GivesAway(s, id);
      var more, u, w := GetsIn(t, id, b);
      Continues(NoTake(id), Run, s, ops, t, more, u);
      assert u.threads[id].takes > 0 && u.threads[w].takes > 0;
    }
  }

  /** `n` takes in a row by one thread. */
  lemma {:induction false} TakesInARow(s: State, id: nat, n: nat) returns (ops: seq<Op>, t: State)
    requires Inv(s) && id in s.threads && s.threads[id].phase == Running && s.owner == Some(id)
    ensures Reaches(Legal, Run, s, ops, t) && Inv(t)
    ensures t.threads.Keys == s.threads.Keys && t.owner == Some(id) && t.threads[id].phase == Running && t.waiters == s.waiters
    ensures t.threads[id].takes == s.threads[id].takes + n
    ensures forall x :: x in s.threads && x != id ==> t.threads[x] == s.threads[x]
    decreases n
  {
    ops, t := [], s;
    if n > 0 {
      var op := DoTake(id, 0);
      StepInv(s, op);
      var rest;
      rest, t := TakesInARow(Step(s, op).0, id, n - 1);
      assert ([op] + rest)[1..] == rest;
      ops := [op] + rest;
    }
  }

  /** Thread 1 owns the mutex with 257 takes to match; thread 2 is not inside. */
  predicate TakenTooOften(s: State) {
    && 1 in s.threads && s.owner == Some(1) && s.threads[1].phase == Running && s.threads[1].takes == 257
    && 2 in s.threads && s.threads[2].phase == Running && s.threads[2].takes == 0 && s.waiters == []
  }

  /** This can be reached. */
  lemma TakenTooOftenReached(flag: Flag) returns (ops: seq<Op>, t: State)
    ensures Reaches(Legal, Run, Init(flag, map[1 := 10, 2 := 20]), ops, t) && Inv(t) && TakenTooOften(t)
  {
    var s := Init(flag, map[1 := 10, 2 := 20]);
    var a := Step(s, DoTake(1, 0)).0;
    StartsExclusive(flag, map[1 := 10, 2 := 20]);
    TakeFreeInv(s, 1);
    OneStep(Legal, Run, s, DoTake(1, 0));
    ops, t := TakesInARow(a, 1, 256);
    Continues(Legal, Run, s, [DoTake(1, 0)], a, ops, t);
    ops := [DoTake(1, 0)] + ops;
  }

  /** The first release then gives the mutex away with 256 takes unmatched, and the other thread gets in. */
  lemma HoldOverflows(s: State)
    requires Inv(s) && TakenTooOften(s)
    ensures var t := Release(s, 1).0;
      && t.owner.None? && 1 in t.threads && t.threads[1].takes == 256 && 2 in t.threads
      && var (u, r) := Take(t, 2, 0);
         r == Ok && 1 in u.threads && u.threads[1].takes == 256 && 2 in u.threads && u.threads[2].takes == 1
  {
    assert Owns(s.threads[1], s.hold);
  }

  // ---------------------------------------------------------------- priority inversion

  /** No waiter of a mutex in priority order is more urgent than the owner: bounded priority inversion. */
  lemma OwnerIsUrgent(s: State, w: nat)
    requires Inv(s) && s.flag == Prio && w in s.waiters
    ensures s.owner.Some? && s.owner.value in s.threads && w in s.threads
    ensures s.owner.value != w && s.threads[s.owner.value].prio <= s.threads[w].prio
  {
    assert Owns(s.threads[s.owner.value], s.hold);
  }

  /** The release that gives the mutex up restores the releasing thread's own priority; only the owner can do that, and
      when the counter says so. */
  lemma ReleaseRestores(s: State, id: nat)
    requires Inv(s) && Legal(s, DoRelease(id))
    ensures var (t, r) := Release(s, id);
      && (r == Ok <==> s.owner == Some(id))
      && (t.owner != s.owner <==> s.owner == Some(id) && s.hold == 1)
      && id in t.threads && (t.owner != Some(id) ==> t.threads[id].prio == t.threads[id].base)
  {
    ReleaseInv(s, id);
    if Last(s, id) && s.waiters != [] { HandOverIs(s, id); }
  }

  /** The first waiter is at least as urgent as all others. */
  predicate FirstIsUrgent(s: State) {
    s.waiters != [] && s.waiters[0] in s.threads ==>
      forall w :: w in s.waiters && w in s.threads ==> s.threads[s.waiters[0]].prio <= s.threads[w].prio
  }

  /** The new owner is at least as urgent as those still waiting if and only if the first waiter was the most urgent:
      in priority order always, in FIFO order not always. */
  lemma HandOverUrgent(s: State, id: nat)
    requires Inv(s) && Last(s, id) && s.waiters != []
    ensures Urgent(Release(s, id).0) <==> FirstIsUrgent(s)
  {
    var t := Release(s, id).0;
    HandOverIs(s, id);
    assert s.waiters == [s.waiters[0]] + s.waiters[1..];
    assert id !in s.waiters;
    assert forall w :: w in s.waiters ==> t.threads[w].prio == s.threads[w].prio;
  }

  /** All other steps leave an owner that is urgent compared with the waiters outside `early` so; a waiter whose timer
      fires is no longer among those of `early`. */
  lemma UrgencyStays(s: State, op: Op, early: set<nat>)
    requires Inv(s) && Legal(s, op) && !GivesUp(s, op) && UrgentBut(s, early)
    ensures UrgentBut(Step(s, op).0, if op.DoTimeout? then early - {op.id} else early)
  {
    match op
    case DoTake(id, time) => if HasToWait(s, id) && time != 0 { BlockUrgent(s, id, time > 0, early); }
    case DoTimeout(id) => Leaves(s.waiters, id);
    case _ =>
  }

  /** At every moment of the run the owner is at least as urgent as every waiter. */
  predicate AlwaysUrgent(s: State, ops: seq<Op>)
    decreases |ops|
  {
    Urgent(s) && (ops != [] ==> AlwaysUrgent(Run(s, ops[0]), ops[1..]))
  }

  /** Every release of the run that gives the mutex up finds the most urgent waiter first. */
  predicate FirstsAreUrgent(s: State, ops: seq<Op>)
    decreases |ops|
  {
    ops != [] ==> (GivesUp(s, ops[0]) ==> FirstIsUrgent(s)) && FirstsAreUrgent(Run(s, ops[0]), ops[1..])
  }

  /** Over a whole run, in FIFO or in priority order, no waiter is ever more urgent than the owner if and only if every
      hand-over finds the most urgent waiter at the head of the list. */
  lemma {:induction false} InversionExact(s: State, ops: seq<Op>, t: State)
    requires Inv(s) && Urgent(s) && Reaches(Legal, Run, s, ops, t)
    ensures AlwaysUrgent(s, ops) <==> FirstsAreUrgent(s, ops)
    decreases |ops|
  {
    if ops != [] {
      var u := Run(s, ops[0]);
      StepInv(s, ops[0]);
      StepUrgent(s, ops[0]);
      if Urgent(u) { InversionExact(u, ops[1..], t); }
    }
  }

  lemma StepUrgent(s: State, op: Op)
    requires Inv(s) && Urgent(s) && Legal(s, op)
    ensures Urgent(Step(s, op).0) <==> (GivesUp(s, op) ==> FirstIsUrgent(s))
  {
    if !GivesUp(s, op) {
      UrgencyStays(s, op, {});
    } else if s.waiters != [] {
      HandOverUrgent(s, op.id);
    }
  }

  /** A third thread besides two of which one is more urgent than the other. */
  ghost predicate Uneven(prios: map<nat, nat>) {
    exists a, b, c :: a in prios && b in prios && c in prios && a != b && a != c && prios[c] < prios[b]
  }

  ghost predicate NeverInverts(flag: Flag, prios: map<nat, nat>) {
    forall ops, t :: Reaches(Legal, Run, Init(flag, prios), ops, t) ==> Urgent(t)
  }

  /** In no run at all is a waiter more urgent than the owner if and only if the mutex is in priority order or its
      threads are not three of which two differ in priority. */
  lemma NeverInvertsExact(flag: Flag, prios: map<nat, nat>)
    requires forall id :: id in prios ==> prios[id] < RT_THREAD_PRIORITY_MAX
    ensures NeverInverts(flag, prios) <==> flag == Prio || !Uneven(prios)
  {
    if flag == Fifo && Uneven(prios) {
      var a, b, c :| a in prios && b in prios && c in prios && a != b && a != c && prios[c] < prios[b];
      Inverts(prios, a, b, c);
    } else {
      forall ops, t | Reaches(Legal, Run, Init(flag, prios), ops, t)
        ensures Urgent(t)
      {
        EvenUrgent(flag, prios, ops, t);
      }
    }
  }

  /** Whose threads these are. */
  predicate Based(s: State, flag: Flag, prios: map<nat, nat>) {
    s.flag == flag && s.threads.Keys == prios.Keys && forall id :: id in s.threads ==> s.threads[id].base == prios[id]
  }

  lemma StepBased(s: State, op: Op, flag: Flag, prios: map<nat, nat>)
    requires Inv(s) && Based(s, flag, prios) && Legal(s, op)
    ensures Based(Step(s, op).0, flag, prios)
  {
    match op
    case DoTake(id, time) => TakeBased(s, id, time, flag, prios);
    case DoRelease(id) => ReleaseBased(s, id, flag, prios);
    case _ =>
  }

  lemma TakeBased(s: State, id: nat, time: int, flag: Flag, prios: map<nat, nat>)
    requires Inv(s) && Based(s, flag, prios) && Legal(s, DoTake(id, time))
    ensures Based(Take(s, id, time).0, flag, prios)
  {
    if HasToWait(s, id) && time != 0 { BlockThreads(s, id, time > 0); }
  }

  lemma ReleaseBased(s: State, id: nat, flag: Flag, prios: map<nat, nat>)
    requires Inv(s) && Based(s, flag, prios) && Legal(s, DoRelease(id))
    ensures Based(Release(s, id).0, flag, prios)
  {
    if Last(s, id) && s.waiters != [] { HandOverIs(s, id); }
  }

  lemma EvenPair(prios: map<nat, nat>, a: nat, b: nat, c: nat)
    requires !Uneven(prios) && a in prios && b in prios && c in prios && a != b && a != c
    ensures prios[b] <= prios[c]
  {
  }

  lemma EvenFirst(s: State, id: nat, flag: Flag, prios: map<nat, nat>)
    requires Inv(s) && Based(s, flag, prios) && (flag == Prio || !Uneven(prios)) && Last(s, id) && s.waiters != []
    ensures FirstIsUrgent(s)
  {
    if flag == Prio {
      FirstIsMostUrgent(s.waiters, Prios(s.threads));
      assert s.waiters == [s.waiters[0]] + s.waiters[1..];
    } else {
      var b := s.waiters[0];
      assert b in s.waiters;
      forall w | w in s.waiters && w in s.threads
        ensures s.threads[b].prio <= s.threads[w].prio
      {
        EvenPair(prios, id, b, w);
      }
    }
  }

  lemma EvenUrgent(flag: Flag, prios: map<nat, nat>, ops: seq<Op>, t: State)
    requires forall id :: id in prios ==> prios[id] < RT_THREAD_PRIORITY_MAX
    requires flag == Prio || !Uneven(prios)
    requires Reaches(Legal, Run, Init(flag, prios), ops, t)
    ensures Urgent(t)
  {
    var inv := (x: State) => Inv(x) && Urgent(x) && Based(x, flag, prios);
    StartsExclusive(flag, prios);
    forall x: State, op: Op | inv(x) && Legal(x, op)
      ensures inv(Run(x, op))
    {
      StepEven(x, op, flag, prios);
    }
    StartsBased(flag, prios);
    RunKeeps(inv, Legal, Run, Init(flag, prios), ops, t);
  }

  lemma StartsBased(flag: Flag, prios: map<nat, nat>)
    ensures Based(Init(flag, prios), flag, prios) && Urgent(Init(flag, prios))
  {
  }

  lemma StepEven(s: State, op: Op, flag: Flag, prios: map<nat, nat>)
    requires Inv(s) && Urgent(s) && Based(s, flag, prios) && (flag == Prio || !Uneven(prios)) && Legal(s, op)
    ensures Inv(Run(s, op)) && Urgent(Run(s, op)) && Based(Run(s, op), flag, prios)
  {
    StepInv(s, op);
    StepBased(s, op, flag, prios);
    EvenGiveUp(s, op, flag, prios);
    StepUrgent(s, op);
  }

  lemma EvenGiveUp(s: State, op: Op, flag: Flag, prios: map<nat, nat>)
    requires Inv(s) && Based(s, flag, prios) && (flag == Prio || !Uneven(prios)) && Legal(s, op)
    ensures GivesUp(s, op) ==> FirstIsUrgent(s)
  {
    if GivesUp(s, op) && s.waiters != [] {
      assert Owns(s.threads[op.id], s.hold);
      EvenFirst(s, op.id, flag, prios);
    }
  }

  /** Thread `a` owns the mutex with one take, `ws` wait, and all others run. */
  predicate Queued(s: State, prios: map<nat, nat>, a: nat, ws: seq<nat>) {
    && Based(s, Fifo, prios) && s.nest == 0 && s.owner == Some(a) && s.hold == 1 && s.waiters == ws
    && forall x :: x in s.threads && x !in ws ==> s.threads[x].phase == Running
  }

  lemma FirstTakes(s: State, prios: map<nat, nat>, a: nat) returns (t: State)
    requires s == Init(Fifo, prios) && Inv(s) && a in prios
    ensures Reaches(Legal, Run, s, [DoTake(a, 0)], t) && Inv(t) && Queued(t, prios, a, [])
  {
    t := Take(s, a, 0).0;
    TakeFreeInv(s, a);
    OneStep(Legal, Run, s, DoTake(a, 0));
  }

  lemma JoinsLast(s: State, prios: map<nat, nat>, a: nat, ws: seq<nat>, id: nat) returns (t: State)
    requires Inv(s) && Queued(s, prios, a, ws) && id in prios && id != a && id !in ws
    ensures Reaches(Legal, Run, s, [DoTake(id, -1)], t) && Inv(t) && Queued(t, prios, a, ws + [id])
  {
    t := Block(s, id, false);
    assert Inv(t) by { TakeInv(s, id, -1); }
    assert Based(t, Fifo, prios) by { TakeBased(s, id, -1, Fifo, prios); }
    assert Queued(t, prios, a, ws + [id]) by { BlockThreads(s, id, false); }
    OneStep(Legal, Run, s, DoTake(id, -1));
  }

  /** Thread `a` takes the mutex, `b` and `c` wait for it in this order. */
  lemma BothWait(s: State, prios: map<nat, nat>, a: nat, b: nat, c: nat) returns (ops: seq<Op>, t: State)
    requires s == Init(Fifo, prios) && Inv(s)
    requires a in prios && b in prios && c in prios && a != b && a != c && b != c
    ensures Reaches(Legal, Run, s, ops, t) && Inv(t) && Queued(t, prios, a, [b, c])
  {
    var u := FirstTakes(s, prios, a);
    var v := JoinsLast(u, prios, a, [], b);
    assert [] + [b] == [b] && [b] + [c] == [b, c];
    t := JoinsLast(v, prios, a, [b], c);
    ops := Three(s, DoTake(a, 0), u, DoTake(b, -1), v, DoTake(c, -1), t);
  }

  /** When `a` then releases it, the mutex goes to `b`, although `c` is more urgent. */
  lemma Inverts(prios: map<nat, nat>, a: nat, b: nat, c: nat)
    requires forall id :: id in prios ==> prios[id] < RT_THREAD_PRIORITY_MAX
    requires a in prios && b in prios && c in prios && a != b && a != c && prios[c] < prios[b]
    ensures !NeverInverts(Fifo, prios)
  {
    var s := Init(Fifo, prios);
    StartsExclusive(Fifo, prios);
    var ops, t := BothWait(s, prios, a, b, c);
    QueuedInverts(t, prios, a, b, c);
    OneStep(Legal, Run, t, DoRelease(a));
    Continues(Legal, Run, s, ops, t, [DoRelease(a)], Run(t, DoRelease(a)));
  }

  lemma QueuedInverts(t: State, prios: map<nat, nat>, a: nat, b: nat, c: nat)
    requires Inv(t) && Queued(t, prios, a, [b, c]) && a != b && a != c && b in prios && c in prios && prios[c] < prios[b]
    ensures Legal(t, DoRelease(a)) && !Urgent(Run(t, DoRelease(a)))
  {
    assert c in t.waiters && b in t.waiters;
    assert t.threads[b].prio == prios[b] && t.threads[c].prio == prios[c];
    HandOverUrgent(t, a);
  }

  lemma Three(s: State, o: Op, u: State, p: Op, v: State, q: Op, t: State) returns (ops: seq<Op>)
    requires Reaches(Legal, Run, s, [o], u) && Reaches(Legal, Run, u, [p], v) && Reaches(Legal, Run, v, [q], t)
    ensures Reaches(Legal, Run, s, ops, t)
  {
    Continues(Legal, Run, s, [o], u, [p], v);
    Continues(Legal, Run, s, [o] + [p], v, [q], t);
    ops := [o] + [p] + [q];
  }

  /** Steps of a run in which the mutex is not given up. */
  function NoGiveUp(): (State, Op) -> bool {
    (s: State, op: Op) => Legal(s, op) && !GivesUp(s, op)
  }

  /** After a hand-over, through any blocks and time-outs: the owner is at least as urgent as every waiter if and only
      if it is so compared with those that were waiting at the hand-over and have not timed out since. */
  lemma AfterHandOver(s: State, ops: seq<Op>, t: State)
    requires Inv(s) && s.owner.Some? && Reaches(NoGiveUp(), Run, s, ops, t)
    ensures t.owner == s.owner && s.owner.value in t.threads
    ensures Urgent(t) <==> forall w :: w in s.waiters && DoTimeout(w) !in ops ==>
      w in t.threads && t.threads[s.owner.value].prio <= t.threads[w].prio
  {
    var early := set w | w in s.waiters;
    StillOld(s, ops, t, early);
    forall w | w in s.waiters
      ensures w in early
    {
    }
  }

  lemma {:induction false} StillOld(s: State, ops: seq<Op>, t: State, early: set<nat>)
    requires Inv(s) && s.owner.Some? && Reaches(NoGiveUp(), Run, s, ops, t)
    requires UrgentBut(s, early) && forall w :: w in early ==> w in s.waiters
    ensures Inv(t) && t.owner == s.owner
    ensures UrgentBut(t, set w | w in early && DoTimeout(w) !in ops)
    ensures forall w :: w in early && DoTimeout(w) !in ops ==> w in t.waiters
    decreases |ops|
  {
    if ops == [] {
      assert early == set w | w in early && DoTimeout(w) !in ops;
    } else {
      var op := ops[0];
      var u := Run(s, op);
      var left := if op.DoTimeout? then early - {op.id} else early;
      StepInv(s, op);
      UrgencyStays(s, op, early);
      OldStay(s, op, early);
      StillOld(u, ops[1..], t, left);
      assert ops == [op] + ops[1..];
      assert (set w | w in left && DoTimeout(w) !in ops[1..]) == set w | w in early && DoTimeout(w) !in ops;
    }
  }

  lemma OldStay(s: State, op: Op, early: set<nat>)
    requires Inv(s) && s.owner.Some? && Legal(s, op) && !GivesUp(s, op) && forall w :: w in early ==> w in s.waiters
    ensures Step(s, op).0.owner == s.owner
    ensures forall w :: w in early && op != DoTimeout(w) ==> w in Step(s, op).0.waiters
  {
    match op
    case DoTake(id, time) =>
      if HasToWait(s, id) && time != 0 {
        BlockThreads(s, id, time > 0);
        Joins(s.waiters, s.flag, Prios(Block(s, id, time > 0).threads), id);
      }
    case DoTimeout(id) => Leaves(s.waiters, id);
    case _ =>
  }

  /** In FIFO order, with priorities 10, 20 and 5: a reachable state in which a waiter is more urgent than the owner. */
  lemma FifoInversion() returns (ops: seq<Op>, t: State)
    ensures Reaches(Legal, Run, Init(Fifo, map[1 := 10, 2 := 20, 3 := 5]), ops, t) && !Urgent(t)
  {
    var prios := map[1 := 10, 2 := 20, 3 := 5];
    assert 1 in prios && 2 in prios && 3 in prios;
    assert Uneven(prios);
    NeverInvertsExact(Fifo, prios);
    ops, t :| Reaches(Legal, Run, Init(Fifo, prios), ops, t) && !Urgent(t);
  }
}
