/** Threads, ready queues and semaphores: what the calls of thread.c, scheduler.c, clock.c and the semaphore part of
    ipc.c do, cut into the parts that run with interrupts disabled, and what each part keeps. */
module KernelSpec {
  import opened Lists
  import opened WaitList

  const RT_THREAD_PRIORITY_MAX := 32
  const VALUES := 0x1_0000   // a semaphore value is a rt_uint16_t
  const IDLE: nat := 0       // the idle thread, which is never suspended

  datatype Stat = Init | Ready | Suspended | Closed

  datatype Error = Eok | Etimeout

  /** The list a thread's `tlist` node is linked in. */
  datatype Place = Nowhere | OnReady(prio: nat) | OnSem(sem: nat) | OnDefunct

  /** How far the thread has got in a blocking rt_sem_take (still waiting, or woken by a release or by its timer and
      yet to return), or whether it is in rt_thread_sleep. */
  datatype Wait = NoWait | Waiting(sem: nat) | Granted(sem: nat) | TimedOut(sem: nat) | Sleeping

  /** How far a call that somebody makes on the thread has got: rt_thread_resume has taken it off its list;
      rt_thread_delete has taken it off its list, and has then detached its timer. */
  datatype Stage = Whole | Resuming | Removed | Detached

  /** `leaving`: the thread has suspended itself and has yet to call rt_schedule. `detaches`: rt_thread_exit detaches
      the object (static, without a cleanup function) instead of leaving it to the idle thread. */
  datatype Thread = Thread(stat: Stat, initPrio: nat, prio: nat, error: Error, armed: bool, slice: nat, remaining: nat,
                           node: Place, wait: Wait, stage: Stage, leaving: bool, detaches: bool)

  /** What has happened to a semaphore so far. */
  datatype Tally = Tally(initial: nat, releases: nat, grants: nat,
                         blocked: nat, handed: nat, timedOut: nat, abandoned: nat)

  datatype Sem = Sem(value: nat, flag: Flag, waiters: seq<nat>, tally: Tally)

  datatype State = State(threads: map<nat, Thread>, ready: seq<seq<nat>>, sems: map<nat, Sem>, defunct: seq<nat>,
                         current: nat, nest: nat)

  // ---------------------------------------------------------------- lists and nodes

  function Queue(s: State, q: Place): seq<nat> {
    match q
    case Nowhere => []
    case OnReady(p) => if p < |s.ready| then s.ready[p] else []
    case OnSem(k) => if k in s.sems then s.sems[k].waiters else []
    case OnDefunct => s.defunct
  }

  /** Whether there is a list at `q`. */
  predicate Room(s: State, q: Place) {
    match q
    case Nowhere => false
    case OnReady(p) => p < |s.ready|
    case OnSem(k) => k in s.sems
    case OnDefunct => true
  }

  function WithQueue(s: State, q: Place, xs: seq<nat>): State {
    if !Room(s, q) then s
    else match q
      case Nowhere => s
      case OnReady(p) => s.(ready := s.ready[p := xs])
      case OnSem(k) => s.(sems := s.sems[k := s.sems[k].(waiters := xs)])
      case OnDefunct => s.(defunct := xs)
  }

  function Set(s: State, id: nat, t: Thread): State {
    s.(threads := s.threads[id := t])
  }

  /** rt_list_remove(&thread->tlist) */
  function Unlink(s: State, id: nat): State
    requires id in s.threads
  {
    var t := s.threads[id];
    Set(WithQueue(s, t.node, Drop(Queue(s, t.node), id)), id, t.(node := Nowhere))
  }

  /** The node of thread `id` goes into the list at `q`, which becomes `xs`. */
  function Link(s: State, id: nat, q: Place, xs: seq<nat>): State
    requires id in s.threads
  {
    Set(WithQueue(s, q, xs), id, s.threads[id].(node := q))
  }

  // ---------------------------------------------------------------- the scheduler

  /** rt_schedule_insert_thread */
  function ScheduleInsert(s: State, id: nat): State
    requires id in s.threads
  {
    var q := OnReady(s.threads[id].prio);
    Link(Set(s, id, s.threads[id].(stat := Ready)), id, q, Queue(s, q) + [id])
  }

  /** The most urgent priority with a ready thread, or |ready|. */
  function FirstReady(ready: seq<seq<nat>>, from: nat := 0): (p: nat)
    requires from <= |ready|
    ensures from <= p <= |ready| && (p < |ready| ==> ready[p] != [])
    ensures forall k :: from <= k < p ==> ready[k] == []
    decreases |ready| - from
  {
    if from == |ready| || ready[from] != [] then from else FirstReady(ready, from + 1)
  }

  /** rt_schedule: with the scheduler unlocked, the head of the most urgent list runs. */
  function Schedule(s: State): State {
    var p := FirstReady(s.ready);
    if s.nest == 0 && p < |s.ready| then s.(current := s.ready[p][0]) else s
  }

  /** The rt_schedule with which a thread that has suspended itself stops running. */
  function SwitchAway(s: State): State
    requires s.current in s.threads
  {
    Schedule(Set(s, s.current, s.threads[s.current].(leaving := false)))
  }

  /** rt_exit_critical up to its rt_schedule, which follows when the count is back to 0. */
  function Unlock(s: State): State {
    s.(nest := if s.nest <= 1 then 0 else s.nest - 1)
  }

  // ---------------------------------------------------------------- threads

  /** The section of rt_thread_suspend. */
  function SuspendNow(s: State, id: nat): State
    requires id in s.threads
  {
    Unlink(Set(s, id, s.threads[id].(stat := Suspended, armed := false)), id)
  }

  /** rt_thread_suspend with nothing in between; false stands for -RT_ERROR. */
  function Suspend(s: State, id: nat): (State, bool)
    requires id in s.threads
  {
    if s.threads[id].stat != Ready then (s, false) else (SuspendNow(s, id), true)
  }

  /** The first section of rt_thread_resume. */
  function TakeOff(s: State, id: nat): State
    requires id in s.threads
  {
    Unlink(Set(s, id, s.threads[id].(armed := false, stage := Resuming)), id)
  }

  /** The second section of rt_thread_resume: rt_schedule_insert_thread. */
  function PutBack(s: State, id: nat): State
    requires id in s.threads
  {
    ScheduleInsert(Set(s, id, s.threads[id].(stage := Whole)), id)
  }

  /** rt_thread_resume with nothing in between */
  function Resume(s: State, id: nat): (State, bool)
    requires id in s.threads
  {
    if s.threads[id].stat != Suspended then (s, false) else (PutBack(TakeOff(s, id), id), true)
  }

  /** rt_thread_startup up to its rt_thread_resume */
  function Mark(s: State, id: nat): State
    requires id in s.threads
  {
    Set(s, id, s.threads[id].(prio := s.threads[id].initPrio, stat := Suspended))
  }

  /** The section of rt_thread_sleep. */
  function Sleep(s: State): State
    requires s.current in s.threads
  {
    var t := Suspend(s, s.current).0;
    Set(t, s.current, t.threads[s.current].(armed := true, wait := Sleeping, leaving := true))
  }

  /** The end of rt_thread_sleep, when the thread runs again. */
  function Awake(s: State): State
    requires s.current in s.threads
  {
    var t := s.threads[s.current];
    Set(s, s.current, t.(wait := NoWait, error := if t.error == Etimeout then Eok else t.error))
  }

  /** rt_thread_timeout up to its rt_schedule */
  function Fired(s: State, id: nat): State
    requires id in s.threads
  {
    var t := s.threads[id];
    var wait := if t.wait.Waiting? then TimedOut(t.wait.sem) else t.wait;
    Wake(CountTimeout(Set(s, id, t.(error := Etimeout, armed := false, wait := wait)), t.wait), id)
  }

  /** rt_thread_timeout, called with interrupts disabled when the armed timer of thread `id` fires. */
  function Timeout(s: State, id: nat): State
    requires id in s.threads
  {
    Schedule(Fired(s, id))
  }

  /** Thread `id` leaves the list it is on and becomes ready. */
  function Wake(s: State, id: nat): State
    requires id in s.threads
  {
    ScheduleInsert(Unlink(s, id), id)
  }

  function CountTimeout(s: State, wait: Wait): State {
    if wait.Waiting? && wait.sem in s.sems then
      var tally := s.sems[wait.sem].tally;
      WithTally(s, wait.sem, tally.(timedOut := tally.timedOut + 1))
    else s
  }

  function WithTally(s: State, k: nat, tally: Tally): State
    requires k in s.sems
  {
    s.(sems := s.sems[k := s.sems[k].(tally := tally)])
  }

  /** Whether rt_thread_yield has anything to do. */
  predicate Yields(s: State)
    requires s.current in s.threads
  {
    s.threads[s.current].stat == Ready && |Queue(s, s.threads[s.current].node)| >= 2
  }

  /** The section of rt_thread_yield. */
  function Yield(s: State): State
    requires s.current in s.threads
  {
    if !Yields(s) then s
    else
      var (r, q) := (Unlink(s, s.current), OnReady(s.threads[s.current].prio));
      Link(r, s.current, q, Queue(r, q) + [s.current])
  }

  /** rt_thread_yield with nothing in between */
  function YieldCall(s: State): State
    requires s.current in s.threads
  {
    if Yields(s) then Schedule(Yield(s)) else s
  }

  /** rt_thread_control with RT_THREAD_CTRL_CHANGE_PRIORITY */
  function SetPriority(s: State, id: nat, p: nat): State
    requires id in s.threads
  {
    if s.threads[id].stat == Ready then
      var r := Unlink(s, id);
      ScheduleInsert(Set(r, id, r.threads[id].(prio := p)), id)
    else Set(s, id, s.threads[id].(prio := p))
  }

  /** The first section of rt_thread_delete: rt_schedule_remove_thread. A wait of the thread is over. */
  function Remove(s: State, id: nat): State
    requires id in s.threads
  {
    var r := CountAbandoned(s, s.threads[id].wait);
    Unlink(Set(r, id, r.threads[id].(wait := NoWait, leaving := false, stage := Removed)), id)
  }

  /** The second section of rt_thread_delete: rt_timer_detach. */
  function Detach(s: State, id: nat): State
    requires id in s.threads
  {
    Set(s, id, s.threads[id].(armed := false, stage := Detached))
  }

  /** The rest of rt_thread_delete: the thread is closed and goes to the head of the defunct list. */
  function Bury(s: State, id: nat): State
    requires id in s.threads
  {
    Link(Set(s, id, s.threads[id].(stat := Closed, stage := Whole)), id, OnDefunct, [id] + s.defunct)
  }

  /** rt_thread_delete with nothing in between */
  function Delete(s: State, id: nat): State
    requires id in s.threads
  {
    Bury(Detach(Remove(s, id), id), id)
  }

  /** The section of rt_thread_exit. */
  function Exit(s: State): State
    requires s.current in s.threads
  {
    if s.threads[s.current].detaches then
      var r := Detach(Remove(s, s.current), s.current);
      Set(r, s.current, r.threads[s.current].(stat := Closed, stage := Whole))
    else Delete(s, s.current)
  }

  function CountAbandoned(s: State, wait: Wait): State {
    if wait.Waiting? && wait.sem in s.sems then
      var tally := s.sems[wait.sem].tally;
      WithTally(s, wait.sem, tally.(abandoned := tally.abandoned + 1))
    else s
  }

  /** The time-slice part of rt_tick_increase, up to its rt_thread_yield. */
  function CountDown(s: State): State
    requires s.current in s.threads
  {
    var t := s.threads[s.current];
    Set(s, s.current, t.(remaining := if t.remaining == 1 then t.slice
                                      else if t.remaining == 0 then 0xFFFF_FFFF else t.remaining - 1))
  }

  /** The time-slice part of rt_tick_increase with nothing in between */
  function Slice(s: State): State
    requires s.current in s.threads
  {
    if s.threads[s.current].remaining == 1 then YieldCall(CountDown(s)) else CountDown(s)
  }

  // ---------------------------------------------------------------- semaphores

  function Priorities(threads: map<nat, Thread>): nat -> nat {
    id => if id in threads then threads[id].prio else 0
  }

  /** rt_sem_take by the current thread: the error it returns, or that it has stopped running. */
  datatype Outcome = Done(error: Error) | Blocked

  /** Whether rt_sem_take suspends the thread. */
  predicate Blocks(s: State, k: nat, time: int)
    requires k in s.sems
  {
    s.sems[k].value == 0 && time != 0
  }

  /** The section of rt_sem_take. */
  function Take(s: State, k: nat, time: int): State
    requires k in s.sems && s.current in s.threads
  {
    if s.sems[k].value > 0 then TakeUnit(s, k) else if time == 0 then s else Blocking(s, k, time > 0)
  }

  /** rt_sem_take with nothing between its section and its rt_schedule. If the thread still runs after that, it
      returns what its error field says. */
  function TakeCall(s: State, k: nat, time: int): (State, Outcome)
    requires k in s.sems && s.current in s.threads
  {
    var t := Take(s, k, time);
    if s.sems[k].value > 0 then (t, Done(Eok))
    else if time == 0 then (t, Done(Etimeout))
    else
      var u := SwitchAway(t);
      (u, if u.current == s.current then Done(u.threads[s.current].error) else Blocked)
  }

  function TakeUnit(s: State, k: nat): State
    requires k in s.sems && s.sems[k].value > 0
  {
    var m := s.sems[k];
    s.(sems := s.sems[k := m.(value := m.value - 1, tally := m.tally.(grants := m.tally.grants + 1))])
  }

  /** The thread before it is linked in the list of semaphore `k`. */
  function BlockReady(s: State, k: nat, timed: bool): State
    requires k in s.sems && s.current in s.threads
  {
    var t := Suspend(Set(s, s.current, s.threads[s.current].(error := Eok)), s.current).0;
    var tally := s.sems[k].tally;
    var u := WithTally(t, k, tally.(blocked := tally.blocked + 1));
    Set(u, s.current, u.threads[s.current].(wait := Waiting(k), armed := timed, leaving := true))
  }

  /** The waiters of semaphore `k` with the current thread among them. */
  function Waiters(s: State, k: nat, timed: bool): seq<nat>
    requires k in s.sems && s.current in s.threads
  {
    Enqueue(s.sems[k].waiters, s.sems[k].flag, Priorities(BlockReady(s, k, timed).threads), s.current)
  }

  /** The thread on the list, before another one is scheduled. */
  function Blocking(s: State, k: nat, timed: bool): State
    requires k in s.sems && s.current in s.threads
  {
    Link(BlockReady(s, k, timed), s.current, OnSem(k), Waiters(s, k, timed))
  }

  /** The section of rt_sem_release. */
  function Release(s: State, k: nat): State
    requires k in s.sems
  {
    var m := s.sems[k];
    if m.waiters != [] && m.waiters[0] in s.threads then HandOver(s, k, m.waiters[0])
    else s.(sems := s.sems[k := m.(value := (m.value + 1) % VALUES,
                                   tally := m.tally.(releases := m.tally.releases + 1))])
  }

  /** rt_sem_release with nothing in between */
  function ReleaseCall(s: State, k: nat): State
    requires k in s.sems
  {
    if s.sems[k].waiters != [] then Schedule(Release(s, k)) else Release(s, k)
  }

  /** The waiter with its unit, still on the list. */
  function Handing(s: State, k: nat, w: nat): State
    requires k in s.sems && w in s.threads
  {
    var tally := s.sems[k].tally;
    var r := WithTally(s, k, tally.(releases := tally.releases + 1, grants := tally.grants + 1,
                                    handed := tally.handed + 1));
    Set(r, w, r.threads[w].(wait := Granted(k)))
  }

  /** The first waiter gets the released unit and becomes ready: its rt_thread_resume runs inside the section. */
  function HandOver(s: State, k: nat, w: nat): State
    requires k in s.sems && w in s.threads
  {
    Resume(Handing(s, k, w), w).0
  }

  /** A thread that was woken from its wait runs again: rt_sem_take returns its error field. */
  function Return(s: State): (State, Error)
    requires s.current in s.threads
  {
    var t := s.threads[s.current];
    (Set(s, s.current, t.(wait := NoWait)), t.error)
  }

  // ---------------------------------------------------------------- the invariant

  /** The list at `q` holds exactly the threads whose node is linked there, each once. */
  ghost predicate Holds(s: State, q: Place) {
    && Distinct(Queue(s, q))
    && forall id :: id in Queue(s, q) <==> id in s.threads && s.threads[id].node == q
  }

  ghost predicate Placed(s: State) {
    forall q :: q != Nowhere ==> Holds(s, q)
  }

  /** The fields of a thread agree with each other and with the list its node is on. */
  predicate Sound(t: Thread) {
    && t.prio < RT_THREAD_PRIORITY_MAX && t.initPrio < RT_THREAD_PRIORITY_MAX && t.slice >= 1 && t.remaining >= 1
    && (t.node.OnReady? ==> t.stat == Ready && t.node.prio == t.prio) && (t.stat == Ready && t.stage.Whole? ==> t.node.OnReady?)
    && (t.node == OnDefunct ==> t.stat == Closed)
    && (t.stat == Closed ==> t.stage.Whole? && (t.node == OnDefunct || (t.detaches && t.node == Nowhere)))
    && (t.wait.Waiting? <==> t.node.OnSem?)
    && (t.node.OnSem? ==> t.node.sem == t.wait.sem && t.stat == Suspended && t.error == Eok)
    && (t.armed ==> t.stat == Suspended && t.stage.Whole? && (t.wait.NoWait? || t.wait.Waiting? || t.wait.Sleeping?))
    && (t.wait.Granted? ==> t.error == Eok) && (t.wait.TimedOut? ==> t.error == Etimeout)
    && (t.stat == Init ==> t.node == Nowhere && t.wait == NoWait) && (t.leaving ==> t.wait != NoWait)
    && (!t.stage.Whole? ==> t.node == Nowhere && !t.wait.Waiting?) && (t.stage.Resuming? ==> t.stat == Suspended)
    && (t.stage.Removed? || t.stage.Detached? ==> t.wait == NoWait)
  }

  /** Units are conserved, nobody waits for a unit that is there, and every blocked wait has ended once or not yet. */
  predicate SemOk(m: Sem) {
    && m.value < VALUES && (m.value > 0 ==> m.waiters == [])
    && m.value <= m.tally.initial + m.tally.releases - m.tally.grants
    && m.value == (m.tally.initial + m.tally.releases - m.tally.grants) % VALUES
    && m.tally.blocked == m.tally.handed + m.tally.timedOut + m.tally.abandoned + |m.waiters|
    && m.tally.handed <= m.tally.grants
  }

  ghost predicate Inv(s: State) {
    && |s.ready| == RT_THREAD_PRIORITY_MAX && Placed(s)
    && (forall id :: id in s.threads ==> Sound(s.threads[id]))
    && (forall k :: k in s.sems ==> SemOk(s.sems[k]))
    && s.current in s.threads && IDLE in s.threads && s.threads[IDLE].stat == Ready && s.threads[IDLE].stage.Whole?
  }

  /** The parts of the invariant about lists and threads. */
  ghost predicate Threads(s: State) {
    && |s.ready| == RT_THREAD_PRIORITY_MAX && Placed(s)
    && (forall id :: id in s.threads ==> Sound(s.threads[id]))
  }

  predicate Sems(s: State) {
    forall k :: k in s.sems ==> SemOk(s.sems[k])
  }

  lemma QueueAfter(s: State, q: Place, xs: seq<nat>, r: Place)
    requires Room(s, q)
    ensures Queue(WithQueue(s, q, xs), r) == if r == q then xs else Queue(s, r)
  {
  }

  /** Only thread `id` may differ. */
  predicate OnlyThread(s: State, t: State, id: nat) {
    && t.threads.Keys == s.threads.Keys
    && forall x :: x in s.threads && x != id ==> t.threads[x] == s.threads[x]
  }

  lemma DropMembers(xs: seq<nat>, id: nat)
    requires Distinct(xs)
    ensures Distinct(Drop(xs, id)) && forall x :: x in Drop(xs, id) <==> x in xs && x != id
  {
    DropIs(xs, id);
    forall x
      ensures x in Drop(xs, id) <==> x in xs && x != id
    {
      assert x in Drop(xs, id) <==> x in Elements(Drop(xs, id));
      assert x in xs <==> x in Elements(xs);
    }
  }

  /** The lists after a node has been taken out. */
  lemma UnlinkQueue(s: State, id: nat, r: Place)
    requires id in s.threads && (s.threads[id].node == Nowhere || Room(s, s.threads[id].node))
    ensures Queue(Unlink(s, id), r) == if r == s.threads[id].node then Drop(Queue(s, r), id) else Queue(s, r)
  {
    var q := s.threads[id].node;
    if q != Nowhere { QueueAfter(s, q, Drop(Queue(s, q), id), r); }
  }

  lemma UnlinkHolds(s: State, id: nat, r: Place)
    requires id in s.threads && r != Nowhere && Holds(s, r)
    requires s.threads[id].node == Nowhere || Room(s, s.threads[id].node)
    ensures Holds(Unlink(s, id), r)
  {
    UnlinkQueue(s, id, r);
    DropMembers(Queue(s, r), id);
  }

  lemma UnlinkPlaced(s: State, id: nat)
    requires Placed(s) && id in s.threads
    ensures var t := Unlink(s, id);
      && Placed(t) && OnlyThread(s, t, id) && t.threads[id] == s.threads[id].(node := Nowhere)
      && |t.ready| == |s.ready| && t.sems.Keys == s.sems.Keys && t.current == s.current && t.nest == s.nest
      && Queue(t, s.threads[id].node) == Drop(Queue(s, s.threads[id].node), id)
      && (forall r :: r != s.threads[id].node ==> Queue(t, r) == Queue(s, r))
  {
    var (t, q) := (Unlink(s, id), s.threads[id].node);
    if q != Nowhere { assert Holds(s, q); }
    forall r
      ensures (r != Nowhere ==> Holds(t, r)) && Queue(t, r) == if r == q then Drop(Queue(s, r), id) else Queue(s, r)
    {
      UnlinkQueue(s, id, r);
      if r != Nowhere {
        assert Holds(s, r);
        UnlinkHolds(s, id, r);
      }
    }
  }

  lemma LinkHolds(s: State, id: nat, q: Place, xs: seq<nat>, r: Place)
    requires id in s.threads && s.threads[id].node == Nowhere && Room(s, q)
    requires r != Nowhere && Holds(s, r) && Holds(s, q)
    requires Distinct(xs) && Elements(xs) == Elements(Queue(s, q)) + {id}
    ensures Holds(Link(s, id, q, xs), r)
  {
    QueueAfter(s, q, xs, r);
    forall x
      ensures x in xs <==> x == id || x in Queue(s, q)
    {
      assert x in xs <==> x in Elements(xs);
      assert x in Queue(s, q) <==> x in Elements(Queue(s, q));
    }
  }

  lemma LinkPlaced(s: State, id: nat, q: Place, xs: seq<nat>)
    requires Placed(s) && id in s.threads && s.threads[id].node == Nowhere && Room(s, q)
    requires Distinct(xs) && Elements(xs) == Elements(Queue(s, q)) + {id}
    ensures var t := Link(s, id, q, xs);
      && Placed(t) && OnlyThread(s, t, id) && t.threads[id] == s.threads[id].(node := q)
      && |t.ready| == |s.ready| && t.sems.Keys == s.sems.Keys && t.current == s.current && t.nest == s.nest
      && Queue(t, q) == xs && (forall r :: r != q ==> Queue(t, r) == Queue(s, r))
  {
    var t := Link(s, id, q, xs);
    assert Holds(s, q);
    forall r
      ensures (r != Nowhere ==> Holds(t, r)) && Queue(t, r) == if r == q then xs else Queue(s, r)
    {
      QueueAfter(s, q, xs, r);
      if r != Nowhere {
        assert Holds(s, r);
        LinkHolds(s, id, q, xs, r);
      }
    }
  }

  lemma SetPlaced(s: State, id: nat, t: Thread)
    requires Placed(s) && id in s.threads && t.node == s.threads[id].node
    ensures Placed(Set(s, id, t)) && OnlyThread(s, Set(s, id, t), id)
    ensures forall r :: Queue(Set(s, id, t), r) == Queue(s, r)
  {
    var u := Set(s, id, t);
    forall r | r != Nowhere
      ensures Holds(u, r)
    {
      assert Holds(s, r);
    }
  }

  lemma AppendIs(xs: seq<nat>, id: nat)
    requires Distinct(xs) && id !in xs
    ensures Distinct(xs + [id]) && Elements(xs + [id]) == Elements(xs) + {id}
  {
    EnqueueIs(xs, Fifo, (x: nat) => 0, id);
  }

  /** rt_schedule_insert_thread of a thread that is on no list. */
  lemma InsertPlaced(s: State, id: nat)
    requires Placed(s) && id in s.threads && s.threads[id].node == Nowhere && s.threads[id].prio < |s.ready|
    ensures var (t, q) := (ScheduleInsert(s, id), OnReady(s.threads[id].prio));
      && Placed(t) && OnlyThread(s, t, id) && t.threads[id] == s.threads[id].(stat := Ready, node := q)
      && |t.ready| == |s.ready| && t.sems == s.sems && t.current == s.current && t.nest == s.nest
      && Queue(t, q) == Queue(s, q) + [id] && (forall r :: r != q ==> Queue(t, r) == Queue(s, r))
  {
    var q := OnReady(s.threads[id].prio);
    assert Holds(s, q);
    SetPlaced(s, id, s.threads[id].(stat := Ready));
    AppendIs(Queue(s, q), id);
    LinkPlaced(Set(s, id, s.threads[id].(stat := Ready)), id, q, Queue(s, q) + [id]);
  }

  // ---------------------------------------------------------------- every call keeps the invariant

  lemma TallyPlaced(s: State, k: nat, tally: Tally)
    requires Placed(s) && k in s.sems
    ensures Placed(WithTally(s, k, tally)) && forall q :: Queue(WithTally(s, k, tally), q) == Queue(s, q)
  {
    var t := WithTally(s, k, tally);
    forall q | q != Nowhere
      ensures Holds(t, q)
    {
      assert Holds(s, q);
    }
  }

  /** Apart from the waiters the semaphores are the same. */
  predicate SameCounts(s: State, t: State) {
    t.sems.Keys == s.sems.Keys && forall k :: k in s.sems ==> t.sems[k] == s.sems[k].(waiters := t.sems[k].waiters)
  }

  /** Nothing but a waiter of the semaphore at `q` has gone. */
  predicate Dropped(s: State, t: State, q: Place) {
    && SameCounts(s, t)
    && forall k :: k in s.sems ==> |t.sems[k].waiters| == |s.sems[k].waiters| - (if q == OnSem(k) then 1 else 0)
  }

  lemma UnlinkCounts(s: State, id: nat)
    requires Placed(s) && id in s.threads
    ensures Dropped(s, Unlink(s, id), s.threads[id].node)
  {
    var q := s.threads[id].node;
    if q != Nowhere {
      assert Holds(s, q);
      DropLength(Queue(s, q), id);
    }
  }

  lemma {:induction false} DropLength(xs: seq<nat>, x: nat)
    requires x in xs
    ensures |Drop(xs, x)| == |xs| - 1
  {
    if xs[0] != x { DropLength(xs[1..], x); }
  }

  lemma WakeIs(s: State, id: nat)
    requires Placed(s) && id in s.threads && s.threads[id].prio < |s.ready|
    ensures var t := Wake(s, id);
      && Placed(t) && OnlyThread(s, t, id) && |t.ready| == |s.ready| && t.current == s.current && t.nest == s.nest
      && t.threads[id] == s.threads[id].(stat := Ready, node := OnReady(s.threads[id].prio))
    ensures Dropped(s, Wake(s, id), s.threads[id].node)
  {
    UnlinkPlaced(s, id);
    UnlinkCounts(s, id);
    InsertPlaced(Unlink(s, id), id);
  }

  // ---------------------------------------------------------------- what the sections do to the thread concerned

  /** Thread `id` has become `u`, no other thread has changed, and the lists agree with the nodes. */
  ghost predicate Turns(s: State, t: State, id: nat, u: Thread) {
    && Placed(t) && OnlyThread(s, t, id) && id in t.threads && t.threads[id] == u
    && |t.ready| == |s.ready| && t.current == s.current && t.nest == s.nest
  }

  lemma InvAfter(s: State, t: State, id: nat, u: Thread)
    requires Inv(s) && Turns(s, t, id, u) && Sound(u) && Sems(t)
    requires id == IDLE ==> u.stat == Ready && u.stage.Whole?
    ensures Inv(t)
  {
  }

  lemma SemsKept(s: State, t: State)
    requires Sems(s) && SameCounts(s, t) && forall k :: k in s.sems ==> |t.sems[k].waiters| == |s.sems[k].waiters|
    ensures Sems(t)
  {
    forall k | k in t.sems
      ensures SemOk(t.sems[k])
    {
      assert SemOk(s.sems[k]);
    }
  }

  lemma SameQueues(s: State, t: State)
    requires Placed(s) && t.threads == s.threads && t.ready == s.ready && t.sems == s.sems && t.defunct == s.defunct
    ensures Placed(t)
  {
    forall q | q != Nowhere
      ensures Holds(t, q)
    {
      assert Holds(s, q) && Queue(t, q) == Queue(s, q);
    }
  }

  lemma ScheduleInv(s: State)
    requires Inv(s)
    ensures Inv(Schedule(s))
  {
    var p := FirstReady(s.ready);
    if p < |s.ready| {
      assert Holds(s, OnReady(p)) && s.ready[p][0] in Queue(s, OnReady(p));
      SameQueues(s, Schedule(s));
    }
  }

  lemma SetInv(s: State, id: nat, u: Thread)
    requires Inv(s) && id in s.threads && Sound(u) && u.node == s.threads[id].node
    requires id == IDLE ==> u.stat == Ready && u.stage.Whole?
    ensures Turns(s, Set(s, id, u), id, u) && Inv(Set(s, id, u))
  {
    SetPlaced(s, id, u);
    InvAfter(s, Set(s, id, u), id, u);
  }

  lemma SuspendNowIs(s: State, id: nat)
    requires Placed(s) && id in s.threads
    ensures Turns(s, SuspendNow(s, id), id, s.threads[id].(stat := Suspended, armed := false, node := Nowhere))
    ensures Dropped(s, SuspendNow(s, id), s.threads[id].node)
  {
    var u := s.threads[id].(stat := Suspended, armed := false);
    SetPlaced(s, id, u);
    UnlinkPlaced(Set(s, id, u), id);
    UnlinkCounts(Set(s, id, u), id);
  }

  lemma TakeOffIs(s: State, id: nat)
    requires Placed(s) && id in s.threads
    ensures Turns(s, TakeOff(s, id), id, s.threads[id].(armed := false, stage := Resuming, node := Nowhere))
    ensures Dropped(s, TakeOff(s, id), s.threads[id].node)
  {
    var u := s.threads[id].(armed := false, stage := Resuming);
    SetPlaced(s, id, u);
    UnlinkPlaced(Set(s, id, u), id);
    UnlinkCounts(Set(s, id, u), id);
  }

  lemma PutBackIs(s: State, id: nat)
    requires Placed(s) && id in s.threads && s.threads[id].node == Nowhere && s.threads[id].prio < |s.ready|
    ensures var t := s.threads[id];
      Turns(s, PutBack(s, id), id, t.(stat := Ready, stage := Whole, node := OnReady(t.prio)))
    ensures PutBack(s, id).sems == s.sems
  {
    SetPlaced(s, id, s.threads[id].(stage := Whole));
    InsertPlaced(Set(s, id, s.threads[id].(stage := Whole)), id);
  }

  lemma ResumeIs(s: State, id: nat)
    requires Placed(s) && id in s.threads && s.threads[id].prio < |s.ready|
    ensures var t := s.threads[id];
      Turns(s, PutBack(TakeOff(s, id), id), id,
            t.(armed := false, stat := Ready, stage := Whole, node := OnReady(t.prio)))
    ensures Dropped(s, PutBack(TakeOff(s, id), id), s.threads[id].node)
  {
    TakeOffIs(s, id);
    PutBackIs(TakeOff(s, id), id);
  }

  /** A waiting thread is on the list of an existing semaphore. */
  lemma WaitedFor(s: State, id: nat)
    requires Threads(s) && id in s.threads
    ensures s.threads[id].wait.Waiting? ==>
      var k := s.threads[id].wait.sem; k in s.sems && id in s.sems[k].waiters && s.threads[id].node == OnSem(k)
  {
    var t := s.threads[id];
    assert Sound(t);
    if t.wait.Waiting? { assert Holds(s, t.node); }
  }

  /** Thread `id` once its timer has fired. */
  function TimedOutThread(t: Thread): Thread {
    t.(error := Etimeout, armed := false, wait := if t.wait.Waiting? then TimedOut(t.wait.sem) else t.wait,
       stat := Ready, node := OnReady(t.prio))
  }

  lemma FiredIs(s: State, id: nat)
    requires Threads(s) && id in s.threads
    ensures Turns(s, Fired(s, id), id, TimedOutThread(s.threads[id]))
    ensures Dropped(CountTimeout(s, s.threads[id].wait), Fired(s, id), s.threads[id].node)
  {
    var t := s.threads[id];
    assert Sound(t);
    var u := t.(error := Etimeout, armed := false, wait := if t.wait.Waiting? then TimedOut(t.wait.sem) else t.wait);
    var r := Set(s, id, u);
    SetPlaced(s, id, u);
    WaitedFor(s, id);
    if t.wait.Waiting? {
      var tally := r.sems[t.wait.sem].tally;
      TallyPlaced(r, t.wait.sem, tally.(timedOut := tally.timedOut + 1));
    }
    WakeIs(CountTimeout(r, t.wait), id);
  }

  /** A wait that ends by its timer, or with its thread, is booked. */
  lemma WaiterGone(s: State, id: nat, u: State, t: State)
    requires Threads(s) && Sems(s) && id in s.threads
    requires u.sems == CountTimeout(s, s.threads[id].wait).sems || u.sems == CountAbandoned(s, s.threads[id].wait).sems
    requires Dropped(u, t, s.threads[id].node)
    ensures Sems(t)
  {
    WaitedFor(s, id);
    assert Sound(s.threads[id]);
    forall k | k in t.sems
      ensures SemOk(t.sems[k])
    {
      assert SemOk(s.sems[k]) && t.sems[k] == u.sems[k].(waiters := t.sems[k].waiters);
    }
  }

  lemma YieldIs(s: State)
    requires Inv(s)
    ensures Turns(s, Yield(s), s.current, s.threads[s.current]) && Yield(s).sems == s.sems
  {
    var me := s.current;
    if Yields(s) {
      var (r, q) := (Unlink(s, me), OnReady(s.threads[me].prio));
      assert Sound(s.threads[me]);
      UnlinkPlaced(s, me);
      assert Holds(r, q);
      AppendIs(Queue(r, q), me);
      LinkPlaced(r, me, q, Queue(r, q) + [me]);
    }
  }

  lemma SetPriorityIs(s: State, id: nat, p: nat)
    requires Placed(s) && id in s.threads && p < |s.ready| && (s.threads[id].stat == Ready ==> s.threads[id].node.OnReady?)
    ensures var t := s.threads[id];
      Turns(s, SetPriority(s, id, p), id, if t.stat == Ready then t.(prio := p, node := OnReady(p)) else t.(prio := p))
    ensures SetPriority(s, id, p).sems == s.sems
  {
    var t := s.threads[id];
    if t.stat == Ready {
      var r := Unlink(s, id);
      UnlinkPlaced(s, id);
      SetPlaced(r, id, r.threads[id].(prio := p));
      InsertPlaced(Set(r, id, r.threads[id].(prio := p)), id);
    } else {
      SetPlaced(s, id, t.(prio := p));
    }
  }

  lemma RemoveIs(s: State, id: nat)
    requires Threads(s) && id in s.threads
    ensures Turns(s, Remove(s, id), id, s.threads[id].(wait := NoWait, leaving := false, stage := Removed, node := Nowhere))
    ensures Dropped(CountAbandoned(s, s.threads[id].wait), Remove(s, id), s.threads[id].node)
  {
    var t := s.threads[id];
    WaitedFor(s, id);
    if t.wait.Waiting? {
      var tally := s.sems[t.wait.sem].tally;
      TallyPlaced(s, t.wait.sem, tally.(abandoned := tally.abandoned + 1));
    }
    var r := CountAbandoned(s, t.wait);
    var u := t.(wait := NoWait, leaving := false, stage := Removed);
    SetPlaced(r, id, u);
    UnlinkPlaced(Set(r, id, u), id);
    UnlinkCounts(Set(r, id, u), id);
  }

  lemma DetachIs(s: State, id: nat)
    requires Placed(s) && id in s.threads
    ensures Turns(s, Detach(s, id), id, s.threads[id].(armed := false, stage := Detached)) && Detach(s, id).sems == s.sems
  {
    SetPlaced(s, id, s.threads[id].(armed := false, stage := Detached));
  }

  lemma BuryIs(s: State, id: nat)
    requires Placed(s) && id in s.threads && s.threads[id].node == Nowhere
    ensures Turns(s, Bury(s, id), id, s.threads[id].(stat := Closed, stage := Whole, node := OnDefunct))
    ensures Bury(s, id).sems == s.sems
  {
    var r := Set(s, id, s.threads[id].(stat := Closed, stage := Whole));
    SetPlaced(s, id, s.threads[id].(stat := Closed, stage := Whole));
    assert Holds(r, OnDefunct);
    PushIs(s.defunct, id);
    LinkPlaced(r, id, OnDefunct, [id] + s.defunct);
  }

  /** A closed thread; `node` says whether the idle thread is to clean it up. */
  function ClosedThread(t: Thread, node: Place): Thread {
    t.(stat := Closed, armed := false, wait := NoWait, leaving := false, stage := Whole, node := node)
  }

  lemma DeleteIs(s: State, id: nat)
    requires Threads(s) && id in s.threads
    ensures Turns(s, Delete(s, id), id, ClosedThread(s.threads[id], OnDefunct))
    ensures Dropped(CountAbandoned(s, s.threads[id].wait), Delete(s, id), s.threads[id].node)
  {
    RemoveIs(s, id);
    DetachIs(Remove(s, id), id);
    BuryIs(Detach(Remove(s, id), id), id);
  }

  lemma ExitIs(s: State)
    requires Threads(s) && s.current in s.threads
    ensures var t := s.threads[s.current];
      Turns(s, Exit(s), s.current, ClosedThread(t, if t.detaches then Nowhere else OnDefunct))
    ensures Dropped(CountAbandoned(s, s.threads[s.current].wait), Exit(s), s.threads[s.current].node)
  {
    var me := s.current;
    if s.threads[me].detaches {
      RemoveIs(s, me);
      DetachIs(Remove(s, me), me);
      var r := Detach(Remove(s, me), me);
      SetPlaced(r, me, r.threads[me].(stat := Closed, stage := Whole));
    } else {
      DeleteIs(s, me);
    }
  }

  /** The thread after the section of rt_thread_sleep. */
  lemma SleepIs(s: State)
    requires Placed(s) && s.current in s.threads && s.threads[s.current].stat == Ready
    ensures Turns(s, Sleep(s), s.current,
      s.threads[s.current].(stat := Suspended, armed := true, node := Nowhere, wait := Sleeping, leaving := true))
    ensures Dropped(s, Sleep(s), s.threads[s.current].node)
  {
    var me := s.current;
    SuspendNowIs(s, me);
    var t := SuspendNow(s, me);
    SetPlaced(t, me, t.threads[me].(armed := true, wait := Sleeping, leaving := true));
  }

  lemma TakeUnitInv(s: State, k: nat)
    requires Inv(s) && k in s.sems && s.sems[k].value > 0
    ensures Inv(TakeUnit(s, k))
  {
    var t := TakeUnit(s, k);
    assert SemOk(s.sems[k]);
    forall q | q != Nowhere
      ensures Holds(t, q)
    {
      assert Holds(s, q) && Queue(t, q) == Queue(s, q);
    }
  }

  // ---------------------------------------------------------------- the section of a rt_sem_take that has to wait

  /** The current thread as a waiter of semaphore `k`. */
  function WaitingThread(t: Thread, k: nat, timed: bool): Thread {
    t.(error := Eok, stat := Suspended, armed := timed, node := OnSem(k), wait := Waiting(k), leaving := true)
  }

  lemma BlockReadyIs(s: State, k: nat, timed: bool)
    requires Placed(s) && k in s.sems && s.current in s.threads
    requires s.threads[s.current].stat == Ready && s.threads[s.current].node.OnReady?
    ensures Turns(s, BlockReady(s, k, timed), s.current, WaitingThread(s.threads[s.current], k, timed).(node := Nowhere))
    ensures BlockReady(s, k, timed).sems == s.sems[k := s.sems[k].(tally := s.sems[k].tally.(blocked := s.sems[k].tally.blocked + 1))]
  {
    var (me, t) := (s.current, s.threads[s.current]);
    var a := Set(s, me, t.(error := Eok));
    SetPlaced(s, me, t.(error := Eok));
    SuspendNowIs(a, me);
    var u := SuspendNow(a, me);
    var tally := s.sems[k].tally;
    TallyPlaced(u, k, tally.(blocked := tally.blocked + 1));
    var w := WithTally(u, k, tally.(blocked := tally.blocked + 1));
    SetPlaced(w, me, w.threads[me].(wait := Waiting(k), armed := timed, leaving := true));
  }

  /** Joining the waiters of semaphore `k`. */
  lemma LinkWaiter(v: State, k: nat, me: nat, xs: seq<nat>)
    requires Placed(v) && k in v.sems && me in v.threads && v.threads[me].node == Nowhere
    requires Distinct(xs) && Elements(xs) == Elements(v.sems[k].waiters) + {me} && |xs| == |v.sems[k].waiters| + 1
    ensures Turns(v, Link(v, me, OnSem(k), xs), me, v.threads[me].(node := OnSem(k)))
    ensures Link(v, me, OnSem(k), xs).sems == v.sems[k := v.sems[k].(waiters := xs)]
  {
    LinkPlaced(v, me, OnSem(k), xs);
  }

  /** One semaphore has a new waiter and nothing else about the semaphores has changed. */
  predicate OneMoreWaiter(s: State, w: State, k: nat) {
    && k in s.sems && w.sems.Keys == s.sems.Keys && (forall j :: j in s.sems && j != k ==> w.sems[j] == s.sems[j])
    && w.sems[k].tally == s.sems[k].tally.(blocked := s.sems[k].tally.blocked + 1)
    && w.sems[k] == s.sems[k].(waiters := w.sems[k].waiters, tally := w.sems[k].tally)
    && |w.sems[k].waiters| == |s.sems[k].waiters| + 1
  }

  lemma WaitersAre(s: State, k: nat, timed: bool)
    requires Placed(s) && k in s.sems && s.current in s.threads && s.threads[s.current].node.OnReady?
    ensures var (ws, xs) := (s.sems[k].waiters, Waiters(s, k, timed));
      Distinct(xs) && Elements(xs) == Elements(ws) + {s.current} && |xs| == |ws| + 1
  {
    assert Holds(s, OnSem(k)) && Queue(s, OnSem(k)) == s.sems[k].waiters;
    EnqueueIs(s.sems[k].waiters, s.sems[k].flag, Priorities(BlockReady(s, k, timed).threads), s.current);
  }

  lemma BlockingIs(s: State, k: nat, timed: bool)
    requires Placed(s) && k in s.sems && s.current in s.threads
    requires s.threads[s.current].stat == Ready && s.threads[s.current].node.OnReady?
    ensures Turns(s, Blocking(s, k, timed), s.current, WaitingThread(s.threads[s.current], k, timed))
    ensures OneMoreWaiter(s, Blocking(s, k, timed), k)
  {
    var v := BlockReady(s, k, timed);
    BlockReadyIs(s, k, timed);
    WaitersAre(s, k, timed);
    LinkWaiter(v, k, s.current, Waiters(s, k, timed));
    LinkedAfter(s, v, Blocking(s, k, timed), k, Waiters(s, k, timed));
  }

  lemma LinkedAfter(s: State, v: State, w: State, k: nat, xs: seq<nat>)
    requires k in s.sems && |xs| == |s.sems[k].waiters| + 1
    requires v.sems == s.sems[k := s.sems[k].(tally := s.sems[k].tally.(blocked := s.sems[k].tally.blocked + 1))]
    requires w.sems == v.sems[k := v.sems[k].(waiters := xs)]
    ensures OneMoreWaiter(s, w, k)
  {
  }

  lemma OneMoreKept(s: State, w: State, k: nat)
    requires Sems(s) && OneMoreWaiter(s, w, k) && s.sems[k].value == 0
    ensures Sems(w)
  {
    forall j | j in w.sems
      ensures SemOk(w.sems[j])
    {
      assert SemOk(s.sems[j]);
    }
  }

  // ---------------------------------------------------------------- the section of rt_sem_release

  /** A waiter that has been handed a unit of semaphore `k`. */
  function GrantedThread(t: Thread, k: nat): Thread {
    t.(wait := Granted(k), armed := false, stat := Ready, stage := Whole, node := OnReady(t.prio))
  }

  lemma HandOverIs(s: State, k: nat, w: nat)
    requires Placed(s) && k in s.sems && w in s.threads && s.threads[w].stat == Suspended && s.threads[w].prio < |s.ready|
    ensures Turns(s, HandOver(s, k, w), w, GrantedThread(s.threads[w], k))
    ensures Dropped(Handing(s, k, w), HandOver(s, k, w), s.threads[w].node)
  {
    var tally := s.sems[k].tally;
    var more := tally.(releases := tally.releases + 1, grants := tally.grants + 1, handed := tally.handed + 1);
    TallyPlaced(s, k, more);
    var r := WithTally(s, k, more);
    SetPlaced(r, w, r.threads[w].(wait := Granted(k)));
    ResumeIs(Handing(s, k, w), w);
  }

  lemma FirstWaiter(s: State, k: nat)
    requires Inv(s) && k in s.sems && s.sems[k].waiters != []
    ensures var w := s.sems[k].waiters[0];
      w in s.threads && s.threads[w].wait == Waiting(k) && s.threads[w].node == OnSem(k)
      && s.threads[w].stat == Suspended && s.threads[w].prio < |s.ready| && Sound(s.threads[w])
  {
    var w := s.sems[k].waiters[0];
    assert Holds(s, OnSem(k)) && w in Queue(s, OnSem(k));
    assert Sound(s.threads[w]);
  }

  lemma HandOverSems(s: State, k: nat, t: State)
    requires Sems(s) && k in s.sems && s.sems[k].waiters != [] && s.sems[k].waiters[0] in s.threads
    requires Dropped(Handing(s, k, s.sems[k].waiters[0]), t, OnSem(k))
    ensures Sems(t)
  {
    forall j | j in t.sems
      ensures SemOk(t.sems[j])
    {
      assert SemOk(s.sems[j]);
      assert t.sems[j] == Handing(s, k, s.sems[k].waiters[0]).sems[j].(waiters := t.sems[j].waiters);
    }
  }

  lemma CountUpInv(s: State, k: nat)
    requires Inv(s) && k in s.sems && s.sems[k].waiters == []
    ensures Inv(Release(s, k))
  {
    var t := Release(s, k);
    assert SemOk(s.sems[k]);
    forall q | q != Nowhere
      ensures Holds(t, q)
    {
      assert Holds(s, q) && Queue(t, q) == Queue(s, q);
    }
  }
}
