/** The books of a semaphore: its value and its tally against the calls of a whole run, counted independently. */
module SemaphoreRuns {
  import opened Lists
  import opened Runs
  import opened WaitList
  import opened KernelSpec
  import opened KernelRuns

  // ---------------------------------------------------------------- what one step means for a semaphore

  /** What one step, or a run, means for a semaphore: rt_sem_release calls, units taken at once, waits begun, units
      handed to waiters, waits timed out, and waits given up with their threads. */
  datatype Counts = Counts(released: nat, taken: nat, begun: nat, handed: nat, late: nat, gone: nat)

  /** How the waits of threads go on. */
  datatype Change = Begins | IsHanded | IsLate | IsGone

  predicate Changes(a: Wait, b: Wait, k: nat, how: Change) {
    match how
    case Begins => a != Waiting(k) && b == Waiting(k)
    case IsHanded => a == Waiting(k) && b == Granted(k)
    case IsLate => a == Waiting(k) && b == TimedOut(k)
    case IsGone => a == Waiting(k) && b != Waiting(k) && b != Granted(k) && b != TimedOut(k)
  }

  /** The threads whose wait on semaphore `k` begins, or ends in the given way. */
  function Those(s: State, t: State, k: nat, how: Change): set<nat> {
    set id | id in s.threads && id in t.threads && Changes(s.threads[id].wait, t.threads[id].wait, k, how)
  }

  function CountsOf(s: State, op: Op, k: nat): Counts
    requires Legal(s, op)
  {
    var t := Step(s, op);
    Counts(if op == DoRelease(k) then 1 else 0,
           if op.DoTake? && op.sem == k && s.sems[k].value > 0 then 1 else 0,
           |Those(s, t, k, Begins)|, |Those(s, t, k, IsHanded)|, |Those(s, t, k, IsLate)|, |Those(s, t, k, IsGone)|)
  }

  function Plus(a: Counts, b: Counts): Counts {
    Counts(a.released + b.released, a.taken + b.taken, a.begun + b.begun, a.handed + b.handed, a.late + b.late, a.gone + b.gone)
  }

  function CountsIn(s: State, ops: seq<Op>, k: nat): Counts
    decreases |ops|
  {
    if ops == [] then Counts(0, 0, 0, 0, 0, 0)
    else Plus(if Legal(s, ops[0]) then CountsOf(s, ops[0], k) else Counts(0, 0, 0, 0, 0, 0), CountsIn(Run(s, ops[0]), ops[1..], k))
  }

  /** The tally with `c` added. */
  function Booked(m: Tally, c: Counts): Tally {
    Tally(m.initial, m.releases + c.released, m.grants + c.taken + c.handed, m.blocked + c.begun, m.handed + c.handed,
          m.timedOut + c.late, m.abandoned + c.gone)
  }

  // ---------------------------------------------------------------- one step

  function Bit(b: bool): nat { if b then 1 else 0 }

  /** What it means when the wait of one thread goes from `a` to `b`. */
  function CountsAt(released: bool, taken: bool, a: Wait, b: Wait, k: nat): Counts {
    Counts(Bit(released), Bit(taken), Bit(Changes(a, b, k, Begins)), Bit(Changes(a, b, k, IsHanded)),
           Bit(Changes(a, b, k, IsLate)), Bit(Changes(a, b, k, IsGone)))
  }

  lemma OneThread(s: State, t: State, k: nat, how: Change, x: nat)
    requires OnlyThread(s, t, x) && x in s.threads
    ensures |Those(s, t, k, how)| == Bit(Changes(s.threads[x].wait, t.threads[x].wait, k, how))
  {
    assert Those(s, t, k, how) == if Changes(s.threads[x].wait, t.threads[x].wait, k, how) then {x} else {};
  }

  /** The wait of the thread that a step is about, afterwards. */
  function WaitAfter(s: State, op: Op): Wait
    requires Touched(s, op) in s.threads
  {
    Becomes(s, op, s.threads[Touched(s, op)]).wait
  }

  lemma CountsAre(s: State, op: Op, k: nat)
    requires Inv(s) && Legal(s, op)
    ensures Touched(s, op) in s.threads
    ensures CountsOf(s, op, k) == CountsAt(op == DoRelease(k), op.DoTake? && op.sem == k && s.sems[k].value > 0,
                                           s.threads[Touched(s, op)].wait, WaitAfter(s, op), k)
  {
    StepTouches(s, op);
    ThoseAre(s, Step(s, op), k, Touched(s, op), WaitAfter(s, op));
  }

  lemma ThoseAre(s: State, t: State, k: nat, x: nat, b: Wait)
    requires OnlyThread(s, t, x) && x in s.threads && t.threads[x].wait == b
    ensures forall how :: |Those(s, t, k, how)| == Bit(Changes(s.threads[x].wait, b, k, how))
  {
    forall how
      ensures |Those(s, t, k, how)| == Bit(Changes(s.threads[x].wait, b, k, how))
    {
      OneThread(s, t, k, how, x);
    }
  }

  /** The tally of semaphore `k` after a step. */
  ghost predicate TallyIs(s: State, t: State, k: nat, m: Tally) {
    k in s.sems && k in t.sems && t.sems[k].tally == m
  }

  lemma TakeTally(s: State, j: nat, time: int, k: nat)
    requires Inv(s) && Legal(s, DoTake(j, time)) && k in s.sems
    ensures var m := s.sems[k].tally;
      TallyIs(s, Take(s, j, time), k,
              if j == k && s.sems[k].value > 0 then m.(grants := m.grants + 1)
              else if j == k && time != 0 then m.(blocked := m.blocked + 1) else m)
  {
    if Blocks(s, j, time) { BlockTally(s, j, time > 0, k); }
  }

  lemma BlockTally(s: State, j: nat, timed: bool, k: nat)
    requires Inv(s) && j in s.sems && k in s.sems && Running(s)
    ensures var m := s.sems[k].tally;
      TallyIs(s, Blocking(s, j, timed), k, if j == k then m.(blocked := m.blocked + 1) else m)
  {
    assert Sound(s.threads[s.current]);
    BlockingIs(s, j, timed);
  }

  lemma ReleaseTally(s: State, j: nat, k: nat)
    requires Inv(s) && j in s.sems && k in s.sems
    ensures var m := s.sems[k].tally;
      TallyIs(s, Release(s, j), k,
              if j != k then m
              else if s.sems[k].waiters == [] then m.(releases := m.releases + 1)
              else m.(releases := m.releases + 1, grants := m.grants + 1, handed := m.handed + 1))
  {
    if s.sems[j].waiters != [] {
      var w := s.sems[j].waiters[0];
      FirstWaiter(s, j);
      HandOverIs(s, j, w);
      assert Release(s, j).sems[k].tally == Handing(s, j, w).sems[k].tally;
    }
  }

  lemma TimeoutTally(s: State, id: nat, k: nat)
    requires Inv(s) && Legal(s, DoTimeout(id)) && k in s.sems
    ensures var m := s.sems[k].tally;
      TallyIs(s, Timeout(s, id), k, if s.threads[id].wait == Waiting(k) then m.(timedOut := m.timedOut + 1) else m)
  {
    ScheduleSems(Fired(s, id));
    assert SameCounts(CountTimeout(s, s.threads[id].wait), Fired(s, id)) by { FiredIs(s, id); }
    SameTally(CountTimeout(s, s.threads[id].wait), Fired(s, id), k);
  }

  lemma ScheduleSems(s: State)
    ensures Schedule(s).sems == s.sems
  {
  }

  lemma CloseTally(s: State, op: Op, k: nat)
    requires Inv(s) && Legal(s, op) && (op.DoRemove? || op.DoDelete? || op.DoExit?) && k in s.sems
    ensures var m := s.sems[k].tally;
      Touched(s, op) in s.threads
      && TallyIs(s, Step(s, op), k,
                 if s.threads[Touched(s, op)].wait == Waiting(k) then m.(abandoned := m.abandoned + 1) else m)
  {
    var u := CountAbandoned(s, s.threads[Touched(s, op)].wait);
    CloseDrops(s, op);
    SameTally(u, Step(s, op), k);
  }

  lemma CloseDrops(s: State, op: Op)
    requires Inv(s) && Legal(s, op) && (op.DoRemove? || op.DoDelete? || op.DoExit?)
    ensures SameCounts(CountAbandoned(s, s.threads[Touched(s, op)].wait), Step(s, op))
  {
    match op
    case DoRemove(id) => RemoveIs(s, id);
    case DoDelete(id) => DeleteIs(s, id);
    case DoExit => ExitIs(s);
  }

  lemma SameTally(s: State, t: State, k: nat)
    requires SameCounts(s, t) && k in s.sems
    ensures TallyIs(s, t, k, s.sems[k].tally)
  {
  }

  /** Every other step. */
  predicate Quiet(op: Op) {
    !op.DoTake? && !op.DoRelease? && !op.DoTimeout? && !op.DoRemove? && !op.DoDelete? && !op.DoExit?
  }

  lemma QuietTally(s: State, op: Op)
    requires Inv(s) && Legal(s, op) && Quiet(op)
    ensures SameCounts(s, Step(s, op))
  {
    match op
    case DoSuspendNow(id) => SuspendNowIs(s, id);
    case DoTakeOff(id) => TakeOffIs(s, id);
    case DoPutBack(id) => assert Sound(s.threads[id]); PutBackIs(s, id);
    case DoSleep => SleepIs(s);
    case DoYield => YieldIs(s);
    case DoSetPriority(id, p) => assert Sound(s.threads[id]); SetPriorityIs(s, id, p);
    case DoDetach(id) => DetachIs(s, id);
    case DoBury(id) => assert Sound(s.threads[id]); BuryIs(s, id);
    case _ =>
  }

  /** Such a step neither begins nor ends a wait. */
  lemma QuietWaits(s: State, op: Op, k: nat)
    requires Inv(s) && Awaits(s) && Legal(s, op) && Quiet(op) && Touched(s, op) in s.threads
    ensures var (a, b) := (s.threads[Touched(s, op)].wait, WaitAfter(s, op));
      a == b || (a != Waiting(k) && b != Waiting(k))
  {
    assert Sound(s.threads[Touched(s, op)]);
  }

  /** Every step is booked in the tally of every semaphore. */
  lemma StepBooks(s: State, op: Op, k: nat)
    requires Inv(s) && Awaits(s) && Legal(s, op) && k in s.sems
    ensures TallyIs(s, Step(s, op), k, Booked(s.sems[k].tally, CountsOf(s, op, k)))
  {
    CountsAre(s, op, k);
    if Quiet(op) {
      QuietTally(s, op);
      SameTally(s, Step(s, op), k);
      QuietWaits(s, op, k);
    } else {
      LoudBooks(s, op, k);
    }
  }

  /** How the other steps change the wait of the thread they are about. */
  lemma LoudWaits(s: State, op: Op)
    requires Inv(s) && Legal(s, op) && !Quiet(op) && Touched(s, op) in s.threads
    ensures var (a, b) := (s.threads[Touched(s, op)].wait, WaitAfter(s, op));
      && (op.DoTake? ==> a == NoWait && b == if Blocks(s, op.sem, op.time) then Waiting(op.sem) else a)
      && (op.DoRelease? && s.sems[op.sem].waiters != [] ==> a == Waiting(op.sem) && b == Granted(op.sem))
      && (op.DoRelease? && s.sems[op.sem].waiters == [] ==> b == a)
      && (op.DoTimeout? ==> b == if a.Waiting? then TimedOut(a.sem) else a)
      && (op.DoRemove? || op.DoDelete? || op.DoExit? ==> b == NoWait)
  {
    if op.DoRelease? && s.sems[op.sem].waiters != [] { FirstWaiter(s, op.sem); }
  }

  /** The tally of semaphore `k` after a step about a thread whose wait was `a`. */
  function NewTally(op: Op, k: nat, m: Sem, a: Wait): Tally {
    var y := m.tally;
    match op
    case DoTake(j, time) =>
      if j == k && m.value > 0 then y.(grants := y.grants + 1)
      else if j == k && time != 0 then y.(blocked := y.blocked + 1) else y
    case DoRelease(j) =>
      if j != k then y
      else if m.waiters == [] then y.(releases := y.releases + 1)
      else y.(releases := y.releases + 1, grants := y.grants + 1, handed := y.handed + 1)
    case DoTimeout(_) => if a == Waiting(k) then y.(timedOut := y.timedOut + 1) else y
    case _ => if a == Waiting(k) then y.(abandoned := y.abandoned + 1) else y
  }

  lemma LoudTally(s: State, op: Op, k: nat)
    requires Inv(s) && Legal(s, op) && k in s.sems && !Quiet(op) && Touched(s, op) in s.threads
    ensures TallyIs(s, Step(s, op), k, NewTally(op, k, s.sems[k], s.threads[Touched(s, op)].wait))
  {
    match op
    case DoTake(j, time) => TakeTally(s, j, time, k);
    case DoRelease(j) => ReleaseTally(s, j, k);
    case DoTimeout(id) => TimeoutTally(s, id, k);
    case _ => CloseTally(s, op, k);
  }

  lemma LoudBooks(s: State, op: Op, k: nat)
    requires Inv(s) && Legal(s, op) && k in s.sems && !Quiet(op) && Touched(s, op) in s.threads
    ensures TallyIs(s, Step(s, op), k,
      Booked(s.sems[k].tally, CountsAt(op == DoRelease(k), op.DoTake? && op.sem == k && s.sems[k].value > 0,
                                       s.threads[Touched(s, op)].wait, WaitAfter(s, op), k)))
  {
    var (a, b) := (s.threads[Touched(s, op)].wait, WaitAfter(s, op));
    LoudWaits(s, op);
    assert NewTally(op, k, s.sems[k], a)
        == Booked(s.sems[k].tally, CountsAt(op == DoRelease(k), op.DoTake? && op.sem == k && s.sems[k].value > 0, a, b, k));
    LoudTally(s, op, k);
  }

  // ---------------------------------------------------------------- runs

  lemma BookedTwice(m: Tally, a: Counts, b: Counts)
    ensures Booked(Booked(m, a), b) == Booked(m, Plus(a, b))
  {
  }

  lemma {:induction false} RunBooks(s: State, ops: seq<Op>, t: State, k: nat)
    requires Inv(s) && Awaits(s) && k in s.sems && Reaches(Legal, Run, s, ops, t)
    ensures Inv(t) && k in t.sems && t.sems[k].tally == Booked(s.sems[k].tally, CountsIn(s, ops, k))
    decreases |ops|
  {
    if ops != [] {
      StepInv(s, ops[0]);
      StepBooks(s, ops[0], k);
      RunBooks(Run(s, ops[0]), ops[1..], t, k);
      BookedTwice(s.sems[k].tally, CountsOf(s, ops[0], k), CountsIn(Run(s, ops[0]), ops[1..], k));
    }
  }

  /** From the start of the system on: the tally counts the calls of rt_sem_release, the takes that got a unit at
      once, and what became of the waits. So while fewer than 2^16 units have come in, the value is what the semaphore
      started with and what has been released, less what has been taken or handed over; and those wait that have begun
      to and were neither handed a unit, nor timed out, nor closed. */
  lemma ValueCounts(s: State, ops: seq<Op>, t: State, k: nat)
    requires Boot(s) && k in s.sems && Reaches(Legal, Run, s, ops, t)
    ensures Inv(t) && k in t.sems
    ensures var (c, v) := (CountsIn(s, ops, k), s.sems[k].value);
      && t.sems[k].tally == Tally(v, c.released, c.taken + c.handed, c.begun, c.handed, c.late, c.gone)
      && (v + c.released < VALUES ==> t.sems[k].value == v + c.released - (c.taken + c.handed))
      && |t.sems[k].waiters| == c.begun - c.handed - c.late - c.gone
  {
    BootBooks(s, k);
    CountsFrom(s, ops, t, k);
  }

  lemma CountsFrom(s: State, ops: seq<Op>, t: State, k: nat)
    requires Inv(s) && Awaits(s) && k in s.sems && s.sems[k].tally == Tally(s.sems[k].value, 0, 0, 0, 0, 0, 0)
    requires Reaches(Legal, Run, s, ops, t)
    ensures Inv(t) && k in t.sems
    ensures var (c, v) := (CountsIn(s, ops, k), s.sems[k].value);
      && t.sems[k].tally == Tally(v, c.released, c.taken + c.handed, c.begun, c.handed, c.late, c.gone)
      && (v + c.released < VALUES ==> t.sems[k].value == v + c.released - (c.taken + c.handed))
      && |t.sems[k].waiters| == c.begun - c.handed - c.late - c.gone
  {
    RunBooks(s, ops, t, k);
    SemaphoreCounts(t, k);
  }

  lemma BootBooks(s: State, k: nat)
    requires Boot(s) && k in s.sems
    ensures Inv(s) && Awaits(s) && s.sems[k].tally == Tally(s.sems[k].value, 0, 0, 0, 0, 0, 0)
  {
  }

  // ---------------------------------------------------------------- what rt_sem_take answers

  /** rt_sem_take answers RT_EOK at once, and the value is one less, exactly if the value is above 0; with value 0 and
      no time to wait it answers -RT_ETIMEOUT and nothing changes; otherwise the thread waits: it is on the list of
      the semaphore, its timer runs exactly if it was given a time, and with the scheduler unlocked another thread
      runs. */
  lemma TakeAnswers(s: State, k: nat, time: int)
    requires Inv(s) && k in s.sems && Running(s) && s.current != IDLE
    ensures var ((t, r), m) := (TakeCall(s, k, time), s.sems[k]);
      && k in t.sems && s.current in t.threads
      && (m.value > 0 ==> r == Done(Eok) && t.sems[k].value == m.value - 1 && t == s.(sems := t.sems))
      && (m.value == 0 && time == 0 ==> r == Done(Etimeout) && t == s)
      && (m.value == 0 && time != 0 ==>
            && t.sems[k].value == 0 && s.current in t.sems[k].waiters && |t.sems[k].waiters| == |m.waiters| + 1
            && t.threads[s.current].wait == Waiting(k) && t.threads[s.current].stat == Suspended
            && (t.threads[s.current].armed <==> time > 0)
            && (r == Blocked <==> s.nest == 0) && (r == Blocked <==> t.current != s.current)
            && (r != Blocked ==> r == Done(Eok)))
  {
    if Blocks(s, k, time) { WaitAnswers(s, k, time); }
  }

  lemma WaitAnswers(s: State, k: nat, time: int)
    requires Inv(s) && k in s.sems && Running(s) && s.current != IDLE && Blocks(s, k, time)
    ensures var ((t, r), m) := (TakeCall(s, k, time), s.sems[k]);
      && k in t.sems && s.current in t.threads
      && t.sems[k].value == 0 && s.current in t.sems[k].waiters && |t.sems[k].waiters| == |m.waiters| + 1
      && t.threads[s.current].wait == Waiting(k) && t.threads[s.current].stat == Suspended
      && (t.threads[s.current].armed <==> time > 0)
      && (r == Blocked <==> s.nest == 0) && (r == Blocked <==> t.current != s.current)
      && (r != Blocked ==> r == Done(Eok))
  {
    var u := Blocking(s, k, time > 0);
    BlockedState(s, k, time > 0);
    assert TakeCall(s, k, time)
        == (SwitchAway(u), if SwitchAway(u).current == s.current then Done(SwitchAway(u).threads[s.current].error) else Blocked) by {
      SwitchesAway(u);
    }
    SwitchesAway(u);
    AwayState(u, s.current);
  }

  lemma BlockedState(s: State, k: nat, timed: bool)
    requires Inv(s) && k in s.sems && Running(s) && s.current != IDLE && s.sems[k].value == 0
    ensures var u := Blocking(s, k, timed);
      && Inv(u) && u.current == s.current && u.nest == s.nest && u.threads[s.current] == WaitingThread(s.threads[s.current], k, timed)
      && k in u.sems && u.sems[k].value == 0 && s.current in u.sems[k].waiters && |u.sems[k].waiters| == |s.sems[k].waiters| + 1
  {
    var u := Blocking(s, k, timed);
    assert Sound(s.threads[s.current]);
    BlockingInv(s, k, timed);
    BlockingIs(s, k, timed);
    assert Holds(u, OnSem(k)) && Queue(u, OnSem(k)) == u.sems[k].waiters;
  }

  lemma AwayState(u: State, me: nat)
    requires u.current == me && me in u.threads
    ensures var t := SwitchAway(u); t.sems == u.sems && me in t.threads && t.threads[me] == u.threads[me].(leaving := false)
  {
  }

  /** rt_sem_release hands the unit to the first waiter if there is one: it is off the list, ready, and its wait has
      ended; otherwise the value is one more, modulo 2^16. */
  lemma ReleaseAnswers(s: State, k: nat)
    requires Inv(s) && k in s.sems
    ensures var (t, m) := (Release(s, k), s.sems[k]);
      && k in t.sems
      && (m.waiters == [] ==> t.sems[k].value == (m.value + 1) % VALUES && t == s.(sems := t.sems) && t.sems[k].waiters == [])
      && (m.waiters != [] ==>
            var w := m.waiters[0];
            && t.sems[k].value == 0 && t.sems[k].waiters == m.waiters[1..]
            && w in t.threads && t.threads[w].wait == Granted(k) && t.threads[w].stat == Ready && !t.threads[w].armed)
  {
    if s.sems[k].waiters != [] {
      var w := s.sems[k].waiters[0];
      assert SemOk(s.sems[k]);
      FirstWaiter(s, k);
      HandOverIs(s, k, w);
      HandOverList(s, k);
    }
  }

  lemma HandOverList(s: State, k: nat)
    requires Inv(s) && k in s.sems && s.sems[k].waiters != []
    ensures k in Release(s, k).sems && Release(s, k).sems[k].waiters == s.sems[k].waiters[1..]
  {
    FirstWaiter(s, k);
  }
}
