/** The timer list of timer.c on an ideal clock that never wraps around: what rt_timer_start, rt_timer_stop,
    rt_timer_control and rt_timer_check do, and which timers fire at which tick of every run. */
module TimerSpec {
  import opened Words
  import opened Runs

  const RT_TICK_MAX := WORD_MAX
  const HALF := RT_TICK_MAX / 2

  datatype Timer = Timer(init: nat, periodic: bool, active: bool)

  /** A started timer; `stamp` numbers the starts. */
  datatype Entry = Entry(id: nat, deadline: nat, stamp: nat)

  datatype State = State(now: nat, timers: map<nat, Timer>, list: seq<Entry>, stamps: nat)

  datatype Op =
    | Start(id: nat)
    | Stop(id: nat)
    | SetTime(id: nat, ticks: nat)
    | SetPeriodic(id: nat, on: bool)
    | Tick

  // ---------------------------------------------------------------- the operations

  /** In front of the first entry with a later deadline. */
  function Insert(list: seq<Entry>, e: Entry): seq<Entry> {
    if list == [] || list[0].deadline > e.deadline then [e] + list else [list[0]] + Insert(list[1..], e)
  }

  function Remove(list: seq<Entry>, id: nat): seq<Entry> {
    if list == [] then [] else if list[0].id == id then list[1..] else [list[0]] + Remove(list[1..], id)
  }

  function StartTimer(s: State, id: nat): State
    requires id in s.timers
  {
    var t := s.timers[id];
    s.(timers := s.timers[id := t.(active := true)],
       list := Insert(Remove(s.list, id), Entry(id, s.now + t.init, s.stamps)),
       stamps := s.stamps + 1)
  }

  /** The boolean is false where the code returns -RT_ERROR. */
  function StopTimer(s: State, id: nat): (State, bool)
    requires id in s.timers
  {
    if !s.timers[id].active then (s, false)
    else (s.(timers := s.timers[id := s.timers[id].(active := false)], list := Remove(s.list, id)), true)
  }

  predicate Expired(s: State) {
    s.list != [] && s.list[0].deadline <= s.now
  }

  /** The head of the list leaves it and is started again if it is periodic. */
  function FireHead(s: State): State
    requires s.list != [] && s.list[0].id in s.timers
  {
    var id := s.list[0].id;
    var t := s.(list := s.list[1..]);
    if s.timers[id].periodic then StartTimer(t, id)
    else t.(timers := s.timers[id := s.timers[id].(active := false)])
  }

  /** Timers are known and periodic ones have a period. */
  predicate Sane(s: State) {
    && (forall e :: e in s.list ==> e.id in s.timers)
    && (forall id :: id in s.timers && s.timers[id].periodic ==> s.timers[id].init >= 1)
  }

  function CountExpired(list: seq<Entry>, now: nat): nat {
    if list == [] then 0 else (if list[0].deadline <= now then 1 else 0) + CountExpired(list[1..], now)
  }

  /** rt_timer_check: fires the head of the list while it has expired; the numbers of the fired timers in order. */
  function Check(s: State): (State, seq<nat>)
    requires Sane(s)
    decreases CountExpired(s.list, s.now)
  {
    if !Expired(s) then (s, [])
    else
      FireHeadSane(s);
      var (t, fired) := Check(FireHead(s));
      (t, [s.list[0].id] + fired)
  }

  /** One step of the clock: the tick counter and rt_timer_check. */
  function TickStep(s: State): (State, seq<nat>)
    requires Sane(s)
  {
    Check(s.(now := s.now + 1))
  }

  lemma {:induction false} InsertMembers(list: seq<Entry>, e: Entry, x: Entry)
    ensures x in Insert(list, e) <==> x == e || x in list
  {
    if list != [] && list[0].deadline <= e.deadline {
      assert list == [list[0]] + list[1..];
      InsertMembers(list[1..], e, x);
    }
  }

  lemma {:induction false} InsertCount(list: seq<Entry>, e: Entry, now: nat)
    ensures CountExpired(Insert(list, e), now) == CountExpired(list, now) + if e.deadline <= now then 1 else 0
  {
    if list == [] || list[0].deadline > e.deadline {
      assert ([e] + list)[1..] == list;
    } else {
      InsertCount(list[1..], e, now);
      assert Insert(list, e)[1..] == Insert(list[1..], e);
    }
  }

  lemma {:induction false} RemoveMembers(list: seq<Entry>, id: nat, x: Entry)
    ensures x in Remove(list, id) ==> x in list
    ensures x in list && x.id != id ==> x in Remove(list, id)
  {
    if list != [] {
      assert list == [list[0]] + list[1..];
      if list[0].id != id { RemoveMembers(list[1..], id, x); }
    }
  }

  lemma {:induction false} RemoveCount(list: seq<Entry>, id: nat, now: nat)
    ensures CountExpired(Remove(list, id), now) <= CountExpired(list, now)
  {
    if list != [] && list[0].id != id {
      RemoveCount(list[1..], id, now);
      assert Remove(list, id)[1..] == Remove(list[1..], id);
    }
  }

  /** Firing the head leaves fewer expired timers: a periodic one comes back with a deadline still ahead. */
  lemma FireHeadSane(s: State)
    requires Sane(s) && Expired(s)
    ensures Sane(FireHead(s)) && CountExpired(FireHead(s).list, s.now) < CountExpired(s.list, s.now)
  {
    var (id, rest) := (s.list[0].id, s.list[1..]);
    if s.timers[id].periodic {
      var e := Entry(id, s.now + s.timers[id].init, s.stamps);
      InsertCount(Remove(rest, id), e, s.now);
      RemoveCount(rest, id, s.now);
      forall x | x in Insert(Remove(rest, id), e)
        ensures x.id in s.timers
      {
        InsertMembers(Remove(rest, id), e, x);
        RemoveMembers(rest, id, x);
      }
    }
  }

  // ---------------------------------------------------------------- the invariant

  predicate Before(a: Entry, b: Entry) {
    a.deadline < b.deadline || (a.deadline == b.deadline && a.stamp < b.stamp)
  }

  /** Earlier deadlines first, and among equal deadlines the timer started first. */
  predicate Sorted(list: seq<Entry>) {
    list != [] ==> (forall e :: e in list[1..] ==> Before(list[0], e)) && Sorted(list[1..])
  }

  /** No timer is in the list twice. */
  predicate Unique(list: seq<Entry>) {
    list != [] ==> (forall e :: e in list[1..] ==> e.id != list[0].id) && Unique(list[1..])
  }

  /** The deadline of timer `id`, if it is in the list. */
  function Deadline(list: seq<Entry>, id: nat): Option<nat> {
    if list == [] then None else if list[0].id == id then Some(list[0].deadline) else Deadline(list[1..], id)
  }

  predicate InWindow(e: Entry, low: int, now: nat) {
    low <= e.deadline < now + HALF
  }

  /** All deadlines lie between `low` and half a tick range ahead, and the list is in order. */
  predicate Ordered(s: State, low: int) {
    && Sorted(s.list) && Unique(s.list)
    && (forall e :: e in s.list ==> InWindow(e, low, s.now) && e.stamp < s.stamps)
  }

  predicate TimersOk(s: State) {
    && (forall id :: id in s.timers ==> s.timers[id].init < HALF && (s.timers[id].periodic ==> s.timers[id].init >= 1))
    && (forall e :: e in s.list ==> e.id in s.timers)
    && (forall id :: id in s.timers ==> (s.timers[id].active <==> Deadline(s.list, id).Some?))
  }

  predicate Inv(s: State) {
    Ordered(s, s.now) && TimersOk(s)
  }

  lemma {:induction false} DeadlineIn(list: seq<Entry>, e: Entry)
    requires Unique(list) && e in list
    ensures Deadline(list, e.id) == Some(e.deadline)
  {
    if list[0] != e { DeadlineIn(list[1..], e); }
  }

  lemma {:induction false} DeadlineInsert(list: seq<Entry>, e: Entry, id: nat)
    requires Deadline(list, e.id).None?
    ensures Deadline(Insert(list, e), id) == if id == e.id then Some(e.deadline) else Deadline(list, id)
  {
    if list == [] || list[0].deadline > e.deadline {
      assert ([e] + list)[1..] == list;
    } else {
      DeadlineInsert(list[1..], e, id);
      assert Insert(list, e)[1..] == Insert(list[1..], e);
    }
  }

  lemma {:induction false} NoneAbsent(list: seq<Entry>, id: nat)
    ensures Deadline(list, id).None? <==> forall e :: e in list ==> e.id != id
  {
    if list != [] {
      assert list == [list[0]] + list[1..];
      NoneAbsent(list[1..], id);
    }
  }

  lemma {:induction false} DeadlineRemove(list: seq<Entry>, id: nat, x: nat)
    requires Unique(list)
    ensures Deadline(Remove(list, id), x) == if x == id then None else Deadline(list, x)
  {
    if list != [] {
      if list[0].id == id {
        NoneAbsent(list[1..], id);
      } else {
        DeadlineRemove(list[1..], id, x);
        assert Remove(list, id)[1..] == Remove(list[1..], id);
      }
    }
  }

  lemma {:induction false} RemoveOrdered(list: seq<Entry>, id: nat)
    requires Sorted(list) && Unique(list)
    ensures Sorted(Remove(list, id)) && Unique(Remove(list, id))
  {
    if list != [] && list[0].id != id {
      var r := Remove(list[1..], id);
      RemoveOrdered(list[1..], id);
      assert ([list[0]] + r)[1..] == r;
      forall x | x in r
        ensures x in list[1..]
      {
        RemoveMembers(list[1..], id, x);
      }
    }
  }

  lemma {:induction false} InsertOrdered(list: seq<Entry>, e: Entry)
    requires Sorted(list) && Unique(list) && Deadline(list, e.id).None?
    requires forall x :: x in list ==> x.stamp < e.stamp
    ensures Sorted(Insert(list, e)) && Unique(Insert(list, e))
  {
    NoneAbsent(list, e.id);
    if list == [] || list[0].deadline > e.deadline {
      assert ([e] + list)[1..] == list;
      forall x | x in list
        ensures Before(e, x)
      {
        if x != list[0] { assert x in list[1..]; }
      }
    } else {
      InsertOrdered(list[1..], e);
      assert Insert(list, e)[1..] == Insert(list[1..], e);
      forall x | x in Insert(list[1..], e)
        ensures Before(list[0], x) && x.id != list[0].id
      {
        InsertMembers(list[1..], e, x);
      }
    }
  }

  /** Starting a timer keeps the list in order, and every other timer keeps its deadline. */
  lemma StartKeeps(s: State, id: nat, low: int)
    requires Ordered(s, low) && low <= s.now && id in s.timers && s.timers[id].init < HALF
    ensures Ordered(StartTimer(s, id), low)
    ensures forall x :: Deadline(StartTimer(s, id).list, x)
                     == if x == id then Some(s.now + s.timers[id].init) else Deadline(s.list, x)
  {
    var r := Remove(s.list, id);
    var e := Entry(id, s.now + s.timers[id].init, s.stamps);
    RemoveOrdered(s.list, id);
    DeadlineRemove(s.list, id, id);
    forall x | x in Insert(r, e)
      ensures x == e || (x in s.list && x in r)
    {
      InsertMembers(r, e, x);
      RemoveMembers(s.list, id, x);
    }
    forall x | x in r
      ensures x.stamp < e.stamp
    {
      RemoveMembers(s.list, id, x);
    }
    InsertOrdered(r, e);
    forall x
      ensures Deadline(Insert(r, e), x) == if x == id then Some(e.deadline) else Deadline(s.list, x)
    {
      DeadlineInsert(r, e, x);
      DeadlineRemove(s.list, id, x);
    }
  }

  lemma StartMembers(s: State, id: nat)
    requires id in s.timers && forall e :: e in s.list ==> e.id in s.timers
    ensures forall e :: e in StartTimer(s, id).list ==> e.id in s.timers
  {
    forall e | e in StartTimer(s, id).list
      ensures e.id in s.timers
    {
      InsertMembers(Remove(s.list, id), Entry(id, s.now + s.timers[id].init, s.stamps), e);
      RemoveMembers(s.list, id, e);
    }
  }

  lemma StartInv(s: State, id: nat)
    requires Inv(s) && id in s.timers
    ensures Inv(StartTimer(s, id))
  {
    StartKeeps(s, id, s.now);
    StartMembers(s, id);
  }

  /** Stopping a timer keeps the list in order, and every other timer keeps its deadline. */
  lemma StopKeeps(s: State, id: nat, low: int)
    requires Ordered(s, low) && TimersOk(s) && id in s.timers
    ensures Ordered(StopTimer(s, id).0, low) && TimersOk(StopTimer(s, id).0)
    ensures forall x :: x != id ==> Deadline(StopTimer(s, id).0.list, x) == Deadline(s.list, x)
  {
    RemoveOrdered(s.list, id);
    forall x
      ensures x in Remove(s.list, id) ==> x in s.list
    {
      RemoveMembers(s.list, id, x);
    }
    forall x
      ensures Deadline(Remove(s.list, id), x) == if x == id then None else Deadline(s.list, x)
    {
      DeadlineRemove(s.list, id, x);
    }
  }

  lemma StopInv(s: State, id: nat)
    requires Inv(s) && id in s.timers
    ensures Inv(StopTimer(s, id).0)
  {
    StopKeeps(s, id, s.now);
  }

  // ---------------------------------------------------------------- rt_timer_check

  /** Deadlines may have passed, but none lies before `low`. */
  predicate Since(s: State, low: int) {
    low <= s.now && Ordered(s, low) && TimersOk(s)
  }

  /** In the middle of a check the deadlines may lie one tick back. */
  predicate Checking(s: State) {
    Since(s, s.now - 1)
  }

  /** The head, its timer, and what the rest of the list says about the others. */
  lemma HeadDeadline(s: State, low: int)
    requires Since(s, low) && s.list != []
    ensures s.list[0].id in s.timers && s.timers[s.list[0].id].active
    ensures Ordered(s.(list := s.list[1..]), low)
    ensures Remove(s.list, s.list[0].id) == s.list[1..]
    ensures forall x :: Deadline(s.list[1..], x) == if x == s.list[0].id then None else Deadline(s.list, x)
  {
    assert s.list[0] in s.list;
    NoneAbsent(s.list[1..], s.list[0].id);
  }

  lemma FireHeadKeeps(s: State, low: int)
    requires Since(s, low) && s.list != []
    ensures Since(FireHead(s), low)
    ensures var (id, t) := (s.list[0].id, FireHead(s));
      && t.timers.Keys == s.timers.Keys && t.now == s.now
      && t.timers[id] == s.timers[id].(active := s.timers[id].periodic)
      && (forall x :: x in s.timers && x != id ==> t.timers[x] == s.timers[x])
      && (forall x :: Deadline(t.list, x) == if x != id then Deadline(s.list, x)
                        else if s.timers[id].periodic then Some(s.now + s.timers[id].init) else None)
  {
    HeadDeadline(s, low);
    var t := s.(list := s.list[1..]);
    if s.timers[s.list[0].id].periodic {
      StartKeeps(t, s.list[0].id, low);
      StartMembers(t, s.list[0].id);
    }
  }

  /** Whether timer `id` is due: in the list with a deadline that is not ahead. */
  predicate Due(s: State, id: nat) {
    Deadline(s.list, id).Some? && Deadline(s.list, id).value <= s.now
  }

  /** The head has the earliest deadline. */
  lemma {:induction false} HeadIsEarliest(list: seq<Entry>, id: nat)
    requires Sorted(list) && Deadline(list, id).Some?
    ensures list != [] && list[0].deadline <= Deadline(list, id).value
  {
    if list[0].id != id {
      HeadIsEarliest(list[1..], id);
      assert list[1] in list[1..];
    }
  }

  lemma {:induction false} CheckKeeps(s: State, low: int)
    requires Since(s, low)
    ensures var t := Check(s).0; Since(t, low) && !Expired(t) && t.now == s.now && t.timers.Keys == s.timers.Keys
    decreases CountExpired(s.list, s.now)
  {
    if Expired(s) {
      FireHeadSane(s);
      FireHeadKeeps(s, low);
      CheckKeeps(FireHead(s), low);
    }
  }

  /** What firing the head means for timer `id`. */
  lemma FireHeadFor(s: State, low: int, id: nat)
    requires Since(s, low) && s.list != []
    ensures Since(FireHead(s), low) && FireHead(s).now == s.now
    ensures var t := FireHead(s);
      && (id in s.timers <==> id in t.timers)
      && (id != s.list[0].id ==> Deadline(t.list, id) == Deadline(s.list, id)
                                 && (id in s.timers ==> t.timers[id] == s.timers[id]))
    ensures Deadline(s.list, s.list[0].id) == Some(s.list[0].deadline)
    ensures id == s.list[0].id ==>
      && id in s.timers
      && FireHead(s).timers[id] == s.timers[id].(active := s.timers[id].periodic)
      && Deadline(FireHead(s).list, id) == if s.timers[id].periodic then Some(s.now + s.timers[id].init) else None
  {
    FireHeadKeeps(s, low);
    HeadDeadline(s, low);
  }

  /** A timer after a check: one that was due and is not periodic has become inactive. */
  function Settled(t: Timer, due: bool): Timer {
    if due && !t.periodic then t.(active := false) else t
  }

  /** Its deadline after the check: one that was due is started again if it is periodic. */
  function NextDeadline(d: Option<nat>, t: Timer, due: bool, now: nat): Option<nat> {
    if !due then d else if t.periodic then Some(now + t.init) else None
  }

  /** What a check does to timer `id`: it fires once if it is due and not otherwise; if due it is started again when
      periodic and else becomes inactive; if not due it stays as it is. */
  lemma {:induction false} CheckIs(s: State, low: int, id: nat)
    requires Since(s, low) && id in s.timers
    ensures var (t, fired) := Check(s);
      && id in t.timers
      && multiset(fired)[id] == (if Due(s, id) then 1 else 0)
      && t.timers[id] == Settled(s.timers[id], Due(s, id))
      && Deadline(t.list, id) == NextDeadline(Deadline(s.list, id), s.timers[id], Due(s, id), s.now)
    decreases CountExpired(s.list, s.now)
  {
    if Expired(s) {
      FireHeadSane(s);
      FireHeadFor(s, low, id);
      CheckIs(FireHead(s), low, id);
      ActiveIfListed(s, id);
    } else if Deadline(s.list, id).Some? {
      HeadIsEarliest(s.list, id);
    }
  }

  lemma ActiveIfListed(s: State, id: nat)
    requires TimersOk(s) && id in s.timers
    ensures s.timers[id].active <==> Deadline(s.list, id).Some?
    ensures s.timers[id].periodic ==> s.timers[id].init >= 1
  {
  }

  /** The prefix of the list that has expired. */
  function ExpiredIds(list: seq<Entry>, now: nat): seq<nat> {
    if list == [] || list[0].deadline > now then [] else [list[0].id] + ExpiredIds(list[1..], now)
  }

  /** Timers fire in the order of the list: a restarted timer goes behind all the expired ones. */
  lemma {:induction false} CheckFiresInOrder(s: State, low: int)
    requires Since(s, low)
    ensures Check(s).1 == ExpiredIds(s.list, s.now)
    decreases CountExpired(s.list, s.now)
  {
    if Expired(s) {
      FireHeadSane(s);
      FireHeadKeeps(s, low);
      RestartGoesBehind(s, low);
      CheckFiresInOrder(FireHead(s), low);
    }
  }

  lemma RestartGoesBehind(s: State, low: int)
    requires Since(s, low) && Expired(s)
    ensures s.list[0].id in s.timers
    ensures ExpiredIds(FireHead(s).list, s.now) == ExpiredIds(s.list[1..], s.now)
  {
    HeadDeadline(s, low);
    var (id, rest) := (s.list[0].id, s.list[1..]);
    if s.timers[id].periodic {
      RemoveAbsent(rest, id);
      InsertBehindExpired(rest, Entry(id, s.now + s.timers[id].init, s.stamps), s.now);
    }
  }

  lemma {:induction false} RemoveAbsent(list: seq<Entry>, id: nat)
    requires Deadline(list, id).None?
    ensures Remove(list, id) == list
  {
    if list != [] { RemoveAbsent(list[1..], id); }
  }

  lemma {:induction false} InsertBehindExpired(list: seq<Entry>, e: Entry, now: nat)
    requires e.deadline > now
    ensures ExpiredIds(Insert(list, e), now) == ExpiredIds(list, now)
  {
    if list != [] && list[0].deadline <= e.deadline {
      InsertBehindExpired(list[1..], e, now);
      assert Insert(list, e)[1..] == Insert(list[1..], e);
    }
  }

  // ---------------------------------------------------------------- runs

  /** The client rules: timers exist, times are below half the tick range (RT_ASSERT in rt_timer_start), and a periodic
      timer has a period of at least one tick. What Tick asks for holds in every state with Inv. */
  predicate Legal(s: State, op: Op) {
    match op
    case Start(id) => id in s.timers
    case Stop(id) => id in s.timers
    case SetTime(id, n) => id in s.timers && n < HALF && (s.timers[id].periodic ==> n >= 1)
    case SetPeriodic(id, on) => id in s.timers && (on ==> s.timers[id].init >= 1)
    case Tick => Sane(s)
  }

  function Step(s: State, op: Op): State
    requires Legal(s, op)
  {
    match op
    case Start(id) => StartTimer(s, id)
    case Stop(id) => StopTimer(s, id).0
    case SetTime(id, n) => s.(timers := s.timers[id := s.timers[id].(init := n)])
    case SetPeriodic(id, on) => s.(timers := s.timers[id := s.timers[id].(periodic := on)])
    case Tick => TickStep(s).0
  }

  /** A tick: what CheckIs says, and afterwards every deadline is ahead. */
  lemma TickIs(s: State)
    requires Inv(s)
    ensures Sane(s) && Inv(TickStep(s).0) && TickStep(s).0.now == s.now + 1
    ensures forall e :: e in TickStep(s).0.list ==> e.deadline > s.now + 1
  {
    TickSince(s, s.now);
  }

  /** So it is when deadlines have passed already: the tick makes up for them all. */
  lemma TickSince(s: State, low: int)
    requires Since(s, low)
    ensures Sane(s) && Inv(TickStep(s).0) && TickStep(s).0.now == s.now + 1
    ensures forall e :: e in TickStep(s).0.list ==> e.deadline > s.now + 1
  {
    var u := s.(now := s.now + 1);
    CheckKeeps(u, low);
    var t := Check(u).0;
    forall e | e in t.list
      ensures e.deadline > t.now
    {
      DeadlineIn(t.list, e);
      HeadIsEarliest(t.list, e.id);
    }
  }

  lemma StepInv(s: State, op: Op)
    requires Inv(s) && Legal(s, op)
    ensures Inv(Step(s, op))
  {
    match op
    case Start(id) => StartInv(s, id);
    case Stop(id) => StopInv(s, id);
    case SetTime(_, _) =>
    case SetPeriodic(_, _) =>
    case Tick => TickIs(s);
  }

  /** Step, for runs: what is not legal does nothing. */
  function Run(s: State, op: Op): State {
    if Legal(s, op) then Step(s, op) else s
  }

  /** Every timer created, none started. */
  predicate Fresh(s: State) {
    s.list == [] && forall id :: id in s.timers ==>
      !s.timers[id].active && s.timers[id].init < HALF && (s.timers[id].periodic ==> s.timers[id].init >= 1)
  }

  /** In every run the list is in order of the true deadlines, ties in start order. */
  lemma RunInv(s: State, ops: seq<Op>, t: State)
    requires Fresh(s)
    requires Reaches(Legal, Run, s, ops, t)
    ensures Inv(t)
  {
    forall s: State, op: Op | Inv(s) && Legal(s, op)
      ensures Inv(Run(s, op))
    {
      StepInv(s, op);
    }
    RunKeeps(Inv, Legal, Run, s, ops, t);
  }

  // ---------------------------------------------------------------- when a timer fires

  /** The tick, repeated as often as timer `id` fires in it. */
  function Times(tick: nat, n: nat): seq<nat> {
    if n == 0 then [] else [tick] + Times(tick, n - 1)
  }

  /** The ticks at which timer `id` fires in the course of `ops`. */
  function Fires(s: State, ops: seq<Op>, id: nat): seq<nat>
    decreases |ops|
  {
    if ops == [] || !Legal(s, ops[0]) then []
    else (if ops[0].Tick? then Times(s.now + 1, multiset(TickStep(s).1)[id]) else [])
         + Fires(Step(s, ops[0]), ops[1..], id)
  }

  /** All of `ops` are legal and none but Tick is about timer `id`. */
  predicate Leaves(s: State, ops: seq<Op>, id: nat)
    decreases |ops|
  {
    ops != [] ==> Legal(s, ops[0]) && (ops[0].Tick? || ops[0].id != id) && Leaves(Step(s, ops[0]), ops[1..], id)
  }

  function Ticks(ops: seq<Op>): nat {
    if ops == [] then 0 else (if ops[0].Tick? then 1 else 0) + Ticks(ops[1..])
  }

  /** `next`, `next` + `period`, and so on, up to `end`. */
  function Schedule(next: nat, period: nat, end: nat): seq<nat>
    requires period >= 1
    decreases end + 1 - next
  {
    if next > end then [] else [next] + Schedule(next + period, period, end)
  }

  lemma {:induction false} ScheduleAt(next: nat, period: nat, end: nat, k: nat)
    requires period >= 1
    ensures k < |Schedule(next, period, end)| <==> next + k * period <= end
    ensures k < |Schedule(next, period, end)| ==> Schedule(next, period, end)[k] == next + k * period
    decreases k
  {
    if k > 0 && next <= end {
      ScheduleAt(next + period, period, end, k - 1);
      assert (k - 1) * period == k * period - period;
    } else if k > 0 {
      assert k * period >= 0;
    }
  }

  /** Timer `id` is running periodically with the given period and next deadline. */
  predicate Running(s: State, id: nat, next: nat, period: nat) {
    id in s.timers && s.timers[id] == Timer(period, true, true) && Deadline(s.list, id) == Some(next)
  }

  function Later(a: nat, b: nat): nat { if a < b then b else a }

  /** A step that is not about timer `id` leaves its settings and its deadline. */
  lemma OthersKept(s: State, op: Op, id: nat)
    requires Inv(s) && Legal(s, op) && !op.Tick? && op.id != id && id in s.timers
    ensures var t := Step(s, op);
      t.now == s.now && id in t.timers && t.timers[id] == s.timers[id] && Deadline(t.list, id) == Deadline(s.list, id)
  {
    OthersSince(s, op, id, s.now);
  }

  lemma OthersSince(s: State, op: Op, id: nat, low: int)
    requires Since(s, low) && Legal(s, op) && !op.Tick? && op.id != id && id in s.timers
    ensures Since(Step(s, op), low)
    ensures var t := Step(s, op);
      t.now == s.now && id in t.timers && t.timers[id] == s.timers[id] && Deadline(t.list, id) == Deadline(s.list, id)
  {
    match op
    case Start(x) => StartKeeps(s, x, low); StartMembers(s, x);
    case Stop(x) => StopKeeps(s, x, low);
    case SetTime(_, _) =>
    case SetPeriodic(_, _) =>
  }

  /** What a tick means for timer `id`. */
  lemma {:induction false} TickFor(s: State, id: nat, low: int)
    requires Since(s, low) && id in s.timers
    ensures Sane(s)
    ensures var (t, fired) := TickStep(s);
      var due := Due(s.(now := s.now + 1), id);
      && t.now == s.now + 1 && id in t.timers
      && multiset(fired)[id] == (if due then 1 else 0)
      && t.timers[id] == Settled(s.timers[id], due)
      && Deadline(t.list, id) == NextDeadline(Deadline(s.list, id), s.timers[id], due, s.now + 1)
  {
    CheckKeeps(s.(now := s.now + 1), low);
    CheckIs(s.(now := s.now + 1), low, id);
  }

  /** What a tick means for a running periodic timer. */
  lemma RunningTick(s: State, id: nat, next: nat, period: nat, low: int)
    requires Since(s, low) && Running(s, id, next, period) && period >= 1
    ensures Sane(s)
    ensures var (t, fired) := TickStep(s);
      && Inv(t) && t.now == s.now + 1
      && if next <= s.now + 1 then multiset(fired)[id] == 1 && Running(t, id, s.now + 1 + period, period)
         else multiset(fired)[id] == 0 && Running(t, id, next, period)
  {
    TickFor(s, id, low);
    TickSince(s, low);
  }

  /** The firings of a run that starts with a tick. */
  lemma {:induction false} FiresTick(s: State, ops: seq<Op>, id: nat)
    requires ops != [] && ops[0] == Tick && Sane(s)
    ensures Fires(s, ops, id) == Times(s.now + 1, multiset(TickStep(s).1)[id]) + Fires(TickStep(s).0, ops[1..], id)
    ensures Ticks(ops) == Ticks(ops[1..]) + 1
  {
  }

  lemma {:induction false} FiresOther(s: State, ops: seq<Op>, id: nat)
    requires ops != [] && ops[0] != Tick && Legal(s, ops[0])
    ensures Fires(s, ops, id) == Fires(Step(s, ops[0]), ops[1..], id) && Ticks(ops) == Ticks(ops[1..])
  {
  }

  /** What the firings `f` from tick `now` on are once those after one more tick, `g`, are known. */
  lemma {:induction false} NextFirings(now: nat, next: nat, period: nat, end: nat, f: seq<nat>, g: seq<nat>)
    requires period >= 1 && now < end && f == Times(now + 1, if next <= now + 1 then 1 else 0) + g
    requires g == Schedule(Later(if next <= now + 1 then now + 1 + period else next, now + 2), period, end)
    ensures f == Schedule(Later(next, now + 1), period, end)
  {
    assert Times(now + 1, 1) == [now + 1];
  }

  /** A periodic timer fires exactly when its period has passed, once each time, whatever is done with other timers; one
      whose deadline has passed already fires at the next tick. */
  lemma {:induction false} RunningFires(s: State, ops: seq<Op>, id: nat, next: nat, period: nat, low: int)
    requires Since(s, low) && Running(s, id, next, period) && period >= 1 && Leaves(s, ops, id)
    ensures Fires(s, ops, id) == Schedule(Later(next, s.now + 1), period, s.now + Ticks(ops))
    decreases |ops|
  {
    var f := Schedule(Later(next, s.now + 1), period, s.now + Ticks(ops));
    if ops == [] {
      assert f == [];
    } else if ops[0] == Tick {
      var t, g := TickRun(s, ops, id, next, period, low);
      RunningFires(t, ops[1..], id, if next <= s.now + 1 then s.now + 1 + period else next, period, t.now);
      NextFirings(s.now, next, period, s.now + Ticks(ops), Fires(s, ops, id), g);
      assert Fires(s, ops, id) == f;
    } else {
      var t := OtherRun(s, ops, id, next, period, low);
      RunningFires(t, ops[1..], id, next, period, low);
      assert Fires(t, ops[1..], id) == f;
      assert Fires(s, ops, id) == f;
    }
  }

  /** The state after a first step that is not a tick. */
  lemma {:induction false} OtherRun(s: State, ops: seq<Op>, id: nat, next: nat, period: nat, low: int) returns (t: State)
    requires Since(s, low) && Running(s, id, next, period) && Leaves(s, ops, id) && ops != [] && ops[0] != Tick
    ensures Since(t, low) && t.now == s.now && Leaves(t, ops[1..], id) && Running(t, id, next, period)
    ensures Fires(s, ops, id) == Fires(t, ops[1..], id) && Ticks(ops) == Ticks(ops[1..])
  {
    OthersSince(s, ops[0], id, low);
    FiresOther(s, ops, id);
    t := Step(s, ops[0]);
  }

  /** The state after the first tick of a run, and the firings that follow it. */
  lemma {:induction false} TickRun(s: State, ops: seq<Op>, id: nat, next: nat, period: nat, low: int)
    returns (t: State, g: seq<nat>)
    requires Since(s, low) && Running(s, id, next, period) && period >= 1 && Leaves(s, ops, id)
    requires ops != [] && ops[0] == Tick
    ensures Since(t, t.now) && t.now == s.now + 1 && Leaves(t, ops[1..], id) && g == Fires(t, ops[1..], id)
    ensures Running(t, id, if next <= s.now + 1 then s.now + 1 + period else next, period)
    ensures Fires(s, ops, id) == Times(s.now + 1, if next <= s.now + 1 then 1 else 0) + g
    ensures Ticks(ops) == Ticks(ops[1..]) + 1
  {
    RunningTick(s, id, next, period, low);
    FiresTick(s, ops, id);
    t := TickStep(s).0;
    g := Fires(t, ops[1..], id);
  }

  /** A periodic timer with period p started at tick s fires exactly at s + p, s + 2p, and so on. */
  lemma PeriodicFires(s: State, id: nat, t: State, ops: seq<Op>)
    requires Inv(s) && id in s.timers && s.timers[id].periodic
    requires t == StartTimer(s, id) && Leaves(t, ops, id)
    ensures var p := s.timers[id].init;
      Fires(t, ops, id) == Schedule(s.now + p, p, s.now + Ticks(ops))
  {
    Started(s, id);
    RunningFires(t, ops, id, s.now + s.timers[id].init, s.timers[id].init, s.now);
  }

  lemma Started(s: State, id: nat)
    requires Inv(s) && id in s.timers
    ensures var t := StartTimer(s, id);
      && Inv(t) && t.now == s.now && id in t.timers && t.timers[id] == s.timers[id].(active := true)
      && Deadline(t.list, id) == Some(s.now + s.timers[id].init) && s.timers[id].init < HALF
      && (s.timers[id].periodic ==> s.timers[id].init >= 1)
  {
    StartInv(s, id);
    StartKeeps(s, id, s.now);
  }

  lemma StoppedTick(s: State, id: nat)
    requires Inv(s) && id in s.timers && !s.timers[id].active
    ensures var (t, fired) := TickStep(s);
      multiset(fired)[id] == 0 && id in t.timers && t.timers[id] == s.timers[id]
  {
    ActiveIfListed(s, id);
    TickFor(s, id, s.now);
  }

  lemma OneShotTick(s: State, id: nat)
    requires Inv(s) && id in s.timers && !s.timers[id].periodic && Deadline(s.list, id).Some?
    ensures var (t, fired) := TickStep(s);
      && id in t.timers && !t.timers[id].periodic && t.now == s.now + 1
      && if Deadline(s.list, id).value <= s.now + 1 then multiset(fired)[id] == 1 && !t.timers[id].active
         else multiset(fired)[id] == 0 && Deadline(t.list, id) == Deadline(s.list, id)
  {
    TickFor(s, id, s.now);
  }

  lemma {:induction false} SilentWhileStopped(s: State, ops: seq<Op>, id: nat)
    requires Inv(s) && id in s.timers && !s.timers[id].active && Leaves(s, ops, id)
    ensures Fires(s, ops, id) == []
    decreases |ops|
  {
    if ops != [] {
      StepInv(s, ops[0]);
      if ops[0].Tick? {
        StoppedTick(s, id);
      } else {
        OthersKept(s, ops[0], id);
      }
      SilentWhileStopped(Step(s, ops[0]), ops[1..], id);
    }
  }

  lemma {:induction false} OneShotPending(s: State, ops: seq<Op>, id: nat, at: nat)
    requires Inv(s) && id in s.timers && !s.timers[id].periodic && Leaves(s, ops, id)
    requires Deadline(s.list, id).Some? && s.now <= Deadline(s.list, id).value
    requires at == if Deadline(s.list, id).value == s.now then s.now + 1 else Deadline(s.list, id).value
    ensures Fires(s, ops, id) == if at <= s.now + Ticks(ops) then [at] else []
    decreases |ops|
  {
    if ops != [] {
      var t := Step(s, ops[0]);
      StepInv(s, ops[0]);
      if ops[0].Tick? {
        OneShotTick(s, id);
        assert Times(s.now + 1, 1) == [s.now + 1];
        if at == s.now + 1 {
          SilentWhileStopped(t, ops[1..], id);
        } else {
          OneShotPending(t, ops[1..], id, at);
        }
      } else {
        OthersKept(s, ops[0], id);
        OneShotPending(t, ops[1..], id, at);
      }
    }
  }

  /** A one-shot timer started at tick s with n ticks fires once, at s + n; with 0 ticks it waits for the next tick. */
  lemma OneShotFires(s: State, id: nat, t: State, ops: seq<Op>)
    requires Inv(s) && id in s.timers && !s.timers[id].periodic
    requires t == StartTimer(s, id) && Leaves(t, ops, id)
    ensures var at := s.now + if s.timers[id].init == 0 then 1 else s.timers[id].init;
      Fires(t, ops, id) == if at <= s.now + Ticks(ops) then [at] else []
  {
    Started(s, id);
    OneShotPending(t, ops, id, s.now + if s.timers[id].init == 0 then 1 else s.timers[id].init);
  }

  // ---------------------------------------------------------------- a start that is interrupted

  /** The first section of rt_timer_start: the timer leaves the list and is inactive. */
  function TakeOffTimer(s: State, id: nat): State
    requires id in s.timers
  {
    s.(timers := s.timers[id := s.timers[id].(active := false)], list := Remove(s.list, id))
  }

  /** The second section, for the time-out computed, with interrupts enabled, before it. */
  function InsertTimer(s: State, id: nat, deadline: nat): State
    requires id in s.timers
  {
    s.(timers := s.timers[id := s.timers[id].(active := true)],
       list := Insert(s.list, Entry(id, deadline, s.stamps)), stamps := s.stamps + 1)
  }

  /** With nothing in between this is a start. */
  lemma StartInSections(s: State, id: nat)
    requires id in s.timers
    ensures InsertTimer(TakeOffTimer(s, id), id, s.now + s.timers[id].init) == StartTimer(s, id)
  {
    assert s.timers[id := s.timers[id].(active := false)][id := s.timers[id].(active := true)]
        == s.timers[id := s.timers[id].(active := true)];
  }

  lemma TakeOffKeeps(s: State, id: nat)
    requires Inv(s) && id in s.timers
    ensures var t := TakeOffTimer(s, id);
      Inv(t) && id in t.timers && t.timers[id] == s.timers[id].(active := false) && Deadline(t.list, id).None?
  {
    DeadlineRemove(s.list, id, id);
    if s.timers[id].active {
      StopInv(s, id);
    } else {
      RemoveAbsent(s.list, id);
      assert s.timers[id := s.timers[id].(active := false)] == s.timers;
    }
  }

  /** A timer off the list stays as it is through the steps of others. */
  lemma {:induction false} StaysOff(s: State, ops: seq<Op>, id: nat, t: State)
    requires Inv(s) && id in s.timers && !s.timers[id].active && Leaves(s, ops, id)
    requires Reaches(Legal, Run, s, ops, t)
    ensures Inv(t) && id in t.timers && t.timers[id] == s.timers[id] && t.now == s.now + Ticks(ops)
    decreases |ops|
  {
    if ops != [] {
      StepInv(s, ops[0]);
      if ops[0].Tick? {
        StoppedTick(s, id);
        TickIs(s);
      } else {
        OthersKept(s, ops[0], id);
      }
      StaysOff(Step(s, ops[0]), ops[1..], id, t);
    }
  }

  /** Inserting a timer whose time may be over. */
  lemma InsertKeeps(s: State, id: nat, deadline: nat)
    requires Inv(s) && id in s.timers && !s.timers[id].active && deadline < s.now + HALF
    ensures var t := InsertTimer(s, id, deadline);
      && Since(t, Earlier(deadline, s.now)) && Deadline(t.list, id) == Some(deadline)
      && (deadline >= s.now ==> Inv(t))
  {
    var e := Entry(id, deadline, s.stamps);
    ActiveIfListed(s, id);
    InsertOrdered(s.list, e);
    forall x
      ensures Deadline(Insert(s.list, e), x) == if x == id then Some(deadline) else Deadline(s.list, x)
    {
      DeadlineInsert(s.list, e, x);
    }
    forall x
      ensures x in Insert(s.list, e) <==> x == e || x in s.list
    {
      InsertMembers(s.list, e, x);
    }
  }

  function Earlier(a: nat, b: nat): nat { if a < b then a else b }

  /** The start of periodic timer `id` reads tick s.now, others do `between`, and the insertion leads to `v`. */
  ghost predicate Interrupted(s: State, id: nat, between: seq<Op>, u: State, v: State) {
    && Inv(s) && id in s.timers && s.timers[id].periodic
    && Leaves(TakeOffTimer(s, id), between, id) && Reaches(Legal, Run, TakeOffTimer(s, id), between, u)
    && id in u.timers && v == InsertTimer(u, id, s.now + s.timers[id].init)
  }

  lemma {:induction false} InterruptedIs(s: State, id: nat, between: seq<Op>, u: State, v: State)
    requires Interrupted(s, id, between, u, v)
    ensures var (p, d) := (s.timers[id].init, s.now + s.timers[id].init);
      && p >= 1 && u.now == s.now + Ticks(between) && v.now == u.now
      && id in v.timers && v.timers[id] == Timer(p, true, true) && Deadline(v.list, id) == Some(d)
      && Since(v, Earlier(d, u.now)) && (d >= u.now ==> Inv(v))
  {
    var t := s.timers[id];
    assert t.init >= 1 && t.init < HALF;
    assert Inv(u) && u.timers[id] == t.(active := false) && u.now == s.now + Ticks(between) by {
      TakeOffKeeps(s, id);
      StaysOff(TakeOffTimer(s, id), between, id, u);
    }
    InsertKeeps(u, id, s.now + t.init);
  }

  /** A periodic timer with period p whose start reads tick s fires at s + p, s + 2p, and so on, if and only if fewer
      than p ticks pass before the start inserts it; otherwise it fires first at the next tick. */
  lemma {:induction false} StartExact(s: State, id: nat, between: seq<Op>, u: State, v: State, ops: seq<Op>)
    requires Interrupted(s, id, between, u, v) && Leaves(v, ops, id)
    ensures var p := s.timers[id].init;
      && p >= 1 && Fires(v, ops, id) == Schedule(Later(s.now + p, u.now + 1), p, u.now + Ticks(ops))
      && (Fires(v, ops, id) == Schedule(s.now + p, p, u.now + Ticks(ops)) <==> Ticks(between) < p)
  {
    var (p, end, f) := (s.timers[id].init, u.now + Ticks(ops), Fires(v, ops, id));
    assert p >= 1 && u.now == s.now + Ticks(between) by { InterruptedIs(s, id, between, u, v); }
    assert f == Schedule(Later(s.now + p, u.now + 1), p, end) by {
      InterruptedIs(s, id, between, u, v);
      RunningFires(v, ops, id, s.now + p, p, Earlier(s.now + p, u.now));
    }
    assert f == Schedule(s.now + p, p, end) <==> Ticks(between) < p by { OnTime(s.now, p, Ticks(between), end); }
  }

  lemma {:induction false} OnTime(now: nat, period: nat, n: nat, end: nat)
    requires period >= 1 && now + n <= end
    ensures Schedule(Later(now + period, now + n + 1), period, end) == Schedule(now + period, period, end) <==> n < period
  {
    if n >= period { assert Schedule(now + period, period, end)[0] == now + period; }
  }
}
