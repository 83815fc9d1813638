/** The hard timer list of timer.c with its 32-bit tick counter. Every method is proved to do what TimerSpec does on
    the clock that never wraps around. */
module Timer {
  import opened Words
  import opened TimerSpec

  /** struct rt_timer: the two ticks and the PERIODIC and ACTIVATED flags. */
  datatype TimerObject = TimerObject(initTick: word, timeoutTick: word, periodic: bool, activated: bool)

  predicate Same(t: TimerObject, ideal: TimerSpec.Timer) {
    t.initTick == ideal.init && t.periodic == ideal.periodic && t.activated == ideal.active
  }

  predicate SameTimers(timers: map<nat, TimerObject>, ideal: map<nat, TimerSpec.Timer>) {
    timers.Keys == ideal.Keys && forall id :: id in ideal ==> Same(timers[id], ideal[id])
  }

  /** Every timer in the list holds its deadline, truncated to 32 bits. */
  predicate Timeouts(timers: map<nat, TimerObject>, list: seq<Entry>) {
    forall e :: e in list ==> e.id in timers && timers[e.id].timeoutTick == Wrap(e.deadline)
  }

  /** Arming a timer that is not in the list keeps the deadlines of all others and sets its own. */
  lemma ArmedTimeouts(timers: map<nat, TimerObject>, list: seq<Entry>, e: Entry, t: TimerObject)
    requires Timeouts(timers, list) && Deadline(list, e.id).None? && t.timeoutTick == Wrap(e.deadline)
    ensures Timeouts(timers[e.id := t], Insert(list, e))
  {
    NoneAbsent(list, e.id);
    forall x | x in Insert(list, e)
      ensures x == e || x in list
    {
      InsertMembers(list, e, x);
    }
  }

  lemma UpdateTwice<K, V>(m: map<K, V>, k: K, v: V, w: V)
    ensures m[k := v][k := w] == m[k := w]
  {
  }

  function Ids(list: seq<Entry>): (ids: seq<nat>)
    ensures |ids| == |list|
  {
    seq(|list|, i requires 0 <= i < |list| => list[i].id)
  }

  function RemoveId(ids: seq<nat>, id: nat): seq<nat> {
    if ids == [] then [] else if ids[0] == id then ids[1..] else [ids[0]] + RemoveId(ids[1..], id)
  }

  lemma {:induction false} RemoveIds(list: seq<Entry>, id: nat)
    ensures RemoveId(Ids(list), id) == Ids(Remove(list, id))
  {
    if list != [] {
      assert Ids(list)[1..] == Ids(list[1..]);
      if list[0].id != id {
        RemoveIds(list[1..], id);
        assert Ids([list[0]] + Remove(list[1..], id)) == [list[0].id] + Ids(Remove(list[1..], id));
      }
    }
  }

  /** Where the search loop of rt_timer_start stops is where the new entry belongs. */
  lemma {:induction false} InsertAt(list: seq<Entry>, e: Entry, i: nat)
    requires i <= |list| && (forall k :: 0 <= k < i ==> list[k].deadline <= e.deadline)
    requires i == |list| || list[i].deadline > e.deadline
    ensures Insert(list, e) == list[..i] + [e] + list[i..]
    ensures Ids(Insert(list, e)) == Ids(list)[..i] + [e.id] + Ids(list)[i..]
    decreases i
  {
    if i == 0 {
      assert list[..0] + [e] + list[0..] == [e] + list;
    } else {
      InsertAt(list[1..], e, i - 1);
      assert list[..i] == [list[0]] + list[1..][..i - 1];
      assert list[i..] == list[1..][i - 1..];
    }
    assert Ids(list[..i] + [e] + list[i..]) == Ids(list)[..i] + [e.id] + Ids(list)[i..];
  }

  /** The difference of two wrapped ticks that are less than half the range apart tells which is later. */
  lemma CompareTicks(a: nat, b: nat)
    requires -HALF <= a - b < HALF
    ensures var d := Wrap(Wrap(a) - Wrap(b)); (d == 0 <==> a == b) && (d < HALF <==> a >= b)
  {
    assert Wrap(Wrap(a) - Wrap(b)) == Wrap(a - b);
  }

  /** The test of rt_timer_check on the head of the list. */
  lemma ExpiryTest(s: State)
    requires Checking(s) && s.list != []
    ensures s.list[0].id in s.timers
    ensures Wrap(Wrap(s.now) - Wrap(s.list[0].deadline)) < HALF <==> Expired(s)
  {
    assert s.list[0] in s.list;
    CompareTicks(s.now, s.list[0].deadline);
  }

  /** A check that began in `s` has fired `fired` and has yet to do what a check does in `t`. */
  predicate Progress(s: State, fired: seq<nat>, t: State)
    requires Sane(s)
  {
    Sane(t) && Check(s).0 == Check(t).0 && Check(s).1 == fired + Check(t).1
  }

  lemma ProgressStarts(s: State)
    requires Sane(s)
    ensures Progress(s, [], s)
  {
    assert [] + Check(s).1 == Check(s).1;
  }

  lemma ProgressStep(s: State, fired: seq<nat>, t: State)
    requires Sane(s) && Progress(s, fired, t) && Expired(t) && Checking(t)
    ensures t.list[0].id in t.timers && Checking(FireHead(t)) && FireHead(t).now == t.now
    ensures Progress(s, fired + [t.list[0].id], FireHead(t))
    ensures CountExpired(FireHead(t).list, t.now) < CountExpired(t.list, t.now)
  {
    FireHeadSane(t);
    FireHeadKeeps(t, t.now - 1);
    assert fired + ([t.list[0].id] + Check(FireHead(t)).1) == (fired + [t.list[0].id]) + Check(FireHead(t)).1;
  }

  lemma ProgressEnds(s: State, fired: seq<nat>, t: State)
    requires Sane(s) && Progress(s, fired, t) && !Expired(t)
    ensures Check(s) == (t, fired)
  {
    assert fired + [] == fired;
  }

  class TimerList {
    var tick: word                      // rt_tick
    var rows: seq<nat>                  // rt_timer_list
    var timers: map<nat, TimerObject>
    ghost var st: State                 // the same on the ideal clock

    ghost predicate Holds(s: State)
      reads this
    {
      tick == Wrap(s.now) && rows == Ids(s.list) && SameTimers(timers, s.timers) && Timeouts(timers, s.list)
    }

    ghost predicate Valid()
      reads this
    {
      Inv(st) && Holds(st)
    }

    /** No timers, at tick 0. */
    constructor ()
      ensures Valid() && st == State(0, map[], [], 0)
    {
      tick, rows, timers := 0, [], map[];
      st := State(0, map[], [], 0);
    }

    /** rt_timer_init of a new timer. */
    method Init(id: nat, time: word, isPeriodic: bool)
      requires Valid() && id !in st.timers && time < HALF && (isPeriodic ==> time >= 1)
      modifies this
      ensures Valid() && st == old(st).(timers := old(st).timers[id := TimerSpec.Timer(time, isPeriodic, false)])
    {
      NoneAbsent(st.list, id);
      timers := timers[id := TimerObject(time, 0, isPeriodic, false)];
      st := st.(timers := st.timers[id := TimerSpec.Timer(time, isPeriodic, false)]);
    }

    /** The search loop of rt_timer_start and the insertion. */
    method InsertRow(id: nat, ghost s: State)
      requires Ordered(s, s.now - 1) && Holds(s) && id in timers && id in s.timers
      requires s.timers[id].init < HALF && Deadline(s.list, id).None?
      requires timers[id].timeoutTick == Wrap(s.now + s.timers[id].init)
      modifies this`rows
      ensures rows == Ids(Insert(s.list, Entry(id, s.now + s.timers[id].init, s.stamps)))
    {
      ghost var e := Entry(id, s.now + s.timers[id].init, s.stamps);
      var i := 0;
      while i < |rows|
        invariant 0 <= i <= |rows| && rows == Ids(s.list)
        invariant forall k :: 0 <= k < i ==> s.list[k].deadline <= e.deadline
      {
        var t := rows[i];
        assert s.list[i] in s.list;
        CompareTicks(s.list[i].deadline, e.deadline);
        var ahead := Wrap(timers[t].timeoutTick - timers[id].timeoutTick);
        if ahead != 0 && ahead < RT_TICK_MAX / 2 {
          break;
        }
        i := i + 1;
      }
      InsertAt(s.list, e, i);
      rows := rows[..i] + [id] + rows[i..];
    }

    /** Takes timer `id` off the list, if it is there, and clears its ACTIVATED flag. */
    method Deactivate(id: nat)
      requires Ordered(st, st.now - 1) && Holds(st) && id in st.timers
      modifies this
      ensures Holds(st) && Ordered(st, st.now - 1) && Deadline(st.list, id).None?
      ensures st == old(st).(list := Remove(old(st).list, id),
                             timers := old(st).timers[id := old(st).timers[id].(active := false)])
    {
      RemoveIds(st.list, id);
      RemoveKeepsRest(st, id);
      rows := RemoveId(rows, id);
      timers := timers[id := timers[id].(activated := false)];
      st := st.(list := Remove(st.list, id), timers := st.timers[id := st.timers[id].(active := false)]);
    }

    /** Sets the timeout of a timer that is not on the list, puts it there and sets its ACTIVATED flag. */
    method Arm(id: nat)
      requires Ordered(st, st.now - 1) && Holds(st) && id in st.timers
      requires st.timers[id].init < HALF && Deadline(st.list, id).None?
      modifies this
      ensures Holds(st)
      ensures st == old(st).(list := Insert(old(st).list, Entry(id, old(st).now + old(st).timers[id].init, old(st).stamps)),
                             timers := old(st).timers[id := old(st).timers[id].(active := true)],
                             stamps := old(st).stamps + 1)
    {
      ghost var e := Entry(id, st.now + st.timers[id].init, st.stamps);
      timers := timers[id := timers[id].(timeoutTick := Wrap(tick + timers[id].initTick))];
      assert Holds(st) by { NoneAbsent(st.list, id); }
      InsertRow(id, st);
      ArmedTimeouts(timers, st.list, e, timers[id].(activated := true));
      timers := timers[id := timers[id].(activated := true)];
      st := st.(list := Insert(st.list, e), timers := st.timers[id := st.timers[id].(active := true)],
                stamps := st.stamps + 1);
    }

    /** rt_timer_start, also from within rt_timer_check. */
    method StartRow(id: nat)
      requires Ordered(st, st.now - 1) && Holds(st) && id in st.timers && st.timers[id].init < HALF
      modifies this
      ensures Holds(st) && st == StartTimer(old(st), id)
    {
      ghost var t := st.timers[id];
      UpdateTwice(st.timers, id, t.(active := false), t.(active := true));
      Deactivate(id);
      Arm(id);
    }

    lemma RemoveKeepsRest(s: State, id: nat)
      requires Ordered(s, s.now - 1)
      ensures Ordered(s.(list := Remove(s.list, id)), s.now - 1)
      ensures Deadline(Remove(s.list, id), id).None?
      ensures forall e :: e in Remove(s.list, id) ==> e in s.list && e.id != id
    {
      RemoveOrdered(s.list, id);
      DeadlineRemove(s.list, id, id);
      NoneAbsent(Remove(s.list, id), id);
      forall e | e in Remove(s.list, id)
        ensures e in s.list
      {
        RemoveMembers(s.list, id, e);
      }
    }

    /** rt_timer_start */
    method Start(id: nat)
      requires Valid() && Legal(st, TimerSpec.Start(id))
      modifies this
      ensures Valid() && st == Step(old(st), TimerSpec.Start(id))
    {
      StartInv(st, id);
      StartRow(id);
    }

    /** rt_timer_stop; false stands for -RT_ERROR. */
    method Stop(id: nat) returns (ok: bool)
      requires Valid() && Legal(st, TimerSpec.Stop(id))
      modifies this
      ensures Valid() && (st, ok) == StopTimer(old(st), id)
    {
      if !timers[id].activated {
        return false;
      }
      StopInv(st, id);
      Deactivate(id);
      return true;
    }

    /** rt_timer_control with RT_TIMER_CTRL_SET_TIME */
    method SetTime(id: nat, ticks: word)
      requires Valid() && Legal(st, TimerSpec.SetTime(id, ticks))
      modifies this
      ensures Valid() && st == Step(old(st), TimerSpec.SetTime(id, ticks))
    {
      StepInv(st, TimerSpec.SetTime(id, ticks));
      timers := timers[id := timers[id].(initTick := ticks)];
      st := Step(st, TimerSpec.SetTime(id, ticks));
    }

    /** rt_timer_control with RT_TIMER_CTRL_SET_PERIODIC or RT_TIMER_CTRL_SET_ONESHOT */
    method SetPeriodic(id: nat, on: bool)
      requires Valid() && Legal(st, TimerSpec.SetPeriodic(id, on))
      modifies this
      ensures Valid() && st == Step(old(st), TimerSpec.SetPeriodic(id, on))
    {
      StepInv(st, TimerSpec.SetPeriodic(id, on));
      timers := timers[id := timers[id].(periodic := on)];
      st := Step(st, TimerSpec.SetPeriodic(id, on));
    }

    /** Timer `t`, the head, leaves the list and is no longer active. */
    method UnlinkHead(t: nat)
      requires Ordered(st, st.now - 1) && Holds(st) && rows != [] && rows[0] == t && t in st.timers
      modifies this
      ensures Holds(st) && Ordered(st, st.now - 1)
      ensures st == old(st).(list := old(st).list[1..], timers := old(st).timers[t := old(st).timers[t].(active := false)])
    {
      assert Ids(st.list[1..]) == Ids(st.list)[1..];
      NoneAbsent(st.list[1..], t);
      rows := rows[1..];
      timers := timers[t := timers[t].(activated := false)];
      st := st.(list := st.list[1..], timers := st.timers[t := st.timers[t].(active := false)]);
    }

    /** One round of the loop in rt_timer_check: timer `t`, the head, leaves the list, its timeout function runs, and
        it is started again or becomes inactive. */
    method FireRow(t: nat)
      requires Checking(st) && Holds(st) && rows != [] && rows[0] == t
      modifies this
      ensures Holds(st) && t in old(st).timers && st == FireHead(old(st))
    {
      HeadDeadline(st, st.now - 1);
      var again := timers[t].periodic && timers[t].activated;
      assert Same(timers[t], st.timers[t]);
      UnlinkHead(t);
      if again {
        UpdateTwice(old(st).timers, t, old(st).timers[t].(active := false), old(st).timers[t].(active := true));
        StartRow(t);
      }
    }

    /** rt_timer_check: the timers whose timeout functions were called, in order. */
    method CheckList() returns (fired: seq<nat>)
      requires Checking(st) && Holds(st)
      modifies this
      ensures Checking(st) && Holds(st) && (st, fired) == Check(old(st))
    {
      fired := [];
      var currentTick := tick;
      ghost var s := st;
      ProgressStarts(s);
      while rows != []
        invariant Checking(st) && Holds(st) && currentTick == tick && Sane(s) && Progress(s, fired, st)
        decreases CountExpired(st.list, st.now)
      {
        var t := rows[0];
        ExpiryTest(st);
        assert st.list[0] in st.list;
        if Wrap(currentTick - timers[t].timeoutTick) < RT_TICK_MAX / 2 {
          ProgressStep(s, fired, st);
          FireRow(t);
          fired := fired + [t];
          currentTick := tick;
        } else {
          break;
        }
      }
      ProgressEnds(s, fired, st);
    }

    /** The clock part of rt_tick_increase. */
    method TickIncrease() returns (fired: seq<nat>)
      requires Valid()
      modifies this
      ensures Valid() && (st, fired) == TickStep(old(st))
    {
      ghost var s := st;
      Advance();
      fired := CheckList();
      assert Inv(TickStep(s).0) by { TickIs(s); }
    }

    /** `++ rt_tick` */
    method Advance()
      requires Valid()
      modifies this`tick, this`st
      ensures Checking(st) && Holds(st) && st == old(st).(now := old(st).now + 1)
    {
      tick := Wrap(tick + 1);
      st := st.(now := st.now + 1);
    }

    /** rt_timer_next_timeout_tick: the wrapped earliest deadline, RT_TICK_MAX when no timer runs. */
    method NextTimeoutTick() returns (next: word)
      requires Valid()
      ensures if forall id :: Deadline(st.list, id).None? then next == RT_TICK_MAX
        else exists id :: Deadline(st.list, id).Some? && next == Wrap(Deadline(st.list, id).value)
               && forall x :: Deadline(st.list, x).Some? ==> Deadline(st.list, id).value <= Deadline(st.list, x).value
    {
      if rows == [] {
        return RT_TICK_MAX;
      }
      next := timers[rows[0]].timeoutTick;
      assert st.list[0] in st.list && Deadline(st.list, st.list[0].id) == Some(st.list[0].deadline);
      forall x | Deadline(st.list, x).Some?
        ensures st.list[0].deadline <= Deadline(st.list, x).value
      {
        HeadIsEarliest(st.list, x);
      }
    }
  }
}
