/** Every timer behaves as if it were the only one: what the list and the ticks of other timers mean for it is
    nothing. */
module TimerAlone {
  import opened Words
  import opened Runs
  import opened TimerSpec

  /** One timer by itself: its settings, and when it fires next if it is running. */
  datatype One = One(init: nat, periodic: bool, next: Option<nat>)

  /** What an operation at tick `now` means for timer `id` by itself: a start counts from now, a stop ends it,
      settings take effect with the next start. */
  function Alone(o: One, op: Op, id: nat, now: nat): One {
    match op
    case Start(x) => if x == id then o.(next := Some(now + o.init)) else o
    case Stop(x) => if x == id then o.(next := None) else o
    case SetTime(x, n) => if x == id then o.(init := n) else o
    case SetPeriodic(x, on) => if x == id then o.(periodic := on) else o
    case Tick => if DueAt(o, now + 1) then o.(next := if o.periodic then Some(now + 1 + o.init) else None) else o
  }

  /** Whether it fires in the tick to `now`. */
  predicate DueAt(o: One, now: nat) { o.next.Some? && o.next.value <= now }

  /** The ticks at which it fires in the course of `ops`. */
  function FiresAlone(o: One, ops: seq<Op>, id: nat, now: nat): seq<nat>
    decreases |ops|
  {
    if ops == [] then []
    else if ops[0].Tick? then
      (if DueAt(o, now + 1) then [now + 1] else []) + FiresAlone(Alone(o, Tick, id, now), ops[1..], id, now + 1)
    else FiresAlone(Alone(o, ops[0], id, now), ops[1..], id, now)
  }

  /** Timer `id` among all others. */
  function View(s: State, id: nat): One
    requires id in s.timers
  {
    One(s.timers[id].init, s.timers[id].periodic, Deadline(s.list, id))
  }

  lemma StopIs(s: State, id: nat)
    requires Inv(s) && id in s.timers
    ensures var (t, ok) := StopTimer(s, id);
      && id in t.timers && t.now == s.now && !t.timers[id].active && Deadline(t.list, id).None?
      && t.timers[id] == s.timers[id].(active := false)
      && (ok <==> s.timers[id].active)
  {
    DeadlineRemove(s.list, id, id);
  }

  lemma OwnStep(s: State, op: Op, id: nat)
    requires Inv(s) && Legal(s, op) && !op.Tick? && op.id == id
    ensures var t := Step(s, op);
      id in s.timers && id in t.timers && View(t, id) == Alone(View(s, id), op, id, s.now) && t.now == s.now
  {
    match op
    case Start(_) => Started(s, id);
    case Stop(_) => StopIs(s, id);
    case SetTime(_, _) =>
    case SetPeriodic(_, _) =>
  }

  lemma StepView(s: State, op: Op, id: nat)
    requires Inv(s) && Legal(s, op) && id in s.timers
    ensures var t := Step(s, op);
      && Inv(t) && id in t.timers && View(t, id) == Alone(View(s, id), op, id, s.now)
      && t.now == if op.Tick? then s.now + 1 else s.now
  {
    StepInv(s, op);
    if op.Tick? {
      TickFor(s, id, s.now);
    } else if op.id == id {
      OwnStep(s, op, id);
    } else {
      OthersKept(s, op, id);
    }
  }

  /** In every run every timer fires exactly when it would fire if it were the only one, whatever is done to it and to
      all the others. */
  lemma {:induction false} AsIfAlone(s: State, ops: seq<Op>, t: State, id: nat)
    requires Inv(s) && id in s.timers && Reaches(Legal, Run, s, ops, t)
    ensures Fires(s, ops, id) == FiresAlone(View(s, id), ops, id, s.now)
    decreases |ops|
  {
    if ops != [] {
      StepView(s, ops[0], id);
      AsIfAlone(Step(s, ops[0]), ops[1..], t, id);
      if ops[0].Tick? {
        TickFor(s, id, s.now);
        FiresTick(s, ops, id);
        assert Times(s.now + 1, 1) == [s.now + 1] && Times(s.now + 1, 0) == [];
      } else {
        FiresOther(s, ops, id);
      }
    }
  }

  /** rt_timer_stop finds an active timer or fails; in both cases the timer is inactive and off the list afterwards,
      and does not fire until it is started again. */
  lemma StopSilences(s: State, id: nat, ops: seq<Op>, u: State)
    requires Inv(s) && id in s.timers
    requires Reaches((x: State, op: Op) => Legal(x, op) && op != Start(id), Run, StopTimer(s, id).0, ops, u)
    ensures var (t, ok) := StopTimer(s, id);
      && (ok <==> s.timers[id].active) && id in t.timers && !t.timers[id].active && Deadline(t.list, id).None?
      && Fires(t, ops, id) == []
  {
    var t := StopTimer(s, id).0;
    StopIs(s, id);
    StopInv(s, id);
    Silent(t, ops, u, id);
  }

  lemma {:induction false} Silent(s: State, ops: seq<Op>, t: State, id: nat)
    requires Inv(s) && id in s.timers && Deadline(s.list, id).None?
    requires Reaches((x: State, op: Op) => Legal(x, op) && op != Start(id), Run, s, ops, t)
    ensures Fires(s, ops, id) == []
    decreases |ops|
  {
    if ops != [] {
      StepView(s, ops[0], id);
      Silent(Step(s, ops[0]), ops[1..], t, id);
      if ops[0].Tick? {
        TickFor(s, id, s.now);
        FiresTick(s, ops, id);
      } else {
        FiresOther(s, ops, id);
      }
    }
  }
}
