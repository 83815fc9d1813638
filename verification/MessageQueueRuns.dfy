/** What rt_mq_send, rt_mq_urgent and rt_mq_recv answer, and that a call does with its arguments what it is asked to,
    whatever other threads do between its sections. */
module MessageQueueRuns {
  import opened Words
  import opened Lists
  import opened Runs
  import opened WaitList
  import opened WaitTime
  import opened MessageQueueSpec

  predicate IsRecv(op: Op) { op.DoRecv? || op.DoRecvAgain? }

  /** The time a receive step may wait: the time-out of the call, or what is left of it. */
  function TimeLeft(s: State, op: Op): int
    requires IsRecv(op) && Legal(s, op)
  {
    if op.DoRecv? then op.timeout else Remaining(s.clients[op.id].timeout, s.clients[op.id].since, s.tick)
  }

  // ---------------------------------------------------------------- one step

  /** A send fails exactly if the message is too long, finds the queue full exactly if no node is free, and goes on
      otherwise; where it does not, nothing changes. */
  lemma SendAnswers(s: State, op: Op)
    requires Legal(s, op) && op.DoSend?
    ensures var (t, r) := Step(s, op);
      && (r == Failed <==> |op.buffer| > s.msgSize)
      && (r == Full <==> |op.buffer| <= s.msgSize && s.free == [])
      && (r == Goes <==> |op.buffer| <= s.msgSize && s.free != [])
      && (r != Goes ==> t == s)
  {
  }

  /** A receive takes a message exactly if there is one, is late exactly if there is none and no time is left, and
      joins the waiting receivers exactly if time is left; both leave the messages alone. */
  lemma RecvAnswers(s: State, op: Op)
    requires Inv(s) && Legal(s, op) && IsRecv(op)
    ensures var ((t, r), id, left) := (Step(s, op), op.id, TimeLeft(s, op));
      && id in t.clients
      && (t.clients[id].Copying? <==> s.queue != [])
      && (r == Late <==> s.queue == [] && left == 0)
      && (t.clients[id].Waiting? <==> s.queue == [] && left != 0)
      && (r == Late ==> t == s.(clients := s.clients[id := Idle]))
      && (t.clients[id].Waiting? ==>
            && t == s.(clients := s.clients[id := Waiting(AskedFor(s, op), left, s.tick)], recvWait := t.recvWait)
            && Joined(s.recvWait, t.recvWait, s.flag, Priority(s.prios), id))
  {
    if s.queue == [] {
      var _ := EnqueuePlace(s.recvWait, s.flag, Priority(s.prios), op.id);
    }
  }

  /** Linking a message in wakes the first waiting receiver, and only that one. */
  lemma LinkWakes(s: State, id: nat)
    requires Inv(s) && Legal(s, DoLink(id))
    ensures var t := Step(s, DoLink(id)).0;
      && t.recvWait == (if s.recvWait == [] then [] else s.recvWait[1..])
      && (s.recvWait != [] ==> s.recvWait[0] in t.clients && t.clients[s.recvWait[0]].Woken?)
      && id in t.clients && t.clients[id] == Idle
  {
    if s.recvWait != [] { assert s.recvWait[0] in s.recvWait; }
  }

  /** One message more, which begins with `buffer`: in front if it is urgent, at the end otherwise. */
  ghost predicate Gains(before: seq<Bytes>, after: seq<Bytes>, buffer: Bytes, urgent: bool) {
    exists mail :: buffer <= mail && after == if urgent then [mail] + before else before + [mail]
  }

  /** The messages in the queue change only where one is linked in, at the end or, if urgent, in front, and where a
      receiver takes the first. */
  lemma DequeSteps(s: State, op: Op)
    requires Inv(s) && Legal(s, op)
    ensures var t := Step(s, op).0;
      if op.DoLink? then Gains(s.deque, t.deque, s.clients[op.id].buffer, s.clients[op.id].urgent)
      else if IsRecv(op) && s.queue != [] then s.deque != [] && t.deque == s.deque[1..]
      else t.deque == s.deque
  {
    if op.DoLink? {
      LinkGains(s, op.id);
    } else if op.DoRecv? && s.queue != [] {
      TakePops(s, op.id, op.size, op.timeout);
    } else if op.DoRecvAgain? && s.queue != [] {
      TakePops(s, op.id, s.clients[op.id].size, TimeLeft(s, op));
    }
  }

  // ---------------------------------------------------------------- what happens to a thread

  /** The thread whose step this is. */
  predicate IsOf(op: Op, id: nat) { !op.DoTick? && op.id == id }

  /** A waiting thread once it has been woken. */
  function Awake(g: Stage): Stage {
    if g.Waiting? then Woken(g.size, g.timeout, g.since) else g
  }

  /** To a thread whose step it is not, a step can only happen to be a wake-up. */
  lemma OtherStages(s: State, op: Op, x: nat)
    requires Legal(s, op) && !IsOf(op, x) && x in s.clients
    ensures x in Step(s, op).0.clients
    ensures Step(s, op).0.clients[x] == s.clients[x] || Step(s, op).0.clients[x] == Awake(s.clients[x])
  {
    match op
    case DoLink(id) => LinkStages(s, id, x);
    case DoRecv(id, size, timeout) => TakeStages(s, id, size, timeout, x);
    case DoRecvAgain(id) => TakeStages(s, id, s.clients[id].size, TimeLeft(s, op), x);
    case _ =>
  }

  lemma LinkStages(s: State, id: nat, x: nat)
    requires Legal(s, DoLink(id)) && x in s.clients && x != id
    ensures var t := LinkNode(s, id); x in t.clients && (t.clients[x] == s.clients[x] || t.clients[x] == Awake(s.clients[x]))
  {
  }

  lemma TakeStages(s: State, id: nat, size: nat, timeout: int, x: nat)
    requires x in s.clients && x != id
    ensures var t := TakeMessage(s, id, size, timeout).0; x in t.clients && t.clients[x] == s.clients[x]
  {
  }

  /** Through steps of others a thread that does not wait stays where it is. */
  lemma Undisturbed(s: State, id: nat, ops: seq<Op>, t: State)
    requires Inv(s) && id in s.clients && !s.clients[id].Waiting? && Reaches(ByOthers(id), Run, s, ops, t)
    ensures Inv(t) && id in t.clients && t.clients[id] == s.clients[id]
  {
    var inv := (x: State) => Inv(x) && id in x.clients && x.clients[id] == s.clients[id];
    forall x: State, o: Op | inv(x) && ByOthers(id)(x, o)
      ensures inv(Run(x, o))
    {
      StepInv(x, o);
      OtherStages(x, o, id);
    }
    RunKeeps(inv, ByOthers(id), Run, s, ops, t);
  }

  // ---------------------------------------------------------------- sending

  /** A send that goes on puts exactly one message into the queue, which begins with the bytes it was given, at
      the end or, if it is urgent, in front; whatever other threads do before it fills its node and before it
      links it in. */
  lemma SendDelivers(s: State, op: Op, a: seq<Op>, t: State, b: seq<Op>, u: State)
    requires Inv(s) && Legal(s, op) && op.DoSend? && Step(s, op).1 == Goes
    requires Reaches(ByOthers(op.id), Run, Step(s, op).0, a, t)
    requires Reaches(ByOthers(op.id), Run, Run(t, DoFill(op.id)), b, u)
    ensures Legal(t, DoFill(op.id)) && Legal(u, DoLink(op.id))
    ensures Gains(u.deque, Step(u, DoLink(op.id)).0.deque, op.buffer, op.urgent)
  {
    WillFill(s, op, a, t);
    WillLink(t, op.id, b, u);
    LinkGains(u, op.id);
  }

  lemma LinkGains(s: State, id: nat)
    requires Inv(s) && Legal(s, DoLink(id))
    ensures Gains(s.deque, Step(s, DoLink(id)).0.deque, s.clients[id].buffer, s.clients[id].urgent)
  {
    LinkExtends(s, id);
  }

  lemma WillFill(s: State, op: Op, a: seq<Op>, t: State)
    requires Inv(s) && Legal(s, op) && op.DoSend? && Step(s, op).1 == Goes
    requires Reaches(ByOthers(op.id), Run, Step(s, op).0, a, t)
    ensures Inv(t) && Legal(t, DoFill(op.id)) && t.clients[op.id].buffer == op.buffer && t.clients[op.id].urgent == op.urgent
  {
    SendTakes(s, op);
    StepInv(s, op);
    Undisturbed(Step(s, op).0, op.id, a, t);
  }

  lemma WillLink(t: State, id: nat, b: seq<Op>, u: State)
    requires Inv(t) && Legal(t, DoFill(id)) && Reaches(ByOthers(id), Run, Run(t, DoFill(id)), b, u)
    ensures Inv(u) && Legal(u, DoLink(id))
    ensures u.clients[id].buffer == t.clients[id].buffer && u.clients[id].urgent == t.clients[id].urgent
  {
    FillTakes(t, id);
    StepInv(t, DoFill(id));
    Undisturbed(Run(t, DoFill(id)), id, b, u);
  }

  lemma SendTakes(s: State, op: Op)
    requires Legal(s, op) && op.DoSend? && Step(s, op).1 == Goes
    ensures var t := Step(s, op).0;
      && op.id in t.clients && t.clients[op.id].Filling?
      && t.clients[op.id].buffer == op.buffer && t.clients[op.id].urgent == op.urgent
  {
  }

  lemma FillTakes(s: State, id: nat)
    requires Inv(s) && Legal(s, DoFill(id))
    ensures var t := Run(s, DoFill(id));
      && id in t.clients && t.clients[id].Filled?
      && t.clients[id].buffer == s.clients[id].buffer && t.clients[id].urgent == s.clients[id].urgent
  {
    assert Held(s.clients[id]).Some?;
  }

  // ---------------------------------------------------------------- receiving after a wait

  /** Steps other than a new call by thread `id`. */
  function SameCall(id: nat): (State, Op) -> bool {
    (s: State, op: Op) => Legal(s, op) && ((op.DoSend? || op.DoRecv?) ==> op.id != id)
  }

  /** Thread `id` is in an rt_mq_recv that waits or has waited. */
  predicate InCall(s: State, id: nat) {
    id in s.clients && (s.clients[id].Waiting? || s.clients[id].Woken?)
  }

  /** The number of ticks in `ops`. */
  function Ticks(ops: seq<Op>): nat {
    if ops == [] then 0 else (if ops[0].DoTick? then 1 else 0) + Ticks(ops[1..])
  }

  /** `n` ticks into a receive of `size` bytes with time-out `timeout`. */
  predicate OnTime(s: State, id: nat, size: nat, timeout: int, n: nat) {
    && id in s.clients && !s.clients[id].Filling? && !s.clients[id].Filled?
    && (InCall(s, id) ==>
          s.clients[id].size == size && Clocked(s.clients[id].timeout, s.clients[id].since, s.tick, timeout, n))
  }

  lemma OwnStage(s: State, op: Op)
    requires Legal(s, op) && !op.DoTick? && !op.DoSend? && !op.DoFill? && !op.DoLink?
    ensures op.id in Step(s, op).0.clients && Step(s, op).0.tick == s.tick
    ensures var (g, h) := (s.clients[op.id], Step(s, op).0.clients[op.id]);
      || h.Idle? || h.TimedOut? || h.Gone? || h.Copying? || (op.DoResume? && h == Awake(g))
      || (IsRecv(op) && TimeLeft(s, op) != 0 && h == Waiting(AskedFor(s, op), TimeLeft(s, op), s.tick))
  {
  }

  lemma TickStays(s: State, op: Op)
    requires Legal(s, op) && !op.DoTick?
    ensures Step(s, op).0.tick == s.tick
  {
  }

  lemma OwnOnTime(s: State, op: Op, id: nat, size: nat, timeout: int, n: nat)
    requires SameCall(id)(s, op) && IsOf(op, id) && OnTime(s, id, size, timeout, n)
    requires timeout < 0x8000_0000 && (timeout > 0 ==> n <= timeout + 0x8000_0000)
    ensures OnTime(Step(s, op).0, id, size, timeout, n)
  {
    OwnStage(s, op);
    if op.DoRecvAgain? { LeftAfter(s.clients[id].timeout, s.clients[id].since, s.tick, timeout, n); }
  }

  lemma StepOnTime(s: State, op: Op, id: nat, size: nat, timeout: int, n: nat)
    requires SameCall(id)(s, op) && OnTime(s, id, size, timeout, n)
    requires timeout < 0x8000_0000 && (timeout > 0 ==> n <= timeout + 0x8000_0000)
    ensures OnTime(Run(s, op), id, size, timeout, if op.DoTick? then n + 1 else n)
  {
    if op.DoTick? {
      if InCall(s, id) { NextTick(s.clients[id].timeout, s.clients[id].since, s.tick, timeout, n); }
    } else if op.id == id {
      OwnOnTime(s, op, id, size, timeout, n);
    } else {
      OtherStages(s, op, id);
      TickStays(s, op);
    }
  }

  lemma {:induction false} RunOnTime(s: State, ops: seq<Op>, t: State, id: nat, size: nat, timeout: int, n: nat)
    requires Inv(s) && Reaches(SameCall(id), Run, s, ops, t) && OnTime(s, id, size, timeout, n)
    requires timeout < 0x8000_0000 && (timeout > 0 ==> n + Ticks(ops) <= timeout + 0x8000_0000)
    ensures Inv(t) && OnTime(t, id, size, timeout, n + Ticks(ops))
    decreases |ops|
  {
    if ops != [] {
      StepInv(s, ops[0]);
      StepOnTime(s, ops[0], id, size, timeout, n);
      RunOnTime(Run(s, ops[0]), ops[1..], t, id, size, timeout, if ops[0].DoTick? then n + 1 else n);
    }
  }

  /** However often rt_mq_recv is woken and finds that it has to wait again, it asks for the size it was called with,
      and the time it may still wait is its time-out less the ticks that have passed since, while these are at most
      2^31 more than the time-out. Its timer can only fire if it has a time-out. */
  lemma AsksTheSame(s: State, call: Op, ops: seq<Op>, t: State)
    requires Inv(s) && Legal(s, call) && call.DoRecv? && call.timeout < 0x8000_0000
    requires Reaches(SameCall(call.id), Run, Step(s, call).0, ops, t)
    requires call.timeout > 0 ==> Ticks(ops) <= call.timeout + 0x8000_0000
    ensures Inv(t)
    ensures var again := DoRecvAgain(call.id);
      Legal(t, again) ==> AskedFor(t, again) == call.size && TimeLeft(t, again) == WhatIsLeft(call.timeout, Ticks(ops))
    ensures Legal(t, DoTimeout(call.id)) <==> call.id in t.clients && t.clients[call.id].Waiting? && call.timeout > 0
  {
    assert Inv(t) && OnTime(t, call.id, call.size, call.timeout, Ticks(ops)) by {
      StepInv(s, call);
      OwnStage(s, call);
      RunOnTime(Step(s, call).0, ops, t, call.id, call.size, call.timeout, 0);
    }
    InCallSays(t, call.id, call.size, call.timeout, Ticks(ops));
  }

  lemma InCallSays(t: State, id: nat, size: nat, timeout: int, n: nat)
    requires OnTime(t, id, size, timeout, n) && timeout < 0x8000_0000 && (timeout > 0 ==> n <= timeout + 0x8000_0000)
    ensures Legal(t, DoRecvAgain(id)) ==>
      AskedFor(t, DoRecvAgain(id)) == size && TimeLeft(t, DoRecvAgain(id)) == WhatIsLeft(timeout, n)
    ensures Legal(t, DoTimeout(id)) <==> id in t.clients && t.clients[id].Waiting? && timeout > 0
  {
    if InCall(t, id) { LeftAfter(t.clients[id].timeout, t.clients[id].since, t.tick, timeout, n); }
  }

  /** An rt_mq_recv that had to wait returns, when it has been woken and finds a message, the one at the front then,
      cut to the size it was called with, whatever other threads do before it has copied it out. */
  lemma CallDelivers(s: State, call: Op, ops: seq<Op>, t: State, rest: seq<Op>, u: State)
    requires Inv(s) && Legal(s, call) && call.DoRecv? && call.timeout < 0x8000_0000
    requires Reaches(SameCall(call.id), Run, Step(s, call).0, ops, t)
    requires call.timeout > 0 ==> Ticks(ops) <= call.timeout + 0x8000_0000
    requires Legal(t, DoRecvAgain(call.id)) && t.queue != []
    requires Reaches(ByOthers(call.id), Run, Step(t, DoRecvAgain(call.id)).0, rest, u)
    ensures t.deque != [] && Legal(u, DoFinish(call.id))
    ensures var mail := t.deque[0]; Step(u, DoFinish(call.id)).1 == Got(if call.size > |mail| then mail else mail[..call.size])
  {
    AsksTheSame(s, call, ops, t);
    RecvDelivers(t, DoRecvAgain(call.id), rest, u);
  }

  /** Steps other than the end of thread `id`'s call. */
  function NotBack(id: nat): (State, Op) -> bool {
    (s: State, op: Op) => Legal(s, op) && op != DoReturn(id) && op != DoDelete(id)
  }

  /** A call whose timer has fired returns -RT_ETIMEOUT, whatever happens in between. */
  lemma TimedOutReturns(s: State, id: nat, ops: seq<Op>, t: State)
    requires Legal(s, DoTimeout(id)) && Reaches(NotBack(id), Run, Step(s, DoTimeout(id)).0, ops, t)
    ensures Legal(t, DoReturn(id)) && Step(t, DoReturn(id)).1 == Late
  {
    var inv := (x: State) => id in x.clients && x.clients[id] == TimedOut;
    forall x: State, o: Op | inv(x) && NotBack(id)(x, o)
      ensures inv(Run(x, o))
    {
      OtherStages(x, o, id);
    }
    RunKeeps(inv, NotBack(id), Run, Step(s, DoTimeout(id)).0, ops, t);
  }
}
