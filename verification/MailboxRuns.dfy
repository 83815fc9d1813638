/** What rt_mb_send_wait and rt_mb_recv answer: when each answer comes, and what the answers of a whole run add
    up to. */
module MailboxRuns {
  import opened Words
  import opened Lists
  import opened Runs
  import opened WaitList
  import opened WaitTime
  import opened MailboxSpec

  predicate IsSend(op: Op) { op.Send? || op.SendAgain? }

  predicate IsRecv(op: Op) { op.Recv? || op.RecvAgain? }

  /** The mail a send step has to offer. */
  function Offered(s: State, op: Op): word
    requires IsSend(op) && Legal(s, op)
  {
    if op.Send? then op.value else s.clients[op.id].value
  }

  /** The time a step may wait: the time-out of the call, or what is left of it. */
  function TimeLeft(s: State, op: Op): int
    requires (IsSend(op) || IsRecv(op)) && Legal(s, op)
  {
    if op.Send? || op.Recv? then op.timeout else Remaining(s.clients[op.id].timeout, s.clients[op.id].since, s.tick)
  }

  // ---------------------------------------------------------------- one step

  /** A send is accepted exactly if there is a place; it then puts its mail behind the others and wakes the first
      waiting receiver, and only that one. It fails exactly if there is none and no time is left, and waits exactly if
      time is left; both leave the mails alone. */
  lemma SendAnswers(s: State, op: Op)
    requires Inv(s) && Legal(s, op) && IsSend(op)
    ensures var ((t, r), id, left) := (Step(s, op), op.id, TimeLeft(s, op));
      && (r == Ok <==> |s.queue| < s.size)
      && (r == Efull <==> |s.queue| == s.size && left == 0)
      && (r == Waits <==> |s.queue| == s.size && left != 0)
      && (r == Ok ==> t.queue == s.queue + [Offered(s, op)] && t.sent == s.sent + [Offered(s, op)] && t.rcvd == s.rcvd
                      && t.recvWait == (if s.recvWait == [] then [] else s.recvWait[1..]) && t.sendWait == s.sendWait
                      && (s.recvWait != [] ==> s.recvWait[0] in t.clients && t.clients[s.recvWait[0]].RecvWoken?)
                      && id in t.clients && t.clients[id] == Out)
      && (r == Efull ==> t == s.(clients := s.clients[id := Out]))
      && (r == Waits ==> t == s.(clients := s.clients[id := SendWaiting(Offered(s, op), left, s.tick)], sendWait := t.sendWait)
                         && Joined(s.sendWait, t.sendWait, s.flag, Priority(s.prios), id))
  {
    if |s.queue| < s.size {
      if s.recvWait != [] { assert s.recvWait[0] in s.recvWait; }
    } else {
      var _ := EnqueuePlace(s.sendWait, s.flag, Priority(s.prios), op.id);
    }
  }

  /** A receive is answered with a mail exactly if there is one: the oldest, which leaves the box; the first waiting
      sender, and only that one, is woken. It fails exactly if there is none and no time is left, and waits exactly if
      time is left; both leave the mails alone. */
  lemma RecvAnswers(s: State, op: Op)
    requires Inv(s) && Legal(s, op) && IsRecv(op)
    ensures var ((t, r), id, left) := (Step(s, op), op.id, TimeLeft(s, op));
      && (r.Received? <==> s.queue != [])
      && (r == Etimeout <==> s.queue == [] && left == 0)
      && (r == Waits <==> s.queue == [] && left != 0)
      && (r.Received? ==> s.queue == [r.mail] + t.queue && t.rcvd == s.rcvd + [r.mail] && t.sent == s.sent
                          && t.sendWait == (if s.sendWait == [] then [] else s.sendWait[1..]) && t.recvWait == s.recvWait
                          && (s.sendWait != [] ==> s.sendWait[0] in t.clients && t.clients[s.sendWait[0]].SendWoken?)
                          && id in t.clients && t.clients[id] == Out)
      && (r == Etimeout ==> t == s.(clients := s.clients[id := Out]))
      && (r == Waits ==> t == s.(clients := s.clients[id := RecvWaiting(left, s.tick)], recvWait := t.recvWait)
                         && Joined(s.recvWait, t.recvWait, s.flag, Priority(s.prios), id))
  {
    if s.queue != [] {
      if s.sendWait != [] { assert s.sendWait[0] in s.sendWait; }
    } else {
      var _ := EnqueuePlace(s.recvWait, s.flag, Priority(s.prios), op.id);
    }
  }

  /** No other step answers with a mail, and none of them moves one. */
  lemma OthersLeave(s: State, op: Op)
    requires Inv(s) && Legal(s, op) && !IsSend(op) && !IsRecv(op)
    ensures var (t, r) := Step(s, op); !r.Received? && t.queue == s.queue && t.sent == s.sent && t.rcvd == s.rcvd
  {
  }

  // ---------------------------------------------------------------- the answers of a run

  /** What each thread passed to the rt_mb_send_wait it called last. */
  function Called(m: map<nat, word>, op: Op): map<nat, word> {
    if op.Send? then m[op.id := op.value] else m
  }

  /** The mail accepted in a step, and the mail fetched in it, if any. */
  function AcceptedNow(s: State, op: Op, n: map<nat, word>): seq<word> {
    if Legal(s, op) && IsSend(op) && Step(s, op).1 == Ok && op.id in n then [n[op.id]] else []
  }

  function FetchedNow(s: State, op: Op): seq<word> {
    if Legal(s, op) && Step(s, op).1.Received? then [Step(s, op).1.mail] else []
  }

  /** The arguments of the sends that are answered with RT_EOK in the course of `ops`, in that order. */
  function Accepted(s: State, ops: seq<Op>, m: map<nat, word>): seq<word>
    decreases |ops|
  {
    if ops == [] then []
    else
      var n := Called(m, ops[0]);
      AcceptedNow(s, ops[0], n) + Accepted(Run(s, ops[0]), ops[1..], n)
  }

  /** The mails that receives are answered with in the course of `ops`, in that order. */
  function Fetched(s: State, ops: seq<Op>): seq<word>
    decreases |ops|
  {
    if ops == [] then [] else FetchedNow(s, ops[0]) + Fetched(Run(s, ops[0]), ops[1..])
  }

  /** A sender that waits, or has been woken, still offers what it was called with. */
  predicate Faithful(clients: map<nat, Phase>, m: map<nat, word>) {
    forall id :: id in clients && (clients[id].SendWaiting? || clients[id].SendWoken?) ==>
      id in m && clients[id].value == m[id]
  }

  /** The thread whose step this is. */
  predicate IsOf(op: Op, id: nat) { !op.Tick? && op.id == id }

  /** To a thread whose step it is not, a step can only happen to be a wake-up. */
  lemma OtherPhases(s: State, op: Op, x: nat)
    requires Legal(s, op) && !IsOf(op, x)
    ensures x in Step(s, op).0.clients <==> x in s.clients
    ensures x in s.clients ==> Step(s, op).0.clients[x] == s.clients[x] || Step(s, op).0.clients[x] == Awake(s.clients[x])
  {
    match op
    case Send(id, value, timeout) => SendPhases(s, id, value, timeout, x);
    case SendAgain(id) =>
      SendPhases(s, id, s.clients[id].value, Remaining(s.clients[id].timeout, s.clients[id].since, s.tick), x);
    case Recv(id, timeout) => RecvPhases(s, id, timeout, x);
    case RecvAgain(id) => RecvPhases(s, id, Remaining(s.clients[id].timeout, s.clients[id].since, s.tick), x);
    case _ =>
  }

  lemma SendPhases(s: State, id: nat, value: word, timeout: int, x: nat)
    requires id in s.clients && (s.clients[id] == Out || s.clients[id].SendWoken?)
    ensures var t := SendSection(s, id, value, timeout).0;
      && t.clients.Keys == s.clients.Keys
      && (t.clients[id] == Out || (timeout != 0 && t.clients[id] == SendWaiting(value, timeout, s.tick)))
      && (x != id && x in s.clients ==> t.clients[x] == s.clients[x] || t.clients[x] == Awake(s.clients[x]))
  {
  }

  lemma RecvPhases(s: State, id: nat, timeout: int, x: nat)
    requires id in s.clients && (s.clients[id] == Out || s.clients[id].RecvWoken?)
    ensures var t := RecvSection(s, id, timeout).0;
      && t.clients.Keys == s.clients.Keys
      && (t.clients[id] == Out || (timeout != 0 && t.clients[id] == RecvWaiting(timeout, s.tick)))
      && (x != id && x in s.clients ==> t.clients[x] == s.clients[x] || t.clients[x] == Awake(s.clients[x]))
  {
  }

  /** What a step makes of the thread whose step it is. */
  lemma OwnPhase(s: State, op: Op)
    requires Legal(s, op) && !op.Tick?
    ensures op.id in Step(s, op).0.clients
    ensures var (p, q) := (s.clients[op.id], Step(s, op).0.clients[op.id]);
      || q == Out || q == Expired || q == Gone || (op.Resume? && q == Awake(p))
      || (IsSend(op) && TimeLeft(s, op) != 0 && q == SendWaiting(Offered(s, op), TimeLeft(s, op), s.tick))
      || (IsRecv(op) && TimeLeft(s, op) != 0 && q == RecvWaiting(TimeLeft(s, op), s.tick))
  {
    match op
    case Send(id, value, timeout) => SendPhases(s, id, value, timeout, id);
    case SendAgain(id) =>
      SendPhases(s, id, s.clients[id].value, Remaining(s.clients[id].timeout, s.clients[id].since, s.tick), id);
    case Recv(id, timeout) => RecvPhases(s, id, timeout, id);
    case RecvAgain(id) => RecvPhases(s, id, Remaining(s.clients[id].timeout, s.clients[id].since, s.tick), id);
    case _ =>
  }

  lemma StepFaithful(s: State, op: Op, m: map<nat, word>)
    requires Legal(s, op) && Faithful(s.clients, m)
    ensures Faithful(Step(s, op).0.clients, Called(m, op))
    ensures IsSend(op) ==> op.id in Called(m, op) && Offered(s, op) == Called(m, op)[op.id]
  {
    var (t, n) := (Step(s, op).0, Called(m, op));
    forall id | id in t.clients && (t.clients[id].SendWaiting? || t.clients[id].SendWoken?)
      ensures id in n && t.clients[id].value == n[id]
    {
      if IsOf(op, id) { OwnPhase(s, op); } else { OtherPhases(s, op, id); }
    }
  }

  /** The mails in the box and those accepted are those fetched and those in the box afterwards. */
  lemma {:induction false} MailsFlow(s: State, ops: seq<Op>, t: State, m: map<nat, word>)
    requires Inv(s) && Faithful(s.clients, m) && Reaches(Legal, Run, s, ops, t)
    ensures s.queue + Accepted(s, ops, m) == Fetched(s, ops) + t.queue
    decreases |ops|
  {
    if ops != [] {
      var (op, u, n) := (ops[0], Run(s, ops[0]), Called(m, ops[0]));
      StepInv(s, op);
      StepFaithful(s, op, m);
      MailsFlow(u, ops[1..], t, n);
      FlowStep(s, op, n);
      Chain(s.queue, AcceptedNow(s, op, n), FetchedNow(s, op), u.queue, Accepted(u, ops[1..], n), Fetched(u, ops[1..]), t.queue);
    }
  }

  lemma FlowStep(s: State, op: Op, n: map<nat, word>)
    requires Inv(s) && Legal(s, op) && (IsSend(op) ==> op.id in n && Offered(s, op) == n[op.id])
    ensures s.queue + AcceptedNow(s, op, n) == FetchedNow(s, op) + Step(s, op).0.queue
  {
    if IsSend(op) {
      SendAnswers(s, op);
    } else if IsRecv(op) {
      RecvAnswers(s, op);
    } else {
      OthersLeave(s, op);
    }
  }

  lemma Chain(q: seq<word>, a: seq<word>, f: seq<word>, r: seq<word>, b: seq<word>, g: seq<word>, z: seq<word>)
    requires q + a == f + r && r + b == g + z
    ensures q + (a + b) == f + g + z
  {
    assert q + (a + b) == q + a + b == f + (r + b);
  }

  /** In every run the mails that rt_mb_recv returns are the values of the successful calls of rt_mb_send, in the order
      in which these succeeded, without the last few, which are still in the box. */
  lemma MailsInOrder(size: nat, flag: Flag, prios: map<nat, nat>, ops: seq<Op>, t: State)
    requires Reaches(Legal, Run, Init(size, flag, prios), ops, t)
    ensures var s := Init(size, flag, prios);
      && Accepted(s, ops, map[]) == Fetched(s, ops) + t.queue && |t.queue| <= size
      && Fetched(s, ops) <= Accepted(s, ops, map[])
  {
    var s := Init(size, flag, prios);
    MailsFlow(s, ops, t, map[]);
    assert [] + Accepted(s, ops, map[]) == Accepted(s, ops, map[]);
    RunInv(size, flag, prios, ops, t);
    SizeStays(s, ops, t);
  }

  lemma SizeStays(s: State, ops: seq<Op>, t: State)
    requires Reaches(Legal, Run, s, ops, t)
    ensures t.size == s.size
  {
    RunKeeps((x: State) => x.size == s.size, Legal, Run, s, ops, t);
  }

  // ---------------------------------------------------------------- time

  /** Thread `id` is in a call that waits or has waited. */
  predicate InCall(s: State, id: nat) {
    && id in s.clients
    && (s.clients[id].RecvWaiting? || s.clients[id].RecvWoken? || s.clients[id].SendWaiting? || s.clients[id].SendWoken?)
  }

  /** Steps other than a new call by thread `id`. */
  function SameCall(id: nat): (State, Op) -> bool {
    (s: State, op: Op) => Legal(s, op) && ((op.Send? || op.Recv?) ==> op.id != id)
  }

  /** The number of ticks in `ops`. */
  function Ticks(ops: seq<Op>): nat {
    if ops == [] then 0 else (if ops[0].Tick? then 1 else 0) + Ticks(ops[1..])
  }

  /** `n` ticks into a call of thread `id` with time-out `timeout`. */
  predicate OnTime(s: State, id: nat, timeout: int, n: nat) {
    InCall(s, id) ==> Clocked(s.clients[id].timeout, s.clients[id].since, s.tick, timeout, n)
  }

  lemma StepClocked(s: State, op: Op, id: nat, timeout: int, n: nat)
    requires Inv(s) && SameCall(id)(s, op) && OnTime(s, id, timeout, n)
    requires timeout < 0x8000_0000 && (timeout > 0 ==> n <= timeout + 0x8000_0000)
    ensures OnTime(Run(s, op), id, timeout, if op.Tick? then n + 1 else n)
  {
    if op.Tick? {
      if InCall(s, id) { NextTick(s.clients[id].timeout, s.clients[id].since, s.tick, timeout, n); }
    } else if op.id == id {
      OwnClocked(s, op, id, timeout, n);
    } else {
      OtherPhases(s, op, id);
      assert Step(s, op).0.tick == s.tick;
    }
  }

  lemma OwnClocked(s: State, op: Op, id: nat, timeout: int, n: nat)
    requires SameCall(id)(s, op) && IsOf(op, id) && OnTime(s, id, timeout, n)
    requires timeout < 0x8000_0000 && (timeout > 0 ==> n <= timeout + 0x8000_0000)
    ensures OnTime(Step(s, op).0, id, timeout, n)
  {
    OwnPhase(s, op);
    assert Step(s, op).0.tick == s.tick;
    if op.SendAgain? || op.RecvAgain? { LeftAfter(s.clients[id].timeout, s.clients[id].since, s.tick, timeout, n); }
  }

  lemma {:induction false} RunClocked(s: State, ops: seq<Op>, t: State, id: nat, timeout: int, n: nat)
    requires Inv(s) && Reaches(SameCall(id), Run, s, ops, t) && OnTime(s, id, timeout, n)
    requires timeout < 0x8000_0000 && (timeout > 0 ==> n + Ticks(ops) <= timeout + 0x8000_0000)
    ensures Inv(t) && OnTime(t, id, timeout, n + Ticks(ops))
    decreases |ops|
  {
    if ops != [] {
      StepInv(s, ops[0]);
      StepClocked(s, ops[0], id, timeout, n);
      RunClocked(Run(s, ops[0]), ops[1..], t, id, timeout, if ops[0].Tick? then n + 1 else n);
    }
  }

  /** However often a call is woken and finds that it has to wait again, the time it may still wait is its time-out less
      the ticks that have passed since it was made, while these are at most 2^31 more than the time-out; a call that may
      wait for ever still may. Its timer can only fire if it has a time-out. */
  lemma TimeLeftIs(s: State, call: Op, ops: seq<Op>, t: State)
    requires Inv(s) && Legal(s, call) && (call.Send? || call.Recv?) && call.timeout < 0x8000_0000
    requires Reaches(SameCall(call.id), Run, Step(s, call).0, ops, t)
    requires call.timeout > 0 ==> Ticks(ops) <= call.timeout + 0x8000_0000
    ensures forall op :: (op == SendAgain(call.id) || op == RecvAgain(call.id)) && Legal(t, op) ==>
      TimeLeft(t, op) == WhatIsLeft(call.timeout, Ticks(ops))
    ensures Legal(t, Timeout(call.id)) <==> InCall(t, call.id) && call.timeout > 0
                                            && (t.clients[call.id].RecvWaiting? || t.clients[call.id].SendWaiting?)
  {
    StepInv(s, call);
    CallClocked(s, call);
    RunClocked(Step(s, call).0, ops, t, call.id, call.timeout, 0);
    if InCall(t, call.id) {
      LeftAfter(t.clients[call.id].timeout, t.clients[call.id].since, t.tick, call.timeout, Ticks(ops));
    }
  }

  lemma CallClocked(s: State, call: Op)
    requires Legal(s, call) && (call.Send? || call.Recv?)
    ensures OnTime(Step(s, call).0, call.id, call.timeout, 0)
  {
    OwnPhase(s, call);
    assert Step(s, call).0.tick == s.tick;
  }

  /** Steps other than the end of thread `id`'s call. */
  function NotBack(id: nat): (State, Op) -> bool {
    (s: State, op: Op) => Legal(s, op) && op != Return(id) && op != Delete(id)
  }

  /** A call whose timer has fired returns -RT_ETIMEOUT, whatever happens in between, and moves no mail. */
  lemma TimedOutReturns(s: State, id: nat, ops: seq<Op>, t: State)
    requires Legal(s, Timeout(id)) && Reaches(NotBack(id), Run, Step(s, Timeout(id)).0, ops, t)
    ensures Legal(t, Return(id)) && Step(t, Return(id)).1 == Etimeout
  {
    var inv := (x: State) => id in x.clients && x.clients[id] == Expired;
    forall x: State, o: Op | inv(x) && NotBack(id)(x, o)
      ensures inv(Run(x, o))
    {
      OtherPhases(x, o, id);
    }
    RunKeeps(inv, NotBack(id), Run, Step(s, Timeout(id)).0, ops, t);
  }
}
