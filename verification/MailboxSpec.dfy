/** The mailbox of ipc.c as a protocol: every section that runs with interrupts disabled is one step, and a thread that
    has been woken but has not run yet is a state of its own. The ring buffer is a queue here. */
module MailboxSpec {
  import opened Words
  import opened Lists
  import opened Runs
  import opened WaitList
  import opened WaitTime

  /** Where a thread is in rt_mb_send_wait or rt_mb_recv; `since` is the tick at which it began to wait. */
  datatype Phase =
    | Out
    | RecvWaiting(timeout: int, since: word)
    | RecvWoken(timeout: int, since: word)
    | SendWaiting(value: word, timeout: int, since: word)
    | SendWoken(value: word, timeout: int, since: word)
    | Expired
    | Gone

  datatype Result = Ok | Received(mail: word) | Efull | Etimeout | Waits

  /** `sent` and `rcvd` are all mails put into and taken out of the mailbox so far. */
  datatype State = State(size: nat, queue: seq<word>, recvWait: seq<nat>, sendWait: seq<nat>, flag: Flag,
                         clients: map<nat, Phase>, prios: map<nat, nat>, tick: word,
                         sent: seq<word>, rcvd: seq<word>)

  datatype Op =
    | Send(id: nat, value: word, timeout: int)
    | SendAgain(id: nat)
    | Recv(id: nat, timeout: int)
    | RecvAgain(id: nat)
    | Timeout(id: nat)
    | Return(id: nat)
    | Delete(id: nat)
    | Resume(id: nat)
    | Tick

  // ---------------------------------------------------------------- the steps

  function SetPhase(s: State, id: nat, p: Phase): State {
    s.(clients := s.clients[id := p])
  }

  /** rt_ipc_list_resume on the receivers */
  function WakeReceiver(s: State): State {
    if s.recvWait == [] then s
    else
      var w := s.recvWait[0];
      if w in s.clients && s.clients[w].RecvWaiting? then
        SetPhase(s, w, RecvWoken(s.clients[w].timeout, s.clients[w].since)).(recvWait := s.recvWait[1..])
      else s
  }

  function WakeSender(s: State): State {
    if s.sendWait == [] then s
    else
      var w := s.sendWait[0];
      if w in s.clients && s.clients[w].SendWaiting? then
        SetPhase(s, w, SendWoken(s.clients[w].value, s.clients[w].timeout, s.clients[w].since)).(sendWait := s.sendWait[1..])
      else s
  }

  /** The mail goes in and the first waiting receiver is woken. */
  function Put(s: State, value: word): State {
    WakeReceiver(s.(queue := s.queue + [value], sent := s.sent + [value]))
  }

  /** The oldest mail comes out and the first waiting sender is woken. */
  function Get(s: State): State
    requires s.queue != []
  {
    WakeSender(s.(queue := s.queue[1..], rcvd := s.rcvd + [s.queue[0]]))
  }

  /** From the test of the loop in rt_mb_send_wait to the next point where interrupts are enabled. */
  function SendSection(s: State, id: nat, value: word, timeout: int): (State, Result) {
    if |s.queue| == s.size then
      if timeout == 0 then (SetPhase(s, id, Out), Efull)
      else (SetPhase(s, id, SendWaiting(value, timeout, s.tick))
              .(sendWait := Enqueue(s.sendWait, s.flag, Priority(s.prios), id)), Waits)
    else (Put(SetPhase(s, id, Out), value), Ok)
  }

  /** The same in rt_mb_recv. */
  function RecvSection(s: State, id: nat, timeout: int): (State, Result) {
    if s.queue == [] then
      if timeout == 0 then (SetPhase(s, id, Out), Etimeout)
      else (SetPhase(s, id, RecvWaiting(timeout, s.tick))
              .(recvWait := Enqueue(s.recvWait, s.flag, Priority(s.prios), id)), Waits)
    else (Get(SetPhase(s, id, Out)), Received(s.queue[0]))
  }

  /** The thread leaves the list it waits on. */
  function Depart(s: State, id: nat, p: Phase): State {
    SetPhase(s, id, p).(recvWait := Drop(s.recvWait, id), sendWait := Drop(s.sendWait, id))
  }

  /** A waiting thread once it has been woken. */
  function Awake(p: Phase): Phase {
    match p
    case RecvWaiting(timeout, since) => RecvWoken(timeout, since)
    case SendWaiting(value, timeout, since) => SendWoken(value, timeout, since)
    case _ => p
  }

  /** Whether every thread that has been woken and has not run is needed, thread `id` among them: as many mails lie in
      the box as receivers were woken while more of them wait, or the same with free places and senders. */
  predicate Needed(s: State, id: nat) {
    id in s.clients
    && ((s.clients[id].RecvWoken? && s.recvWait != [] && |s.queue| >= |WokenReceivers(s.clients)|)
        || (s.clients[id].SendWoken? && s.sendWait != [] && s.size - |s.queue| >= |WokenSenders(s.clients)|))
  }

  /** The client rules: a thread is not deleted while it is needed, and nobody waits with the scheduler locked. */
  predicate Legal(s: State, op: Op) {
    match op
    case Send(id, _, _) => id in s.clients && s.clients[id] == Out
    case SendAgain(id) => id in s.clients && s.clients[id].SendWoken?
    case Recv(id, _) => id in s.clients && s.clients[id] == Out
    case RecvAgain(id) => id in s.clients && s.clients[id].RecvWoken?
    case Timeout(id) => id in s.clients && (s.clients[id].RecvWaiting? || s.clients[id].SendWaiting?) && s.clients[id].timeout > 0
    case Return(id) => id in s.clients && s.clients[id] == Expired
    case Delete(id) => id in s.clients && s.clients[id] != Gone && !Needed(s, id)
    case Resume(id) => id in s.clients && (s.clients[id].RecvWaiting? || s.clients[id].SendWaiting?)
    case Tick => true
  }

  function Step(s: State, op: Op): (State, Result)
    requires Legal(s, op)
  {
    match op
    case Send(id, value, timeout) => SendSection(s, id, value, timeout)
    case SendAgain(id) =>
      var c := s.clients[id];
      SendSection(s, id, c.value, Remaining(c.timeout, c.since, s.tick))
    case Recv(id, timeout) => RecvSection(s, id, timeout)
    case RecvAgain(id) =>
      var c := s.clients[id];
      RecvSection(s, id, Remaining(c.timeout, c.since, s.tick))
    case Timeout(id) => (Depart(s, id, Expired), Waits)
    case Return(id) => (SetPhase(s, id, Out), Etimeout)
    case Delete(id) => (Depart(s, id, Gone), Ok)
    case Resume(id) => (Depart(s, id, Awake(s.clients[id])), Ok)
    case Tick => (s.(tick := Wrap(s.tick + 1)), Ok)
  }

  function Init(size: nat, flag: Flag, prios: map<nat, nat>): State {
    State(size, [], [], [], flag, map id | id in prios :: Out, prios, 0, [], [])
  }

  // ---------------------------------------------------------------- the invariant

  /** The receivers that have been woken and have not run since. */
  function WokenReceivers(clients: map<nat, Phase>): set<nat> {
    set id | id in clients && clients[id].RecvWoken?
  }

  function WokenSenders(clients: map<nat, Phase>): set<nat> {
    set id | id in clients && clients[id].SendWoken?
  }

  /** The lists hold exactly the waiting threads, each once. */
  ghost predicate ListsOk(s: State) {
    && Distinct(s.recvWait) && Distinct(s.sendWait)
    && (forall id :: id in s.recvWait <==> id in s.clients && s.clients[id].RecvWaiting?)
    && (forall id :: id in s.sendWait <==> id in s.clients && s.clients[id].SendWaiting?)
  }

  /** While receivers wait there are no more mails than receivers on their way to fetch one, and while senders wait
      there are no more free places than senders on their way to fill one. */
  predicate NoneLost(s: State) {
    && (s.recvWait != [] ==> |s.queue| <= |WokenReceivers(s.clients)|)
    && (s.sendWait != [] ==> s.size - |s.queue| <= |WokenSenders(s.clients)|)
  }

  ghost predicate Inv(s: State) {
    && |s.queue| <= s.size && s.sent == s.rcvd + s.queue
    && ListsOk(s) && NoneLost(s)
  }

  /** The number of woken threads changes by at most the one thread whose phase is set. */
  lemma CountAfter(clients: map<nat, Phase>, id: nat, p: Phase)
    requires id in clients
    ensures var was := if clients[id].RecvWoken? then 1 else 0;
      var now := if p.RecvWoken? then 1 else 0;
      |WokenReceivers(clients[id := p])| == |WokenReceivers(clients)| - was + now
    ensures var was := if clients[id].SendWoken? then 1 else 0;
      var now := if p.SendWoken? then 1 else 0;
      |WokenSenders(clients[id := p])| == |WokenSenders(clients)| - was + now
  {
    var (r, w) := (WokenReceivers(clients), WokenSenders(clients));
    var (r', w') := (WokenReceivers(clients[id := p]), WokenSenders(clients[id := p]));
    SetOneAfter(r, r', id, p.RecvWoken?);
    SetOneAfter(w, w', id, p.SendWoken?);
  }

  /** A thread that is not waiting goes out of its call: the lists stay, and a woken thread is used up. */
  lemma LeaveKeeps(s: State, id: nat)
    requires ListsOk(s) && id in s.clients && !s.clients[id].RecvWaiting? && !s.clients[id].SendWaiting?
    ensures ListsOk(SetPhase(s, id, Out))
  {
  }

  lemma WakeReceiverKeeps(s: State)
    requires ListsOk(s)
    ensures var t := WakeReceiver(s);
      && ListsOk(t) && t.queue == s.queue && t.sendWait == s.sendWait && t.sent == s.sent && t.rcvd == s.rcvd
      && t.size == s.size && WokenSenders(t.clients) == WokenSenders(s.clients)
      && |WokenReceivers(t.clients)| == |WokenReceivers(s.clients)| + (if s.recvWait == [] then 0 else 1)
      && (s.recvWait == [] ==> t.recvWait == [])
  {
    if s.recvWait != [] {
      var w := s.recvWait[0];
      assert w in s.recvWait && s.recvWait == [w] + s.recvWait[1..];
      CountAfter(s.clients, w, RecvWoken(s.clients[w].timeout, s.clients[w].since));
    }
  }

  lemma WakeSenderKeeps(s: State)
    requires ListsOk(s)
    ensures var t := WakeSender(s);
      && ListsOk(t) && t.queue == s.queue && t.recvWait == s.recvWait && t.sent == s.sent && t.rcvd == s.rcvd
      && t.size == s.size && WokenReceivers(t.clients) == WokenReceivers(s.clients)
      && |WokenSenders(t.clients)| == |WokenSenders(s.clients)| + (if s.sendWait == [] then 0 else 1)
      && (s.sendWait == [] ==> t.sendWait == [])
  {
    if s.sendWait != [] {
      var w := s.sendWait[0];
      assert w in s.sendWait && s.sendWait == [w] + s.sendWait[1..];
      CountAfter(s.clients, w, SendWoken(s.clients[w].value, s.clients[w].timeout, s.clients[w].since));
    }
  }

  /** A thread that is about to send. */
  predicate Sending(s: State, id: nat) {
    id in s.clients && (s.clients[id] == Out || s.clients[id].SendWoken?)
  }

  predicate Receiving(s: State, id: nat) {
    id in s.clients && (s.clients[id] == Out || s.clients[id].RecvWoken?)
  }

  lemma PutInv(s: State, id: nat, value: word)
    requires Inv(s) && Sending(s, id) && |s.queue| < s.size
    ensures Inv(Put(SetPhase(s, id, Out), value))
  {
    var t := SetPhase(s, id, Out);
    CountAfter(s.clients, id, Out);
    LeaveKeeps(s, id);
    WakeReceiverKeeps(t.(queue := t.queue + [value], sent := t.sent + [value]));
    assert s.rcvd + (s.queue + [value]) == s.rcvd + s.queue + [value];
  }

  lemma GetInv(s: State, id: nat)
    requires Inv(s) && Receiving(s, id) && s.queue != []
    ensures Inv(Get(SetPhase(s, id, Out)))
  {
    var t := SetPhase(s, id, Out);
    CountAfter(s.clients, id, Out);
    LeaveKeeps(s, id);
    WakeSenderKeeps(t.(queue := t.queue[1..], rcvd := t.rcvd + [t.queue[0]]));
    assert s.rcvd + s.queue == s.rcvd + [s.queue[0]] + s.queue[1..];
  }

  lemma SendSectionInv(s: State, id: nat, value: word, timeout: int)
    requires Inv(s) && Sending(s, id)
    ensures Inv(SendSection(s, id, value, timeout).0)
  {
    if |s.queue| < s.size {
      PutInv(s, id, value);
    } else if timeout == 0 {
      CountAfter(s.clients, id, Out);
      LeaveKeeps(s, id);
    } else {
      CountAfter(s.clients, id, SendWaiting(value, timeout, s.tick));
      Joins(s.sendWait, s.flag, Priority(s.prios), id);
    }
  }

  lemma RecvSectionInv(s: State, id: nat, timeout: int)
    requires Inv(s) && Receiving(s, id)
    ensures Inv(RecvSection(s, id, timeout).0)
  {
    if s.queue != [] {
      GetInv(s, id);
    } else if timeout == 0 {
      CountAfter(s.clients, id, Out);
      LeaveKeeps(s, id);
    } else {
      CountAfter(s.clients, id, RecvWaiting(timeout, s.tick));
      Joins(s.recvWait, s.flag, Priority(s.prios), id);
    }
  }

  /** A thread that waits no more leaves the lists; the wake-ups stay enough if it does not take one with it. */
  lemma DepartInv(s: State, id: nat, p: Phase)
    requires Inv(s) && id in s.clients && !Needed(s, id)
    requires p == Expired || p == Gone || ((s.clients[id].RecvWaiting? || s.clients[id].SendWaiting?) && p == Awake(s.clients[id]))
    ensures Inv(Depart(s, id, p))
  {
    DepartLists(s, id, p);
    CountAfter(s.clients, id, p);
  }

  lemma DepartLists(s: State, id: nat, p: Phase)
    requires ListsOk(s) && id in s.clients && !p.RecvWaiting? && !p.SendWaiting?
    ensures ListsOk(Depart(s, id, p))
    ensures s.recvWait == [] ==> Depart(s, id, p).recvWait == []
    ensures s.sendWait == [] ==> Depart(s, id, p).sendWait == []
    ensures !s.clients[id].RecvWaiting? ==> Depart(s, id, p).recvWait == s.recvWait
    ensures !s.clients[id].SendWaiting? ==> Depart(s, id, p).sendWait == s.sendWait
  {
    Leaves(s.recvWait, id);
    Leaves(s.sendWait, id);
    if id !in s.recvWait { DropAbsent(s.recvWait, id); }
    if id !in s.sendWait { DropAbsent(s.sendWait, id); }
  }

  lemma StepInv(s: State, op: Op)
    requires Inv(s) && Legal(s, op)
    ensures Inv(Step(s, op).0)
  {
    match op
    case Send(id, value, timeout) => SendSectionInv(s, id, value, timeout);
    case SendAgain(id) =>
      SendSectionInv(s, id, s.clients[id].value, Remaining(s.clients[id].timeout, s.clients[id].since, s.tick));
    case Recv(id, timeout) => RecvSectionInv(s, id, timeout);
    case RecvAgain(id) => RecvSectionInv(s, id, Remaining(s.clients[id].timeout, s.clients[id].since, s.tick));
    case Timeout(id) => DepartInv(s, id, Expired);
    case Delete(id) => DepartInv(s, id, Gone);
    case Resume(id) => DepartInv(s, id, Awake(s.clients[id]));
    case Return(id) => CountAfter(s.clients, id, Out);
    case Tick =>
  }

  // ---------------------------------------------------------------- runs

  /** Step, for runs: what is not legal does nothing. */
  function Run(s: State, op: Op): State {
    if Legal(s, op) then Step(s, op).0 else s
  }

  /** With any number of senders and receivers, time-outs, interleavings, waiters that others resume, and threads that
      are deleted while they are not needed: mails come out in the order they went in, each once, and no wake-up is
      lost. */
  lemma RunInv(size: nat, flag: Flag, prios: map<nat, nat>, ops: seq<Op>, t: State)
    requires Reaches(Legal, Run, Init(size, flag, prios), ops, t)
    ensures Inv(t)
  {
    forall s: State, op: Op | Inv(s) && Legal(s, op)
      ensures Inv(Run(s, op))
    {
      StepInv(s, op);
    }
    RunKeeps(Inv, Legal, Run, Init(size, flag, prios), ops, t);
  }

  /** A mail does not lie in the box while receivers wait, unless one has been woken that will look for it; nor does a
      place stay free while senders wait. */
  lemma SomeoneComes(s: State)
    requires Inv(s)
    ensures s.recvWait != [] && s.queue != [] ==> exists id :: id in s.clients && s.clients[id].RecvWoken?
    ensures s.sendWait != [] && |s.queue| < s.size ==> exists id :: id in s.clients && s.clients[id].SendWoken?
  {
    if s.recvWait != [] && s.queue != [] {
      var id :| id in WokenReceivers(s.clients);
    }
    if s.sendWait != [] && |s.queue| < s.size {
      var id :| id in WokenSenders(s.clients);
    }
  }

  // ---------------------------------------------------------------- deletion, and waiting under a locked scheduler

  /** Deleting a thread keeps the lists and the mails in any case, and loses no wake-up if and only if the thread is
      not a woken one that is needed. */
  lemma DeleteExact(s: State, id: nat)
    requires Inv(s) && id in s.clients && s.clients[id] != Gone
    ensures Inv(Depart(s, id, Gone)) <==> !Needed(s, id)
    ensures ListsOk(Depart(s, id, Gone))
  {
    DepartLists(s, id, Gone);
    CountAfter(s.clients, id, Gone);
    if !Needed(s, id) { DepartInv(s, id, Gone); }
  }

  /** Threads 1 and 2 wait for a mail. */
  function TwoWaiting(): State {
    var s := Init(1, Fifo, map[1 := 10, 2 := 10, 3 := 10]);
    Run(Run(s, Recv(1, -1)), Recv(2, -1))
  }

  lemma TwoWait()
    ensures var s := Init(1, Fifo, map[1 := 10, 2 := 10, 3 := 10]);
      Legal(s, Recv(1, -1)) && Legal(Run(s, Recv(1, -1)), Recv(2, -1)) && Legal(TwoWaiting(), Send(3, 7, 0))
    ensures var s := TwoWaiting();
      && s.recvWait == [1, 2] && s.queue == [] && s.size == 1 && s.clients.Keys == {1, 2, 3}
      && s.clients[1].RecvWaiting? && s.clients[2].RecvWaiting? && s.clients[3] == Out
  {
    var a := Init(1, Fifo, map[1 := 10, 2 := 10, 3 := 10]);
    var b := Run(a, Recv(1, -1));
    assert b.recvWait == [1] && b.queue == [];
    var c := Run(b, Recv(2, -1));
    assert c.recvWait == [1, 2];
  }

  /** A mail is sent: the first of them is woken and the other one waits on. */
  lemma OneWoken(s: State)
    requires s == Run(TwoWaiting(), Send(3, 7, 0))
    ensures s.recvWait == [2] && s.queue == [7] && s.size == 1 && s.clients.Keys == {1, 2, 3}
    ensures s.clients[1].RecvWoken? && s.clients[2].RecvWaiting? && s.clients[3] == Out
  {
    TwoWait();
  }

  /** The woken one is deleted: a mail lies in the full box, a receiver waits, and nobody is on the way. */
  lemma WakeUpLost() returns (ops: seq<Op>, s: State)
    ensures Reaches(Legal, Run, Init(1, Fifo, map[1 := 10, 2 := 10, 3 := 10]), ops, s) && Inv(s)
    ensures 1 in s.clients && s.clients[1].RecvWoken? && Needed(s, 1)
    ensures var t := Depart(s, 1, Gone);
      t.recvWait == [2] && |t.queue| == t.size == 1 && WokenReceivers(t.clients) == {}
  {
    s := Run(TwoWaiting(), Send(3, 7, 0));
    TwoWait();
    OneWoken(s);
    ops := ThreeSteps(Init(1, Fifo, map[1 := 10, 2 := 10, 3 := 10]), Recv(1, -1), Recv(2, -1), Send(3, 7, 0));
    OnlyWoken(s);
    RunInv(1, Fifo, map[1 := 10, 2 := 10, 3 := 10], ops, s);
    DropAbsent([2], 1);
  }

  lemma OnlyWoken(s: State)
    requires s.clients.Keys == {1, 2, 3} && s.clients[1].RecvWoken? && !s.clients[2].RecvWoken? && !s.clients[3].RecvWoken?
    ensures |WokenReceivers(s.clients)| == 1 && WokenReceivers(Depart(s, 1, Gone).clients) == {}
  {
    assert WokenReceivers(s.clients) == {1};
  }

  lemma ThreeSteps(s: State, o: Op, p: Op, q: Op) returns (ops: seq<Op>)
    requires Legal(s, o) && Legal(Run(s, o), p) && Legal(Run(Run(s, o), p), q)
    ensures Reaches(Legal, Run, s, ops, Run(Run(Run(s, o), p), q))
  {
    var (a, b) := (Run(s, o), Run(Run(s, o), p));
    OneStep(Legal, Run, s, o);
    OneStep(Legal, Run, a, p);
    OneStep(Legal, Run, b, q);
    Continues(Legal, Run, s, [o], a, [p], b);
    Continues(Legal, Run, s, [o] + [p], b, [q], Run(b, q));
    ops := [o] + [p] + [q];
  }

  /** rt_mb_recv with the scheduler locked: rt_schedule does not switch away, and the loop tests again with the time
      that is left, while the thread is still on the list. */
  function LockedRecv(s: State, id: nat, timeout: int, left: int): State {
    var (t, r) := RecvSection(s, id, timeout);
    if r == Waits then RecvSection(t, id, left).0 else t
  }

  function LockedSend(s: State, id: nat, value: word, timeout: int, left: int): State {
    var (t, r) := SendSection(s, id, value, timeout);
    if r == Waits then SendSection(t, id, value, left).0 else t
  }

  /** Under the lock the lists stay in order if and only if the call does not have to wait. */
  lemma LockedExact(s: State, id: nat, value: word, timeout: int, left: int)
    requires Inv(s) && id in s.clients && s.clients[id] == Out
    ensures ListsOk(LockedRecv(s, id, timeout, left)) <==> s.queue != [] || timeout == 0
    ensures ListsOk(LockedSend(s, id, value, timeout, left)) <==> |s.queue| < s.size || timeout == 0
  {
    RecvSectionInv(s, id, timeout);
    SendSectionInv(s, id, value, timeout);
    if s.queue == [] && timeout != 0 {
      var t := RecvSection(s, id, timeout).0;
      assert id in t.recvWait;
      LinkedTwice(t.recvWait, t.flag, Priority(t.prios), id);
    }
    if |s.queue| == s.size && timeout != 0 {
      var t := SendSection(s, id, value, timeout).0;
      assert id in t.sendWait;
      LinkedTwice(t.sendWait, t.flag, Priority(t.prios), id);
    }
  }
}
