/** The message queue of ipc.c as a protocol, split where interrupts are enabled: a node is on its way between the
    section that takes it from one list and the section that puts it on the other. */
module MessageQueueSpec {
  import opened Words
  import opened Lists
  import opened Runs
  import opened WaitList
  import opened WaitTime

  type byte = x: int | 0 <= x < 256

  type Bytes = seq<byte>

  /** Where a thread is in rt_mq_send, rt_mq_urgent or rt_mq_recv. A sender holds a node that is empty and then filled;
      a receiver holds the node it has taken from the queue, and `mail` is what it was then. */
  datatype Stage =
    | Idle
    | Filling(node: nat, buffer: Bytes, urgent: bool)
    | Filled(node: nat, buffer: Bytes, urgent: bool)
    | Waiting(size: nat, timeout: int, since: word)
    | Woken(size: nat, timeout: int, since: word)
    | Copying(node: nat, size: nat, mail: Bytes)
    | TimedOut
    | Gone

  /** Where a node is. */
  datatype Where = InFree | InQueue | With(id: nat)

  datatype Answer = Done | Got(mail: Bytes) | Failed | Full | Late | Goes

  /** `deque` is what the queue stands for: the messages linked in and not yet taken out, front first. */
  datatype State = State(max: nat, msgSize: nat, free: seq<nat>, queue: seq<nat>, data: seq<Bytes>,
                         recvWait: seq<nat>, flag: Flag, clients: map<nat, Stage>, prios: map<nat, nat>, tick: word,
                         place: seq<Where>, deque: seq<Bytes>)

  datatype Op =
    | DoSend(id: nat, buffer: Bytes, urgent: bool)
    | DoFill(id: nat)
    | DoLink(id: nat)
    | DoRecv(id: nat, size: nat, timeout: int)
    | DoRecvAgain(id: nat)
    | DoFinish(id: nat)
    | DoTimeout(id: nat)
    | DoReturn(id: nat)
    | DoDelete(id: nat)
    | DoResume(id: nat)
    | DoTick

  // ---------------------------------------------------------------- the steps

  function At(s: State, id: nat, g: Stage): State {
    s.(clients := s.clients[id := g])
  }

  function Put(s: State, x: nat, w: Where): State {
    if x < |s.place| then s.(place := s.place[x := w]) else s
  }

  /** The first section of rt_mq_send and rt_mq_urgent: a node leaves the free list. */
  function TakeNode(s: State, id: nat, buffer: Bytes, urgent: bool): (State, Answer) {
    if |buffer| > s.msgSize then (s, Failed)
    else if s.free == [] then (s, Full)
    else (Put(At(s, id, Filling(s.free[0], buffer, urgent)), s.free[0], With(id)).(free := s.free[1..]), Goes)
  }

  /** rt_memcpy into the node: bytes beyond the buffer stay what they were. */
  function Written(slot: Bytes, buffer: Bytes): Bytes {
    if |buffer| <= |slot| then buffer + slot[|buffer|..] else slot
  }

  function Fill(s: State, id: nat): State
    requires id in s.clients && s.clients[id].Filling?
  {
    var g := s.clients[id];
    if g.node < |s.data| then
      At(s, id, Filled(g.node, g.buffer, g.urgent)).(data := s.data[g.node := Written(s.data[g.node], g.buffer)])
    else s
  }

  /** The state with the node in the queue, before a receiver is woken. */
  function Linked(s: State, id: nat): State
    requires id in s.clients && s.clients[id].Filled?
  {
    var g := s.clients[id];
    var mail := if g.node < |s.data| then s.data[g.node] else [];
    Put(At(s, id, Idle), g.node, InQueue)
      .(queue := if g.urgent then [g.node] + s.queue else s.queue + [g.node],
        deque := if g.urgent then [mail] + s.deque else s.deque + [mail])
  }

  /** The last section of sending: the node enters the queue and the first waiting receiver is woken. */
  function LinkNode(s: State, id: nat): State
    requires id in s.clients && s.clients[id].Filled?
  {
    Wake(Linked(s, id))
  }

  /** rt_ipc_list_resume */
  function Wake(s: State): State {
    if s.recvWait == [] then s
    else
      var w := s.recvWait[0];
      if w in s.clients && s.clients[w].Waiting? then
        At(s, w, Woken(s.clients[w].size, s.clients[w].timeout, s.clients[w].since)).(recvWait := s.recvWait[1..])
      else s
  }

  /** rt_mq_recv from the test of its loop to the next point where interrupts are enabled. */
  function TakeMessage(s: State, id: nat, size: nat, timeout: int): (State, Answer) {
    if s.queue == [] then
      if timeout == 0 then (At(s, id, Idle), Late)
      else (At(s, id, Waiting(size, timeout, s.tick))
              .(recvWait := Enqueue(s.recvWait, s.flag, Priority(s.prios), id)), Goes)
    else
      var x := s.queue[0];
      var mail := if x < |s.data| then s.data[x] else [];
      (Put(At(s, id, Copying(x, size, mail)), x, With(id))
         .(queue := s.queue[1..], deque := if s.deque == [] then [] else s.deque[1..]), Goes)
  }

  /** The end of rt_mq_recv: the message has been copied out and the node goes back to the free list. */
  function Finish(s: State, id: nat): (State, Answer)
    requires id in s.clients && s.clients[id].Copying?
  {
    var g := s.clients[id];
    var slot := if g.node < |s.data| then s.data[g.node] else [];
    (Put(At(s, id, Idle), g.node, InFree).(free := [g.node] + s.free),
     Got(if g.size > |slot| then slot else slot[..g.size]))
  }

  /** The thread leaves the list it waits on. */
  function Depart(s: State, id: nat, g: Stage): State {
    At(s, id, g).(recvWait := Drop(s.recvWait, id))
  }

  /** Whether the queue needs thread `id`: it holds a node, or it has been woken and has not run, while more receivers
      wait and as many messages are there as receivers were woken. */
  predicate Needed(s: State, id: nat) {
    id in s.clients
    && (Held(s.clients[id]).Some?
        || (s.clients[id].Woken? && s.recvWait != [] && |s.queue| >= |WokenOnes(s.clients)|))
  }

  /** The client rules: a thread is not deleted while it is needed, and nobody waits with the scheduler locked. */
  predicate Legal(s: State, op: Op) {
    match op
    case DoSend(id, buffer, _) => id in s.clients && s.clients[id] == Idle && buffer != []
    case DoFill(id) => id in s.clients && s.clients[id].Filling?
    case DoLink(id) => id in s.clients && s.clients[id].Filled?
    case DoRecv(id, size, _) => id in s.clients && s.clients[id] == Idle && size > 0
    case DoRecvAgain(id) => id in s.clients && s.clients[id].Woken?
    case DoFinish(id) => id in s.clients && s.clients[id].Copying?
    case DoTimeout(id) => id in s.clients && s.clients[id].Waiting? && s.clients[id].timeout > 0
    case DoReturn(id) => id in s.clients && s.clients[id] == TimedOut
    case DoDelete(id) => id in s.clients && s.clients[id] != Gone && !Needed(s, id)
    case DoResume(id) => id in s.clients && s.clients[id].Waiting?
    case DoTick => true
  }

  function Step(s: State, op: Op): (State, Answer)
    requires Legal(s, op)
  {
    match op
    case DoSend(id, buffer, urgent) => TakeNode(s, id, buffer, urgent)
    case DoFill(id) => (Fill(s, id), Goes)
    case DoLink(id) => (LinkNode(s, id), Done)
    case DoRecv(id, size, timeout) => TakeMessage(s, id, size, timeout)
    case DoRecvAgain(id) =>
      var g := s.clients[id];
      TakeMessage(s, id, g.size, Remaining(g.timeout, g.since, s.tick))
    case DoFinish(id) => Finish(s, id)
    case DoTimeout(id) => (Depart(s, id, TimedOut), Goes)
    case DoReturn(id) => (At(s, id, Idle), Late)
    case DoDelete(id) => (Depart(s, id, Gone), Done)
    case DoResume(id) => (Depart(s, id, Woken(s.clients[id].size, s.clients[id].timeout, s.clients[id].since)), Done)
    case DoTick => (s.(tick := Wrap(s.tick + 1)), Done)
  }

  /** The free list that rt_mq_init builds: the last node first. */
  function Descending(n: nat): (xs: seq<nat>)
    ensures |xs| == n
  {
    if n == 0 then [] else [n - 1] + Descending(n - 1)
  }

  function Init(max: nat, msgSize: nat, data: seq<Bytes>, flag: Flag, prios: map<nat, nat>): State {
    State(max, msgSize, Descending(max), [], data, [], flag, map id | id in prios :: Idle, prios, 0,
          seq(max, i => InFree), [])
  }

  // ---------------------------------------------------------------- the invariant

  /** The node a thread holds, if any. */
  function Held(g: Stage): Option<nat> {
    match g
    case Filling(x, _, _) => Some(x)
    case Filled(x, _, _) => Some(x)
    case Copying(x, _, _) => Some(x)
    case _ => None
  }

  /** `xs` lists exactly the nodes at `w`, each once. */
  ghost predicate ListOf(place: seq<Where>, xs: seq<nat>, w: Where) {
    Distinct(xs) && forall x: nat :: x in xs <==> x < |place| && place[x] == w
  }

  /** Every node is in exactly one place: on the free list, in the queue, or held by the one thread it is with. */
  ghost predicate Placed(s: State) {
    && |s.place| == s.max && ListOf(s.place, s.free, InFree) && ListOf(s.place, s.queue, InQueue)
    && (forall id :: id in s.clients && Held(s.clients[id]).Some? ==>
          var x := Held(s.clients[id]).value; x < s.max && s.place[x] == With(id))
    && (forall x :: 0 <= x < s.max && s.place[x].With? ==>
          var id := s.place[x].id; id in s.clients && Held(s.clients[id]) == Some(x))
  }

  function Holders(clients: map<nat, Stage>): set<nat> {
    set id | id in clients && Held(clients[id]).Some?
  }

  function WokenOnes(clients: map<nat, Stage>): set<nat> {
    set id | id in clients && clients[id].Woken?
  }

  /** The messages in the queue, front first. */
  function Mails(data: seq<Bytes>, queue: seq<nat>): seq<Bytes> {
    if queue == [] then []
    else [if queue[0] < |data| then data[queue[0]] else []] + Mails(data, queue[1..])
  }

  /** A filled node begins with the sender's bytes; a node being copied still holds the message taken. */
  ghost predicate DataOk(s: State) {
    && |s.data| == s.max && (forall x :: 0 <= x < s.max ==> |s.data[x]| == s.msgSize)
    && s.deque == Mails(s.data, s.queue)
    && (forall id :: id in s.clients ==> StageOk(s.data, s.msgSize, s.clients[id]))
  }

  predicate StageOk(data: seq<Bytes>, msgSize: nat, g: Stage) {
    && (g.Filling? ==> |g.buffer| <= msgSize)
    && (g.Filled? ==> g.node < |data| && g.buffer <= data[g.node])
    && (g.Copying? ==> g.node < |data| && data[g.node] == g.mail)
  }

  ghost predicate WaitOk(s: State) {
    && Distinct(s.recvWait) && (forall id :: id in s.recvWait <==> id in s.clients && s.clients[id].Waiting?)
    && (s.recvWait != [] ==> |s.queue| <= |WokenOnes(s.clients)|)
  }

  ghost predicate Inv(s: State) {
    && Placed(s) && DataOk(s) && WaitOk(s)
    && |s.free| + |s.queue| + |Holders(s.clients)| == s.max
  }

  lemma CountAfter(clients: map<nat, Stage>, id: nat, g: Stage)
    requires id in clients
    ensures |Holders(clients[id := g])| == |Holders(clients)| - (if Held(clients[id]).Some? then 1 else 0)
                                           + (if Held(g).Some? then 1 else 0)
    ensures |WokenOnes(clients[id := g])| == |WokenOnes(clients)| - (if clients[id].Woken? then 1 else 0)
                                             + (if g.Woken? then 1 else 0)
  {
    SetOneAfter(Holders(clients), Holders(clients[id := g]), id, Held(g).Some?);
    SetOneAfter(WokenOnes(clients), WokenOnes(clients[id := g]), id, g.Woken?);
  }

  lemma {:induction false} MailsFrame(data: seq<Bytes>, data': seq<Bytes>, queue: seq<nat>)
    requires |data'| == |data| && forall x :: x in queue && x < |data| ==> data'[x] == data[x]
    ensures Mails(data', queue) == Mails(data, queue)
  {
    if queue != [] {
      assert queue == [queue[0]] + queue[1..];
      MailsFrame(data, data', queue[1..]);
    }
  }

  lemma {:induction false} MailsAppend(data: seq<Bytes>, queue: seq<nat>, x: nat)
    requires x < |data|
    ensures Mails(data, queue + [x]) == Mails(data, queue) + [data[x]]
    ensures Mails(data, [x] + queue) == [data[x]] + Mails(data, queue)
  {
    assert ([x] + queue)[1..] == queue;
    if queue == [] {
      assert [] + [x] == [x] && [x] + [] == [x] && [x][1..] == [];
      assert Mails(data, [x]) == [data[x]] + Mails(data, []);
    } else {
      assert (queue + [x])[1..] == queue[1..] + [x];
      MailsAppend(data, queue[1..], x);
    }
  }

  lemma {:induction false} MailsLength(data: seq<Bytes>, queue: seq<nat>)
    ensures |Mails(data, queue)| == |queue|
  {
    if queue != [] { MailsLength(data, queue[1..]); }
  }

  /** A node goes from the front of a list to a thread. */
  lemma TakeFront(place: seq<Where>, xs: seq<nat>, w: Where, id: nat)
    requires ListOf(place, xs, w) && xs != [] && !w.With?
    ensures xs[0] < |place| && place[xs[0]] == w
    ensures ListOf(place[xs[0] := With(id)], xs[1..], w)
  {
    assert xs == [xs[0]] + xs[1..];
    assert xs[0] in xs;
    forall x: nat
      ensures x in xs <==> x == xs[0] || x in xs[1..]
    {
    }
  }

  /** The list at `v` does not mind a node moving between two other places. */
  lemma OtherList(place: seq<Where>, xs: seq<nat>, v: Where, x: nat, w: Where)
    requires ListOf(place, xs, v) && x < |place| && place[x] != v && w != v
    ensures ListOf(place[x := w], xs, v)
  {
  }

  /** A held node is put at the front or at the end of a list. */
  lemma GiveNode(place: seq<Where>, xs: seq<nat>, w: Where, x: nat)
    requires ListOf(place, xs, w) && x < |place| && place[x] != w
    ensures ListOf(place[x := w], [x] + xs, w) && ListOf(place[x := w], xs + [x], w)
  {
    assert ([x] + xs)[1..] == xs;
    Joins(xs, Fifo, (y: nat) => 0, x);
  }

  lemma TakeNodePlaced(s: State, id: nat, buffer: Bytes, urgent: bool)
    requires Placed(s) && id in s.clients && s.clients[id] == Idle && |buffer| <= s.msgSize && s.free != []
    ensures Placed(TakeNode(s, id, buffer, urgent).0)
  {
    var x := s.free[0];
    TakeFront(s.place, s.free, InFree, id);
    OtherList(s.place, s.queue, InQueue, x, With(id));
  }

  /** A thread that neither waited nor held a node takes one. */
  lemma HoldKeeps(s: State, id: nat, g: Stage)
    requires DataOk(s) && WaitOk(s) && id in s.clients && s.clients[id] == Idle
    requires g.Filling? && |g.buffer| <= s.msgSize
    ensures DataOk(At(s, id, g)) && WaitOk(At(s, id, g))
  {
    CountAfter(s.clients, id, g);
  }

  lemma SendInv(s: State, id: nat, buffer: Bytes, urgent: bool)
    requires Inv(s) && Legal(s, DoSend(id, buffer, urgent))
    ensures Inv(TakeNode(s, id, buffer, urgent).0)
  {
    if |buffer| <= s.msgSize && s.free != [] {
      TakeNodePlaced(s, id, buffer, urgent);
      CountAfter(s.clients, id, Filling(s.free[0], buffer, urgent));
      HoldKeeps(s, id, Filling(s.free[0], buffer, urgent));
    }
  }

  lemma FillInv(s: State, id: nat)
    requires Inv(s) && Legal(s, DoFill(id))
    ensures Inv(Fill(s, id))
  {
    var g := s.clients[id];
    var t := Fill(s, id);
    assert s.place[g.node] == With(id);
    MailsFrame(s.data, t.data, s.queue);
    CountAfter(s.clients, id, Filled(g.node, g.buffer, g.urgent));
    forall y | y in t.clients
      ensures StageOk(t.data, t.msgSize, t.clients[y])
    {
      assert StageOk(s.data, s.msgSize, s.clients[y]);
      if y != id && Held(s.clients[y]).Some? { assert s.place[Held(s.clients[y]).value] == With(y); }
    }
  }

  /** The thread gives up the node it holds to list `w`. */
  lemma ReleasePlaced(s: State, id: nat, w: Where, free: seq<nat>, queue: seq<nat>)
    requires Placed(s) && id in s.clients && Held(s.clients[id]).Some?
    requires var x := Held(s.clients[id]).value;
      if w == InFree then free == [x] + s.free && queue == s.queue
      else w == InQueue && free == s.free && (queue == [x] + s.queue || queue == s.queue + [x])
    ensures Placed(Put(At(s, id, Idle), Held(s.clients[id]).value, w).(free := free, queue := queue))
  {
    var x := Held(s.clients[id]).value;
    if w == InFree {
      GiveNode(s.place, s.free, InFree, x);
      OtherList(s.place, s.queue, InQueue, x, w);
    } else {
      GiveNode(s.place, s.queue, InQueue, x);
      OtherList(s.place, s.free, InFree, x, w);
    }
  }

  lemma WakeInv(s: State)
    requires Placed(s) && DataOk(s) && |s.free| + |s.queue| + |Holders(s.clients)| == s.max
    requires Distinct(s.recvWait) && (forall id :: id in s.recvWait <==> id in s.clients && s.clients[id].Waiting?)
    requires s.recvWait != [] ==> |s.queue| <= |WokenOnes(s.clients)| + 1
    ensures Inv(Wake(s))
  {
    if s.recvWait != [] {
      var w := s.recvWait[0];
      assert w in s.recvWait && s.recvWait == [w] + s.recvWait[1..];
      CountAfter(s.clients, w, Woken(s.clients[w].size, s.clients[w].timeout, s.clients[w].since));
    }
  }

  lemma LinkedData(s: State, id: nat)
    requires DataOk(s) && id in s.clients && s.clients[id].Filled?
    ensures DataOk(Linked(s, id))
  {
    assert StageOk(s.data, s.msgSize, s.clients[id]);
    MailsAppend(s.data, s.queue, s.clients[id].node);
  }

  lemma LinkInv(s: State, id: nat)
    requires Inv(s) && Legal(s, DoLink(id))
    ensures Inv(LinkNode(s, id))
  {
    var g := s.clients[id];
    ReleasePlaced(s, id, InQueue, s.free, Linked(s, id).queue);
    LinkedData(s, id);
    CountAfter(s.clients, id, Idle);
    WakeInv(Linked(s, id));
  }

  lemma TakeMessagePlaced(s: State, id: nat, size: nat, mail: Bytes)
    requires Placed(s) && id in s.clients && Held(s.clients[id]).None? && s.queue != []
    ensures s.queue[0] < s.max && s.place[s.queue[0]] == InQueue
    ensures Placed(Put(At(s, id, Copying(s.queue[0], size, mail)), s.queue[0], With(id)).(queue := s.queue[1..]))
  {
    var x := s.queue[0];
    TakeFront(s.place, s.queue, InQueue, id);
    OtherList(s.place, s.free, InFree, x, With(id));
  }

  lemma TakeInv(s: State, id: nat, size: nat, timeout: int)
    requires Inv(s) && id in s.clients && (s.clients[id] == Idle || s.clients[id].Woken?) && s.queue != []
    ensures Inv(TakeMessage(s, id, size, timeout).0)
  {
    var x := s.queue[0];
    assert x in s.queue && x < |s.data|;
    TakeMessagePlaced(s, id, size, s.data[x]);
    CountAfter(s.clients, id, Copying(x, size, s.data[x]));
    TakeData(s, id, size, timeout);
    TakeWait(s, id, size, timeout);
  }

  lemma TakeData(s: State, id: nat, size: nat, timeout: int)
    requires DataOk(s) && id in s.clients && s.queue != [] && s.queue[0] < |s.data|
    ensures DataOk(TakeMessage(s, id, size, timeout).0)
  {
    assert s.deque[1..] == Mails(s.data, s.queue[1..]);
  }

  lemma TakeWait(s: State, id: nat, size: nat, timeout: int)
    requires WaitOk(s) && id in s.clients && (s.clients[id] == Idle || s.clients[id].Woken?) && s.queue != []
    requires s.queue[0] < |s.data|
    ensures WaitOk(TakeMessage(s, id, size, timeout).0)
  {
    CountAfter(s.clients, id, Copying(s.queue[0], size, s.data[s.queue[0]]));
  }

  lemma WaitInv(s: State, id: nat, size: nat, timeout: int)
    requires Inv(s) && id in s.clients && (s.clients[id] == Idle || s.clients[id].Woken?) && s.queue == []
    ensures Inv(TakeMessage(s, id, size, timeout).0)
  {
    var g := if timeout == 0 then Idle else Waiting(size, timeout, s.tick);
    CountAfter(s.clients, id, g);
    StageKeeps(s, id, g);
    if timeout != 0 { Joins(s.recvWait, s.flag, Priority(s.prios), id); }
  }

  /** A thread without a node goes to a stage without a node. */
  lemma StageKeeps(s: State, id: nat, g: Stage)
    requires Placed(s) && DataOk(s) && id in s.clients && Held(s.clients[id]).None? && Held(g).None?
    ensures Placed(At(s, id, g)) && DataOk(At(s, id, g))
  {
  }

  lemma RecvInv(s: State, id: nat, size: nat, timeout: int)
    requires Inv(s) && id in s.clients && (s.clients[id] == Idle || s.clients[id].Woken?)
    ensures Inv(TakeMessage(s, id, size, timeout).0)
  {
    if s.queue != [] {
      TakeInv(s, id, size, timeout);
    } else {
      WaitInv(s, id, size, timeout);
    }
  }

  lemma FinishInv(s: State, id: nat)
    requires Inv(s) && Legal(s, DoFinish(id))
    ensures Inv(Finish(s, id).0)
  {
    ReleasePlaced(s, id, InFree, [s.clients[id].node] + s.free, s.queue);
    CountAfter(s.clients, id, Idle);
  }

  /** A thread that holds no node leaves the list; the wake-ups stay enough if it does not take one with it. */
  lemma DepartInv(s: State, id: nat, g: Stage)
    requires Inv(s) && id in s.clients && !Needed(s, id)
    requires g == TimedOut || g == Gone || (g.Woken? && s.clients[id].Waiting?)
    ensures Inv(Depart(s, id, g))
  {
    CountAfter(s.clients, id, g);
    StageKeeps(s, id, g);
    DepartList(s, id, g);
    DepartWait(s, id, g);
  }

  lemma DepartList(s: State, id: nat, g: Stage)
    requires WaitOk(s) && id in s.clients && !g.Waiting?
    ensures var ws := Depart(s, id, g).recvWait;
      && Distinct(ws) && (forall x :: x in ws <==> x in s.recvWait && x != id)
      && (s.recvWait == [] ==> ws == []) && (!s.clients[id].Waiting? ==> ws == s.recvWait)
  {
    Leaves(s.recvWait, id);
    if id !in s.recvWait { DropAbsent(s.recvWait, id); }
  }

  lemma DepartWait(s: State, id: nat, g: Stage)
    requires WaitOk(s) && id in s.clients && !Needed(s, id)
    requires g == TimedOut || g == Gone || (g.Woken? && s.clients[id].Waiting?)
    ensures WaitOk(Depart(s, id, g))
  {
    CountAfter(s.clients, id, g);
    DepartList(s, id, g);
  }

  lemma StepInv(s: State, op: Op)
    requires Inv(s) && Legal(s, op)
    ensures Inv(Step(s, op).0)
  {
    match op
    case DoSend(id, buffer, urgent) => SendInv(s, id, buffer, urgent);
    case DoFill(id) => FillInv(s, id);
    case DoLink(id) => LinkInv(s, id);
    case DoRecv(id, size, timeout) => RecvInv(s, id, size, timeout);
    case DoRecvAgain(id) =>
      RecvInv(s, id, s.clients[id].size, Remaining(s.clients[id].timeout, s.clients[id].since, s.tick));
    case DoFinish(id) => FinishInv(s, id);
    case DoTimeout(id) => DepartInv(s, id, TimedOut);
    case DoReturn(id) => CountAfter(s.clients, id, Idle);
    case DoDelete(id) => DepartInv(s, id, Gone);
    case DoResume(id) => DepartInv(s, id, Woken(s.clients[id].size, s.clients[id].timeout, s.clients[id].since));
    case DoTick =>
  }

  lemma {:induction false} DescendingIs(n: nat)
    ensures Distinct(Descending(n)) && forall x: nat :: x in Descending(n) <==> x < n
  {
    if n > 0 { DescendingIs(n - 1); }
  }

  lemma InitInv(max: nat, msgSize: nat, data: seq<Bytes>, flag: Flag, prios: map<nat, nat>)
    requires |data| == max && forall x :: 0 <= x < max ==> |data[x]| == msgSize
    ensures Inv(Init(max, msgSize, data, flag, prios))
  {
    DescendingIs(max);
    var s := Init(max, msgSize, data, flag, prios);
    assert Holders(s.clients) == {};
  }

  /** Step, for runs: what is not legal does nothing. */
  function Run(s: State, op: Op): State {
    if Legal(s, op) then Step(s, op).0 else s
  }

  /** With any interleaving of the sections of any number of senders and receivers, waiters that others resume, and
      threads that are deleted while they are not needed: every node is in one place, the queue is a deque of messages,
      and no wake-up is lost. */
  lemma RunInv(max: nat, msgSize: nat, data: seq<Bytes>, flag: Flag, prios: map<nat, nat>, ops: seq<Op>, t: State)
    requires |data| == max && forall x :: 0 <= x < max ==> |data[x]| == msgSize
    requires Reaches(Legal, Run, Init(max, msgSize, data, flag, prios), ops, t)
    ensures Inv(t)
  {
    InitInv(max, msgSize, data, flag, prios);
    forall s: State, op: Op | Inv(s) && Legal(s, op)
      ensures Inv(Run(s, op))
    {
      StepInv(s, op);
    }
    RunKeeps(Inv, Legal, Run, Init(max, msgSize, data, flag, prios), ops, t);
  }

  // ---------------------------------------------------------------- what is sent and what is received

  predicate Extended(before: seq<Bytes>, after: seq<Bytes>, mail: Bytes, urgent: bool) {
    after == if urgent then [mail] + before else before + [mail]
  }

  /** The section that links a message in puts it at the end of the deque, an urgent one at the front; the message
      begins with the sender's bytes. */
  lemma LinkExtends(s: State, id: nat)
    requires Inv(s) && Legal(s, DoLink(id))
    ensures exists mail :: s.clients[id].buffer <= mail && Extended(s.deque, LinkNode(s, id).deque, mail, s.clients[id].urgent)
  {
    var mail := s.data[s.clients[id].node];
    assert StageOk(s.data, s.msgSize, s.clients[id]);
    assert s.clients[id].buffer <= mail && Extended(s.deque, LinkNode(s, id).deque, mail, s.clients[id].urgent);
  }

  /** The section that takes a message out takes the front of the deque. */
  lemma TakePops(s: State, id: nat, size: nat, timeout: int)
    requires Inv(s) && s.queue != []
    ensures s.deque != []
    ensures var t := TakeMessage(s, id, size, timeout).0;
      && id in t.clients && t.clients[id].Copying?
      && t.clients[id].mail == s.deque[0] && t.clients[id].size == size && t.deque == s.deque[1..]
  {
    MailsLength(s.data, s.queue);
    assert s.queue[0] in s.queue;
  }

  /** What rt_mq_recv returns is that message, cut to the size asked for, whatever other threads did in between. */
  lemma FinishReturns(s: State, id: nat)
    requires Inv(s) && Legal(s, DoFinish(id))
    ensures var g := s.clients[id];
      Finish(s, id).1 == Got(if g.size > |g.mail| then g.mail else g.mail[..g.size])
  {
    assert StageOk(s.data, s.msgSize, s.clients[id]);
  }

  /** Whatever another thread does, the node that a receiver copies from stays with it and keeps its bytes. */
  lemma CopyUndisturbed(s: State, op: Op, id: nat)
    requires Inv(s) && Legal(s, op) && id in s.clients && s.clients[id].Copying?
    requires op.DoTick? || op.id != id
    ensures id in Step(s, op).0.clients && Step(s, op).0.clients[id] == s.clients[id]
    ensures var x := s.clients[id].node;
      x < |s.data| && x < |Step(s, op).0.data| && Step(s, op).0.data[x] == s.data[x] == s.clients[id].mail
  {
    var x := s.clients[id].node;
    assert s.place[x] == With(id);
    assert StageOk(s.data, s.msgSize, s.clients[id]);
    if op.DoFill? { assert s.place[s.clients[op.id].node] == With(op.id); }
  }

  /** Steps that thread `id` does not make. */
  function ByOthers(id: nat): (State, Op) -> bool {
    (s: State, op: Op) => Legal(s, op) && (op.DoTick? || op.id != id)
  }

  /** The size a receive step asks for. */
  function AskedFor(s: State, op: Op): nat
    requires Legal(s, op) && (op.DoRecv? || op.DoRecvAgain?)
  {
    if op.DoRecv? then op.size else s.clients[op.id].size
  }

  /** What rt_mq_recv returns, whether it found a message at once or waited first, is the message that was at the front
      of the deque when it took it, cut to the size asked for, whatever other threads do before it has copied it out. */
  lemma RecvDelivers(s: State, op: Op, ops: seq<Op>, t: State)
    requires Inv(s) && Legal(s, op) && (op.DoRecv? || op.DoRecvAgain?) && s.queue != []
    requires Reaches(ByOthers(op.id), Run, Step(s, op).0, ops, t)
    ensures s.deque != [] && Legal(t, DoFinish(op.id))
    ensures var (mail, size) := (s.deque[0], AskedFor(s, op));
      Finish(t, op.id).1 == Got(if size > |mail| then mail else mail[..size])
  {
    var (id, u) := (op.id, Step(s, op).0);
    RecvTakes(s, op);
    StepInv(s, op);
    var g := u.clients[id];
    var inv := (x: State) => Inv(x) && id in x.clients && x.clients[id] == g;
    forall x: State, o: Op | inv(x) && ByOthers(id)(x, o)
      ensures inv(Run(x, o))
    {
      StepInv(x, o);
      CopyUndisturbed(x, o, id);
    }
    RunKeeps(inv, ByOthers(id), Run, u, ops, t);
    FinishReturns(t, id);
  }

  lemma RecvTakes(s: State, op: Op)
    requires Inv(s) && Legal(s, op) && (op.DoRecv? || op.DoRecvAgain?) && s.queue != []
    ensures s.deque != []
    ensures var t := Step(s, op).0;
      && op.id in t.clients && t.clients[op.id].Copying?
      && t.clients[op.id].mail == s.deque[0] && t.clients[op.id].size == AskedFor(s, op)
  {
    var c := s.clients[op.id];
    if op.DoRecv? {
      TakePops(s, op.id, op.size, op.timeout);
    } else {
      TakePops(s, op.id, c.size, Remaining(c.timeout, c.since, s.tick));
    }
  }

  /** rt_mq_send reports a full queue exactly when all nodes are in the queue or on their way. */
  lemma FullExact(s: State, id: nat, buffer: Bytes, urgent: bool)
    requires Inv(s) && Legal(s, DoSend(id, buffer, urgent)) && |buffer| <= s.msgSize
    ensures TakeNode(s, id, buffer, urgent).1 == Full <==> |s.queue| + |Holders(s.clients)| == s.max
  {
  }

  // ---------------------------------------------------------------- deletion, and waiting under a locked scheduler

  /** Deleting a thread keeps every node in one place and loses no wake-up if and only if the thread is not needed. */
  lemma DeleteExact(s: State, id: nat)
    requires Inv(s) && id in s.clients && s.clients[id] != Gone
    ensures Inv(Depart(s, id, Gone)) <==> !Needed(s, id)
  {
    CountAfter(s.clients, id, Gone);
    DepartList(s, id, Gone);
    if !Needed(s, id) { DepartInv(s, id, Gone); }
  }

  /** A node that a deleted thread held is on no list and with nobody: from then on it is missing. */
  lemma NodeLost(s: State, id: nat)
    requires Inv(s) && id in s.clients && Held(s.clients[id]).Some?
    ensures var (t, x) := (Depart(s, id, Gone), Held(s.clients[id]).value);
      && x < t.max && x !in t.free && x !in t.queue
      && (forall y :: y in t.clients ==> Held(t.clients[y]) != Some(x))
      && |t.free| + |t.queue| + |Holders(t.clients)| == t.max - 1
  {
    CountAfter(s.clients, id, Gone);
    assert s.place[Held(s.clients[id]).value] == With(id);
    forall y | y in s.clients && y != id
      ensures Held(s.clients[y]) != Held(s.clients[id])
    {
      OneHolder(s, id, y);
    }
  }

  lemma OneHolder(s: State, a: nat, b: nat)
    requires Placed(s) && a in s.clients && b in s.clients && a != b && Held(s.clients[a]).Some?
    ensures Held(s.clients[b]) != Held(s.clients[a])
  {
  }

  /** A sender that is deleted after its first section: the queue of one message takes none any more. */
  lemma NodeLostReached(prios: map<nat, nat>, buffer: Bytes) returns (ops: seq<Op>, t: State)
    requires 1 in prios && 0 < |buffer| <= 4
    ensures Reaches(Legal, Run, Init(1, 4, [[0, 0, 0, 0]], Fifo, prios), ops, t) && Inv(t) && 1 in t.clients && Needed(t, 1)
    ensures Depart(t, 1, Gone).free == [] && Depart(t, 1, Gone).queue == [] && Holders(Depart(t, 1, Gone).clients) == {}
  {
    var s := Init(1, 4, [[0, 0, 0, 0]], Fifo, prios);
    InitInv(1, 4, [[0, 0, 0, 0]], Fifo, prios);
    assert Descending(1) == [0] + Descending(0);
    ops, t := [DoSend(1, buffer, false)], Step(s, DoSend(1, buffer, false)).0;
    OneStep(Legal, Run, s, DoSend(1, buffer, false));
    StepInv(s, DoSend(1, buffer, false));
    CountAfter(t.clients, 1, Gone);
    assert Holders(t.clients) == {1};
  }

  /** rt_mq_recv with the scheduler locked: rt_schedule does not switch away, and the loop tests again with the time
      that is left, while the thread is still on the list. */
  function LockedRecv(s: State, id: nat, size: nat, timeout: int, left: int): State {
    var (t, r) := TakeMessage(s, id, size, timeout);
    if s.queue == [] && timeout != 0 then TakeMessage(t, id, size, left).0 else t
  }

  /** Under the lock the list of receivers stays in order if and only if the call does not have to wait. */
  lemma LockedExact(s: State, id: nat, size: nat, timeout: int, left: int)
    requires Inv(s) && id in s.clients && s.clients[id] == Idle
    ensures WaitOk(LockedRecv(s, id, size, timeout, left)) <==> s.queue != [] || timeout == 0
  {
    RecvInv(s, id, size, timeout);
    if s.queue == [] && timeout != 0 {
      var t := TakeMessage(s, id, size, timeout).0;
      assert id in t.recvWait;
      LinkedTwice(t.recvWait, t.flag, Priority(t.prios), id);
    }
  }
}
