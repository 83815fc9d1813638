/** The event object of ipc.c: which waiting threads a send wakes, what they receive, and which bits are left. */
module EventSpec {
  import opened Lists
  import opened Runs
  import opened WaitList

  /** The bits that are set in a word, by number. */
  type Bits = set<nat>

  /** RT_EVENT_FLAG_AND, RT_EVENT_FLAG_OR and RT_EVENT_FLAG_CLEAR */
  datatype Flags = Flags(and: bool, or: bool, clear: bool)

  /** Where a thread is in rt_event_recv: waiting for bits, woken with the bits it has received, or timed out. */
  datatype Stage =
    | Idle
    | Waiting(want: Bits, option: Flags, timed: bool)
    | Woken(got: Bits)
    | TimedOut
    | Gone

  datatype Result = Ok | Received(got: Bits) | Error | Etimeout | Waits

  datatype State = State(bits: Bits, waiters: seq<nat>, flag: Flag, clients: map<nat, Stage>, prios: map<nat, nat>)

  datatype Op =
    | DoSend(bits: Bits)
    | DoRecv(id: nat, want: Bits, option: Flags, timeout: int)
    | DoTimeout(id: nat)
    | DoReturn(id: nat)
    | DoDelete(id: nat)

  // ---------------------------------------------------------------- the steps

  /** The condition of a receiver: all of its bits, or any of them; AND goes before OR. */
  predicate Satisfied(bits: Bits, want: Bits, option: Flags) {
    if option.and then want <= bits else option.or && bits * want != {}
  }

  /** What is left of `bits` once a receiver has got its bits. */
  function Rest(bits: Bits, want: Bits, option: Flags): Bits {
    if option.clear then bits - want else bits
  }

  /** What rt_event_recv does when the condition holds: the bits it reports and those it leaves. */
  function Deliver(bits: Bits, want: Bits, option: Flags): (Bits, Bits) {
    (bits * want, Rest(bits, want, option))
  }

  /** `taken` collects the bits that receivers with the CLEAR option have received. */
  datatype Walked = Walked(bits: Bits, waiters: seq<nat>, clients: map<nat, Stage>, taken: Bits)

  /** The waiting threads one after another, each receiving as if it called rt_event_recv at that moment. */
  function Walk(ws: seq<nat>, bits: Bits, clients: map<nat, Stage>): Walked {
    if ws == [] then Walked(bits, [], clients, {})
    else if ws[0] in clients && clients[ws[0]].Waiting? && Satisfied(bits, clients[ws[0]].want, clients[ws[0]].option) then
      var c := clients[ws[0]];
      var (got, rest) := Deliver(bits, c.want, c.option);
      var w := Walk(ws[1..], rest, clients[ws[0] := Woken(got)]);
      w.(taken := w.taken + if c.option.clear then got else {})
    else
      var w := Walk(ws[1..], bits, clients);
      w.(waiters := [ws[0]] + w.waiters)
  }

  function Send(s: State, bits: Bits): (State, Result) {
    if bits == {} then (s, Error)
    else
      var w := Walk(s.waiters, s.bits + bits, s.clients);
      (s.(bits := w.bits, waiters := w.waiters, clients := w.clients), Ok)
  }

  function Recv(s: State, id: nat, want: Bits, option: Flags, timeout: int): (State, Result) {
    if want == {} then (s, Error)
    else if Satisfied(s.bits, want, option) then
      (s.(bits := Deliver(s.bits, want, option).1), Received(Deliver(s.bits, want, option).0))
    else if timeout == 0 then (s, Etimeout)
    else
      (s.(clients := s.clients[id := Waiting(want, option, timeout > 0)],
          waiters := Enqueue(s.waiters, s.flag, Priority(s.prios), id)), Waits)
  }

  /** rt_event_recv with nothing between its section and its rt_schedule. Under a locked scheduler a thread that has to
      wait runs on, finds no error, and returns the bits it asked for. */
  function RecvCall(s: State, id: nat, want: Bits, option: Flags, timeout: int, locked: bool): (State, Result) {
    var (t, r) := Recv(s, id, want, option, timeout);
    (t, if r == Waits && locked then Received(want) else r)
  }

  /** The client rules: nobody waits with the scheduler locked, and waiters are woken by sends only. */
  predicate Legal(s: State, op: Op) {
    match op
    case DoSend(_) => true
    case DoRecv(id, _, option, _) => id in s.clients && s.clients[id] == Idle && (option.and || option.or)
    case DoTimeout(id) => id in s.clients && s.clients[id].Waiting? && s.clients[id].timed
    case DoReturn(id) => id in s.clients && (s.clients[id].Woken? || s.clients[id] == TimedOut)
    case DoDelete(id) => id in s.clients
  }

  function Step(s: State, op: Op): (State, Result)
    requires Legal(s, op)
  {
    match op
    case DoSend(bits) => Send(s, bits)
    case DoRecv(id, want, option, timeout) => Recv(s, id, want, option, timeout)
    case DoTimeout(id) => (s.(clients := s.clients[id := TimedOut], waiters := Drop(s.waiters, id)), Waits)
    case DoReturn(id) =>
      (s.(clients := s.clients[id := Idle]), if s.clients[id].Woken? then Received(s.clients[id].got) else Etimeout)
    case DoDelete(id) => (s.(clients := s.clients[id := Gone], waiters := Drop(s.waiters, id)), Ok)
  }

  function Init(flag: Flag, prios: map<nat, nat>): State {
    State({}, [], flag, map id | id in prios :: Idle, prios)
  }

  // ---------------------------------------------------------------- the invariant

  ghost predicate ListOk(ws: seq<nat>, clients: map<nat, Stage>) {
    Distinct(ws) && forall id :: id in ws <==> id in clients && clients[id].Waiting?
  }

  /** Nobody waits for what is there. */
  predicate NoneSatisfied(ws: seq<nat>, bits: Bits, clients: map<nat, Stage>) {
    forall id :: id in ws && id in clients && clients[id].Waiting? ==>
      !Satisfied(bits, clients[id].want, clients[id].option)
  }

  ghost predicate Inv(s: State) {
    ListOk(s.waiters, s.clients) && NoneSatisfied(s.waiters, s.bits, s.clients)
  }

  /** Taking bits away satisfies nobody. */
  lemma FewerBits(bits: Bits, fewer: Bits, want: Bits, option: Flags)
    requires !Satisfied(bits, want, option) && fewer <= bits
    ensures !Satisfied(fewer, want, option)
  {
  }

  /** A walk takes away exactly the bits that receivers with the CLEAR option report. */
  lemma {:induction false} WalkTakes(ws: seq<nat>, bits: Bits, clients: map<nat, Stage>)
    ensures var w := Walk(ws, bits, clients); w.bits == bits - w.taken && w.taken <= bits
    decreases |ws|
  {
    if ws != [] {
      if ws[0] in clients && clients[ws[0]].Waiting? && Satisfied(bits, clients[ws[0]].want, clients[ws[0]].option) {
        var c := clients[ws[0]];
        var (got, rest) := Deliver(bits, c.want, c.option);
        WalkTakes(ws[1..], rest, clients[ws[0] := Woken(got)]);
      } else {
        WalkTakes(ws[1..], bits, clients);
      }
    }
  }

  /** The threads that stay are a part of the list, in order, and their stages are what they were; the others have
      been woken; threads that were not on the list are left alone. */
  lemma {:induction false} WalkLists(ws: seq<nat>, bits: Bits, clients: map<nat, Stage>)
    requires Distinct(ws) && forall id :: id in ws ==> id in clients && clients[id].Waiting?
    ensures var w := Walk(ws, bits, clients);
      && Distinct(w.waiters) && (forall id :: id in w.waiters ==> id in ws) && w.clients.Keys == clients.Keys
      && (forall id :: id in clients && (id !in ws || id in w.waiters) ==> w.clients[id] == clients[id])
      && (forall id :: id in ws && id !in w.waiters ==> w.clients[id].Woken?)
    decreases |ws|
  {
    if ws != [] {
      assert ws == [ws[0]] + ws[1..];
      if Satisfied(bits, clients[ws[0]].want, clients[ws[0]].option) {
        var c := clients[ws[0]];
        var (got, rest) := Deliver(bits, c.want, c.option);
        WalkLists(ws[1..], rest, clients[ws[0] := Woken(got)]);
      } else {
        WalkLists(ws[1..], bits, clients);
        var w := Walk(ws[1..], bits, clients);
        assert ([ws[0]] + w.waiters)[1..] == w.waiters;
      }
    }
  }

  /** Whoever stays could not be served, not even with the bits that are left in the end. */
  lemma {:induction false} WalkServes(ws: seq<nat>, bits: Bits, clients: map<nat, Stage>)
    requires Distinct(ws) && forall id :: id in ws ==> id in clients && clients[id].Waiting?
    ensures var w := Walk(ws, bits, clients); NoneSatisfied(w.waiters, w.bits, w.clients)
    decreases |ws|
  {
    if ws != [] {
      assert ws == [ws[0]] + ws[1..];
      var c := clients[ws[0]];
      if Satisfied(bits, c.want, c.option) {
        WalkServes(ws[1..], Deliver(bits, c.want, c.option).1, clients[ws[0] := Woken(Deliver(bits, c.want, c.option).0)]);
      } else {
        WalkServes(ws[1..], bits, clients);
        WalkLists(ws[1..], bits, clients);
        WalkTakes(ws[1..], bits, clients);
        FewerBits(bits, Walk(ws[1..], bits, clients).bits, c.want, c.option);
      }
    }
  }

  lemma WalkInv(ws: seq<nat>, bits: Bits, clients: map<nat, Stage>, w: Walked)
    requires ListOk(ws, clients) && w == Walk(ws, bits, clients)
    ensures ListOk(w.waiters, w.clients) && NoneSatisfied(w.waiters, w.bits, w.clients)
  {
    WalkLists(ws, bits, clients);
    WalkServes(ws, bits, clients);
  }

  lemma SendInv(s: State, bits: Bits)
    requires Inv(s)
    ensures Inv(Send(s, bits).0)
  {
    if bits != {} {
      WalkInv(s.waiters, s.bits + bits, s.clients, Walk(s.waiters, s.bits + bits, s.clients));
    }
  }

  lemma RecvInv(s: State, id: nat, want: Bits, option: Flags, timeout: int)
    requires Inv(s) && Legal(s, DoRecv(id, want, option, timeout))
    ensures Inv(Recv(s, id, want, option, timeout).0)
  {
    if want == {} {
    } else if Satisfied(s.bits, want, option) {
      forall x | x in s.waiters
        ensures !Satisfied(Deliver(s.bits, want, option).1, s.clients[x].want, s.clients[x].option)
      {
        FewerBits(s.bits, Deliver(s.bits, want, option).1, s.clients[x].want, s.clients[x].option);
      }
    } else if timeout != 0 {
      Joins(s.waiters, s.flag, Priority(s.prios), id);
    }
  }

  lemma StepInv(s: State, op: Op)
    requires Inv(s) && Legal(s, op)
    ensures Inv(Step(s, op).0)
  {
    match op
    case DoSend(bits) => SendInv(s, bits);
    case DoRecv(id, want, option, timeout) => RecvInv(s, id, want, option, timeout);
    case DoTimeout(id) => Leaves(s.waiters, id);
    case DoReturn(id) =>
    case DoDelete(id) => Leaves(s.waiters, id);
  }

  // ---------------------------------------------------------------- runs

  /** Between the steps of every run, with threads that are deleted at any moment, no thread waits for bits that are
      set. */
  lemma RunInv(flag: Flag, prios: map<nat, nat>, ops: seq<Op>, t: State)
    requires Reaches(Legal, (s: State, op: Op) => if Legal(s, op) then Step(s, op).0 else s, Init(flag, prios), ops, t)
    ensures Inv(t)
  {
    var step := (s: State, op: Op) => if Legal(s, op) then Step(s, op).0 else s;
    forall s: State, op: Op | Inv(s) && Legal(s, op)
      ensures Inv(step(s, op))
    {
      StepInv(s, op);
    }
    RunKeeps(Inv, Legal, step, Init(flag, prios), ops, t);
  }

  /** A send loses no bits: what is set afterwards, together with what receivers with the CLEAR option have been given,
      is what was set before and what has been sent. */
  lemma SendConserves(s: State, bits: Bits)
    requires bits != {}
    ensures var taken := Walk(s.waiters, s.bits + bits, s.clients).taken;
      Send(s, bits).0.bits + taken == s.bits + bits && Send(s, bits).0.bits * taken == {}
  {
    WalkTakes(s.waiters, s.bits + bits, s.clients);
  }

  /** The first waiter is woken exactly if its condition holds now. */
  lemma FirstIsServed(ws: seq<nat>, bits: Bits, clients: map<nat, Stage>, w: Walked)
    requires Distinct(ws) && (forall id :: id in ws ==> id in clients && clients[id].Waiting?)
    requires ws != [] && w == Walk(ws, bits, clients)
    ensures ws[0] in clients && clients[ws[0]].Waiting? && ws[0] in w.clients
    ensures var c := clients[ws[0]];
      && (Satisfied(bits, c.want, c.option) <==> ws[0] !in w.waiters)
      && (ws[0] !in w.waiters ==> w.clients[ws[0]] == Woken(Deliver(bits, c.want, c.option).0))
  {
    assert ws[0] in ws && ws == [ws[0]] + ws[1..];
    var c := clients[ws[0]];
    WalkLists(ws, bits, clients);
    if Satisfied(bits, c.want, c.option) {
      var (got, rest) := Deliver(bits, c.want, c.option);
      WalkLists(ws[1..], rest, clients[ws[0] := Woken(got)]);
    }
  }

  /** A walk over two lists is a walk over the first and then, with the bits that are left, over the second. */
  lemma {:induction false} WalkAppend(a: seq<nat>, b: seq<nat>, bits: Bits, clients: map<nat, Stage>)
    ensures var wa := Walk(a, bits, clients);
      var wb := Walk(b, wa.bits, wa.clients);
      Walk(a + b, bits, clients) == Walked(wb.bits, wa.waiters + wb.waiters, wb.clients, wa.taken + wb.taken)
    decreases |a|
  {
    if a == [] {
      assert a + b == b;
    } else {
      assert (a + b)[1..] == a[1..] + b;
      if a[0] in clients && clients[a[0]].Waiting? && Satisfied(bits, clients[a[0]].want, clients[a[0]].option) {
        var (got, rest) := Deliver(bits, clients[a[0]].want, clients[a[0]].option);
        WalkAppend(a[1..], b, rest, clients[a[0] := Woken(got)]);
      } else {
        WalkAppend(a[1..], b, bits, clients);
      }
    }
  }

  /** Every waiter is woken exactly if its condition holds for the bits that those in front of it have left, and then
      receives what rt_event_recv would have given it for these. */
  lemma EachIsServed(ws: seq<nat>, bits: Bits, clients: map<nat, Stage>, i: nat)
    requires ListOk(ws, clients) && i < |ws|
    ensures ws[i] in clients && clients[ws[i]].Waiting?
    ensures var (c, left, w) := (clients[ws[i]], Walk(ws[..i], bits, clients).bits, Walk(ws, bits, clients));
      && ws[i] in w.clients
      && (Satisfied(left, c.want, c.option) <==> ws[i] !in w.waiters)
      && (ws[i] !in w.waiters ==> w.clients[ws[i]] == Woken(Deliver(left, c.want, c.option).0))
  {
    var (a, b) := (ws[..i], ws[i..]);
    assert ws == a + b && b[0] == ws[i] && ws[i] in ws;
    WalkAppend(a, b, bits, clients);
    SplitDistinct(a, b);
    assert forall id :: id in a ==> id in ws;
    WalkLists(a, bits, clients);
    var wa := Walk(a, bits, clients);
    forall id | id in b
      ensures id in wa.clients && wa.clients[id] == clients[id] && clients[id].Waiting?
    {
      assert id in ws;
    }
    FirstIsServed(b, wa.bits, wa.clients, Walk(b, wa.bits, wa.clients));
  }

  /** The two halves of a list without repetition have nothing in common. */
  lemma {:induction false} SplitDistinct(a: seq<nat>, b: seq<nat>)
    requires Distinct(a + b)
    ensures Distinct(a) && Distinct(b) && forall x :: x in a ==> x !in b
    decreases |a|
  {
    if a == [] {
      assert a + b == b;
    } else {
      assert (a + b)[1..] == a[1..] + b;
      SplitDistinct(a[1..], b);
      assert a == [a[0]] + a[1..];
    }
  }

  /** rt_event_recv returns RT_EOK although the condition of the thread does not hold if and only if it has to wait
      while the scheduler is locked; it then reports the bits asked for. */
  lemma LockedExact(s: State, id: nat, want: Bits, option: Flags, timeout: int, locked: bool)
    ensures RecvCall(s, id, want, option, timeout, locked).1.Received? && !Satisfied(s.bits, want, option)
      <==> locked && want != {} && timeout != 0 && !Satisfied(s.bits, want, option)
    ensures var r := RecvCall(s, id, want, option, timeout, locked).1;
      r.Received? ==> r.got == if Satisfied(s.bits, want, option) then s.bits * want else want
  {
  }

  /** The same happens to a waiter that another thread resumes: what it has asked for is what it returns, and at that
      moment its condition does not hold. */
  lemma ResumedWithoutBits(s: State, id: nat)
    requires Inv(s) && id in s.clients && s.clients[id].Waiting?
    ensures var c := s.clients[id];
      var t := s.(clients := s.clients[id := Woken(c.want)], waiters := Drop(s.waiters, id));
      && Legal(t, DoReturn(id)) && Step(t, DoReturn(id)).1 == Received(c.want)
      && !Satisfied(t.bits, c.want, c.option)
  {
    assert id in s.waiters;
  }
}
