/** What becomes of every bit that is sent to an event: who receives it, and when it is gone. */
module EventRuns {
  import opened Lists
  import opened Runs
  import opened WaitList
  import opened EventSpec

  // ---------------------------------------------------------------- what rt_event_recv answers

  /** rt_event_recv fails exactly if it asks for no bit; returns at once exactly if its condition holds, with those of
      the bits set that it asked for, and then leaves what was set without the bits asked for if it clears and all of
      it if it does not; otherwise it is late exactly if it may not wait, and waits exactly if it may. In all cases
      but the second the bits stay as they are. */
  lemma RecvAnswers(s: State, op: Op)
    requires Inv(s) && Legal(s, op) && op.DoRecv?
    ensures var ((t, r), holds) := (Step(s, op), if op.option.and then op.want <= s.bits else s.bits * op.want != {});
      && (r == Error <==> op.want == {})
      && (r.Received? <==> op.want != {} && holds)
      && (r == Etimeout <==> op.want != {} && !holds && op.timeout == 0)
      && (r == Waits <==> op.want != {} && !holds && op.timeout != 0)
      && (r.Received? ==> r.got == s.bits * op.want && t.bits == (if op.option.clear then s.bits - op.want else s.bits))
      && (!r.Received? ==> t.bits == s.bits)
      && (r != Waits ==> t == s.(bits := t.bits))
      && (r == Waits ==>
            && t == s.(clients := s.clients[op.id := Waiting(op.want, op.option, op.timeout > 0)], waiters := t.waiters)
            && Joined(s.waiters, t.waiters, s.flag, Priority(s.prios), op.id))
  {
    var _ := EnqueuePlace(s.waiters, s.flag, Priority(s.prios), op.id);
  }

  /** rt_event_send fails, and changes nothing, exactly if no bit is sent; it never takes a thread off the list without
      waking it. */
  lemma SendAnswers(s: State, op: Op)
    requires Inv(s) && op.DoSend?
    ensures var (t, r) := Step(s, op);
      && (r == Error <==> op.bits == {}) && (r != Error ==> r == Ok)
      && (r == Error ==> t == s)
      && (forall id :: id in s.waiters && id !in t.waiters ==> id in t.clients && t.clients[id].Woken?)
      && (forall id :: id in s.clients && id !in s.waiters ==> id in t.clients && t.clients[id] == s.clients[id])
  {
    if op.bits != {} { WalkLists(s.waiters, s.bits + op.bits, s.clients); }
  }

  // ---------------------------------------------------------------- who is given a bit

  /** The waiting thread `id` is woken by the step, had asked for the bits it gets to be cleared, and gets bit `b`. */
  predicate WokenWith(s: State, t: State, id: nat, b: nat) {
    && id in s.clients && s.clients[id].Waiting? && s.clients[id].option.clear
    && id in t.clients && t.clients[id].Woken? && b in t.clients[id].got
  }

  /** The receivers with the CLEAR option that a step gives bit `b`: the one that calls rt_event_recv, and those that a
      send wakes. */
  function GivenTo(s: State, op: Op, b: nat): set<nat> {
    if !Legal(s, op) then {}
    else if op.DoRecv? then
      var r := Step(s, op).1;
      if op.option.clear && r.Received? && b in r.got then {op.id} else {}
    else set id | id in s.clients && WokenWith(s, Step(s, op).0, id, b)
  }

  /** Whether the step sends bit `b`. */
  predicate Sends(op: Op, b: nat) { op.DoSend? && b in op.bits }

  /** What a walk gives to receivers with the CLEAR option: bits that were set, each to one of them only, and exactly
      those are gone afterwards. */
  lemma {:induction false} WalkGives(ws: seq<nat>, bits: Bits, clients: map<nat, Stage>, b: nat)
    requires Distinct(ws) && forall id :: id in ws ==> id in clients && clients[id].Waiting?
    ensures var w := Walk(ws, bits, clients);
      && (b in bits && b !in w.bits ==> exists id :: Gets(ws, clients, w, id, b))
      && (forall id :: Gets(ws, clients, w, id, b) ==> b in bits && b !in w.bits)
      && (forall x, y :: Gets(ws, clients, w, x, b) && Gets(ws, clients, w, y, b) ==> x == y)
    decreases |ws|
  {
    if ws != [] {
      assert ws == [ws[0]] + ws[1..];
      var (c, w) := (clients[ws[0]], Walk(ws, bits, clients));
      if Satisfied(bits, c.want, c.option) {
        var (got, rest) := Deliver(bits, c.want, c.option);
        var clients' := clients[ws[0] := Woken(got)];
        WalkGives(ws[1..], rest, clients', b);
        var v := Walk(ws[1..], rest, clients');
        WalkTakes(ws[1..], rest, clients');
        ServedGets(ws, bits, clients, b);
        if b in bits && b !in w.bits {
          if b in rest {
            var id :| Gets(ws[1..], clients', v, id, b);
            assert Gets(ws, clients, w, id, b);
          } else {
            assert Gets(ws, clients, w, ws[0], b);
          }
        }
      } else {
        WalkGives(ws[1..], bits, clients, b);
        var v := Walk(ws[1..], bits, clients);
        PassedGets(ws, bits, clients, b);
        if b in bits && b !in w.bits {
          var id :| Gets(ws[1..], clients, v, id, b);
          assert Gets(ws, clients, w, id, b);
        }
      }
    }
  }

  /** Thread `id` of the list is woken by the walk, with the CLEAR option, and gets bit `b`. */
  predicate Gets(ws: seq<nat>, clients: map<nat, Stage>, w: Walked, id: nat, b: nat) {
    && id in ws && id in clients && clients[id].Waiting? && clients[id].option.clear
    && id in w.clients && w.clients[id].Woken? && b in w.clients[id].got
  }

  /** Who gets the bit when the first waiter is served. */
  lemma ServedGets(ws: seq<nat>, bits: Bits, clients: map<nat, Stage>, b: nat)
    requires Distinct(ws) && (forall id :: id in ws ==> id in clients && clients[id].Waiting?) && ws != []
    requires Satisfied(bits, clients[ws[0]].want, clients[ws[0]].option)
    ensures var c := clients[ws[0]];
      var (got, rest) := Deliver(bits, c.want, c.option);
      var clients' := clients[ws[0] := Woken(got)];
      var (w, v) := (Walk(ws, bits, clients), Walk(ws[1..], rest, clients'));
      && w.bits == v.bits
      && forall id :: Gets(ws, clients, w, id, b) <==>
           (if id == ws[0] then c.option.clear && b in got else Gets(ws[1..], clients', v, id, b))
  {
    var c := clients[ws[0]];
    var (got, rest) := Deliver(bits, c.want, c.option);
    var clients' := clients[ws[0] := Woken(got)];
    assert ws == [ws[0]] + ws[1..];
    WalkLists(ws[1..], rest, clients');
  }

  /** Who gets it when the first waiter stays. */
  lemma PassedGets(ws: seq<nat>, bits: Bits, clients: map<nat, Stage>, b: nat)
    requires Distinct(ws) && (forall id :: id in ws ==> id in clients && clients[id].Waiting?) && ws != []
    requires !Satisfied(bits, clients[ws[0]].want, clients[ws[0]].option)
    ensures var (w, v) := (Walk(ws, bits, clients), Walk(ws[1..], bits, clients));
      && w.bits == v.bits
      && forall id :: Gets(ws, clients, w, id, b) <==> id != ws[0] && Gets(ws[1..], clients, v, id, b)
  {
    assert ws == [ws[0]] + ws[1..];
    WalkLists(ws[1..], bits, clients);
  }

  /** For every step and every bit: the bit is set afterwards exactly if it was set or is sent, and no receiver with the
      CLEAR option is given it; at most one is, and only a bit that was set or is sent. */
  lemma BitAfter(s: State, op: Op, b: nat)
    requires Inv(s) && Legal(s, op)
    ensures b in Step(s, op).0.bits <==> (b in s.bits || Sends(op, b)) && GivenTo(s, op, b) == {}
    ensures |GivenTo(s, op, b)| <= 1
    ensures GivenTo(s, op, b) != {} ==> b in s.bits || Sends(op, b)
  {
    if op.DoSend? {
      if op.bits != {} { SendGives(s, op, b); }
    } else if op.DoRecv? {
      RecvAnswers(s, op);
    } else {
      assert GivenTo(s, op, b) == {};
    }
  }

  lemma SendGives(s: State, op: Op, b: nat)
    requires Inv(s) && op.DoSend? && op.bits != {}
    ensures b in Step(s, op).0.bits <==> (b in s.bits || Sends(op, b)) && GivenTo(s, op, b) == {}
    ensures |GivenTo(s, op, b)| <= 1
    ensures GivenTo(s, op, b) != {} ==> b in s.bits || Sends(op, b)
  {
    var (all, given) := (s.bits + op.bits, GivenTo(s, op, b));
    var w := Walk(s.waiters, all, s.clients);
    WalkGives(s.waiters, all, s.clients, b);
    forall id
      ensures id in given <==> Gets(s.waiters, s.clients, w, id, b)
    {
    }
    WalkTakes(s.waiters, all, s.clients);
    AtMostOne(given);
  }

  lemma AtMostOne(xs: set<nat>)
    requires forall x, y :: x in xs && y in xs ==> x == y
    ensures |xs| <= 1
  {
    if xs != {} {
      var x :| x in xs;
      assert xs == {x};
    }
  }

  // ---------------------------------------------------------------- runs

  /** Step, for runs: what is not legal does nothing. */
  function Run(s: State, op: Op): State {
    if Legal(s, op) then Step(s, op).0 else s
  }

  /** How often, in the course of `ops`, bit `b` is given to a receiver with the CLEAR option. */
  function GivenIn(s: State, ops: seq<Op>, b: nat): nat
    decreases |ops|
  {
    if ops == [] then 0 else |GivenTo(s, ops[0], b)| + GivenIn(Run(s, ops[0]), ops[1..], b)
  }

  /** How often it is sent. */
  function SentIn(ops: seq<Op>, b: nat): nat {
    if ops == [] then 0 else (if Sends(ops[0], b) then 1 else 0) + SentIn(ops[1..], b)
  }

  function One(there: bool): nat { if there then 1 else 0 }

  /** Over every run: a bit is given to receivers that clear it no more often than it was set or has been sent, and is
      gone only if it has been given to one. */
  lemma {:induction false} BitsFlow(s: State, ops: seq<Op>, t: State, b: nat)
    requires Inv(s) && Reaches(Legal, Run, s, ops, t)
    ensures Inv(t)
    ensures GivenIn(s, ops, b) + One(b in t.bits) <= SentIn(ops, b) + One(b in s.bits)
    ensures b in s.bits || SentIn(ops, b) > 0 ==> b in t.bits || GivenIn(s, ops, b) > 0
    decreases |ops|
  {
    if ops != [] {
      StepInv(s, ops[0]);
      BitAfter(s, ops[0], b);
      BitsFlow(Run(s, ops[0]), ops[1..], t, b);
    }
  }

  /** A bit that two receivers with the CLEAR option have been given has been sent in between. */
  lemma SentInBetween(s: State, first: Op, ops: seq<Op>, t: State, second: Op, b: nat)
    requires Inv(s) && Legal(s, first) && Reaches(Legal, Run, Step(s, first).0, ops, t) && Legal(t, second)
    requires GivenTo(s, first, b) != {} && GivenTo(t, second, b) != {}
    ensures SentIn(ops, b) > 0 || Sends(second, b)
  {
    StepInv(s, first);
    BitAfter(s, first, b);
    BitsFlow(Step(s, first).0, ops, t, b);
    BitAfter(t, second, b);
  }

  // ---------------------------------------------------------------- a call that waits

  /** Steps other than a new call by thread `id`. */
  function SameCall(id: nat): (State, Op) -> bool {
    (s: State, op: Op) => Legal(s, op) && (op.DoRecv? ==> op.id != id)
  }

  /** Steps other than the end of thread `id`'s call. */
  function NotBack(id: nat): (State, Op) -> bool {
    (s: State, op: Op) => Legal(s, op) && op != DoReturn(id) && op != DoDelete(id)
  }

  /** A step that is not about thread `id` leaves it where it is, unless it is a send and the thread is waiting. */
  lemma OtherStages(s: State, op: Op, id: nat)
    requires Inv(s) && Legal(s, op) && id in s.clients && (op.DoSend? || op.id != id)
    ensures id in Step(s, op).0.clients
    ensures var (c, d) := (s.clients[id], Step(s, op).0.clients[id]); d == c || (op.DoSend? && c.Waiting? && d.Woken?)
  {
    if op.DoSend? && op.bits != {} { WalkLists(s.waiters, s.bits + op.bits, s.clients); }
  }

  /** While the call waits, it waits for what it asked for, and its timer can fire exactly if it was given a time. */
  lemma WaitsForIt(s: State, call: Op, ops: seq<Op>, t: State)
    requires Inv(s) && Legal(s, call) && call.DoRecv? && Step(s, call).1 == Waits
    requires Reaches(SameCall(call.id), Run, Step(s, call).0, ops, t)
    ensures Inv(t) && call.id in t.clients
    ensures t.clients[call.id].Waiting? ==> t.clients[call.id] == Waiting(call.want, call.option, call.timeout > 0)
    ensures t.clients[call.id].Waiting? ==> (Legal(t, DoTimeout(call.id)) <==> call.timeout > 0)
  {
    var (id, c) := (call.id, Waiting(call.want, call.option, call.timeout > 0));
    var inv := (x: State) => Inv(x) && id in x.clients && (x.clients[id].Waiting? ==> x.clients[id] == c);
    StepInv(s, call);
    RecvAnswers(s, call);
    forall x: State, o: Op | inv(x) && SameCall(id)(x, o)
      ensures inv(Run(x, o))
    {
      StepInv(x, o);
      if o.DoSend? || o.id != id { OtherStages(x, o, id); }
    }
    RunKeeps(inv, SameCall(id), Run, Step(s, call).0, ops, t);
  }

  /** What the thread gets when a send wakes it. */
  lemma WokenGets(s: State, op: Op, id: nat)
    requires Inv(s) && op.DoSend? && id in s.clients && s.clients[id].Waiting?
    requires id in Step(s, op).0.clients && Step(s, op).0.clients[id].Woken?
    ensures Served(s.bits + op.bits, s.clients[id].want, s.clients[id].option, Step(s, op).0.clients[id].got)
  {
    if op.bits != {} {
      var all := s.bits + op.bits;
      assert id in s.waiters;
      var i :| 0 <= i < |s.waiters| && s.waiters[i] == id;
      EachIsServed(s.waiters, all, s.clients, i);
      WalkTakes(s.waiters[..i], all, s.clients);
      WalkLists(s.waiters, all, s.clients);
    }
  }

  /** `got` are bits asked for, out of `bits`, and meet the condition. */
  predicate Served(bits: Bits, want: Bits, option: Flags, got: Bits) {
    got <= want && got <= bits && if option.and then want <= got else option.or && got != {}
  }

  /** An rt_event_recv that had to wait and is woken by a send returns bits that it asked for, that were set or sent
      then, and that meet its condition, whatever happens until it runs. */
  lemma RecvReports(s: State, call: Op, ops: seq<Op>, t: State, send: Op, rest: seq<Op>, u: State)
    requires Inv(s) && Legal(s, call) && call.DoRecv? && Step(s, call).1 == Waits
    requires Reaches(SameCall(call.id), Run, Step(s, call).0, ops, t)
    requires send.DoSend? && call.id in t.clients && t.clients[call.id].Waiting?
    requires call.id in Step(t, send).0.clients && Step(t, send).0.clients[call.id].Woken?
    requires Reaches(NotBack(call.id), Run, Step(t, send).0, rest, u)
    ensures Legal(u, DoReturn(call.id)) && Step(u, DoReturn(call.id)).1.Received?
    ensures Served(t.bits + send.bits, call.want, call.option, Step(u, DoReturn(call.id)).1.got)
  {
    WaitsForIt(s, call, ops, t);
    WokenGets(t, send, call.id);
    StepInv(t, send);
    Undisturbed(Step(t, send).0, call.id, rest, u);
  }

  /** Through all steps but the end of its call a thread that has been woken, or timed out, stays where it is. */
  lemma Undisturbed(s: State, id: nat, ops: seq<Op>, t: State)
    requires Inv(s) && id in s.clients && (s.clients[id].Woken? || s.clients[id].TimedOut?)
    requires Reaches(NotBack(id), Run, s, ops, t)
    ensures id in t.clients && t.clients[id] == s.clients[id]
  {
    var inv := (x: State) => Inv(x) && id in x.clients && x.clients[id] == s.clients[id];
    forall x: State, o: Op | inv(x) && NotBack(id)(x, o)
      ensures inv(Run(x, o))
    {
      StepInv(x, o);
      OtherStages(x, o, id);
    }
    RunKeeps(inv, NotBack(id), Run, s, ops, t);
  }

  /** A call whose timer has fired returns -RT_ETIMEOUT, whatever happens in between. */
  lemma TimedOutReturns(s: State, id: nat, ops: seq<Op>, t: State)
    requires Inv(s) && Legal(s, DoTimeout(id)) && Reaches(NotBack(id), Run, Step(s, DoTimeout(id)).0, ops, t)
    ensures Legal(t, DoReturn(id)) && Step(t, DoReturn(id)).1 == Etimeout
  {
    StepInv(s, DoTimeout(id));
    Undisturbed(Step(s, DoTimeout(id)).0, id, ops, t);
  }
}
