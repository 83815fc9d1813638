/** rt_event_send and rt_event_recv on 32-bit event sets; each method is proved to make the step of EventSpec, where
    an event set is the set of its bits. */
module Event {
  import opened Words
  import opened Bits
  import opened Lists
  import opened WaitList
  import opened EventSpec

  // ---------------------------------------------------------------- words as sets of bits

  function SetOf(w: nat): set<nat> {
    set k: nat | 0 <= k < 32 && Bit(w, k)
  }

  lemma {:induction false} SameBitsSame(a: nat, b: nat, n: nat)
    requires a < Pow2(n) && b < Pow2(n) && forall k: nat :: k < n ==> (Bit(a, k) <==> Bit(b, k))
    ensures a == b
    decreases n
  {
    if n > 0 {
      assert Bit(a, 0) <==> Bit(b, 0);
      forall k: nat | k < n - 1
        ensures Bit(a / 2, k) <==> Bit(b / 2, k)
      {
        assert Bit(a, k + 1) <==> Bit(b, k + 1);
      }
      SameBitsSame(a / 2, b / 2, n - 1);
    }
  }

  lemma SetOfInjective(a: word, b: word)
    ensures SetOf(a) == SetOf(b) <==> a == b
  {
    Pow2Is32();
    if SetOf(a) == SetOf(b) {
      forall k: nat | k < 32
        ensures Bit(a, k) <==> Bit(b, k)
      {
        assert k in SetOf(a) <==> k in SetOf(b);
      }
      SameBitsSame(a, b, 32);
    }
  }

  lemma SetOfZero(a: word)
    ensures SetOf(a) == {} <==> a == 0
  {
    forall k: nat
      ensures k !in SetOf(0)
    {
      ZeroBit(k);
    }
    SetOfInjective(a, 0);
  }

  lemma SetOfAnd(a: nat, b: nat)
    ensures SetOf(And(a, b)) == SetOf(a) * SetOf(b)
  {
    forall k: nat
      ensures k in SetOf(And(a, b)) <==> k in SetOf(a) * SetOf(b)
    {
      AndBit(a, b, k);
    }
  }

  lemma SetOfOr(a: nat, b: nat)
    ensures SetOf(Or(a, b)) == SetOf(a) + SetOf(b)
  {
    forall k: nat
      ensures k in SetOf(Or(a, b)) <==> k in SetOf(a) + SetOf(b)
    {
      OrBit(a, b, k);
    }
  }

  lemma SetOfAndNot(a: word, b: word)
    ensures SetOf(And(a, Not32(b))) == SetOf(a) - SetOf(b)
  {
    Pow2Is32();
    forall k: nat
      ensures k in SetOf(And(a, Not32(b))) <==> k in SetOf(a) - SetOf(b)
    {
      AndBit(a, Not32(b), k);
      if k < 32 { NotBit(b, 32, k); }
    }
  }

  /** `a & b` and `a & ~b` as words. */
  lemma WordAnd(a: word, b: word)
    ensures And(a, b) <= a && SetOf(And(a, b)) == SetOf(a) * SetOf(b)
    ensures And(a, b) == a <==> SetOf(a) <= SetOf(b)
    ensures And(a, b) != 0 <==> SetOf(a) * SetOf(b) != {}
  {
    AndAtMost(a, b);
    SetOfAnd(a, b);
    SetOfInjective(And(a, b), a);
    SetOfZero(And(a, b));
  }

  lemma WordAndNot(a: word, b: word)
    ensures And(a, Not32(b)) <= a && SetOf(And(a, Not32(b))) == SetOf(a) - SetOf(b)
  {
    AndAtMost(a, Not32(b));
    SetOfAndNot(a, b);
  }

  lemma WordOr(a: word, b: word)
    ensures Or(a, b) < MODULUS && SetOf(Or(a, b)) == SetOf(a) + SetOf(b)
  {
    Pow2Is32();
    OrBelow(a, b, 32);
    SetOfOr(a, b);
  }

  // ---------------------------------------------------------------- the event object

  /** `event_set` and `event_info` of a thread, and how far it has got in rt_event_recv. */
  datatype ThreadObject =
    | NotWaiting
    | Suspended(eventSet: word, eventInfo: Flags, timer: bool)
    | Resumed(eventSet: word)
    | Late
    | Deleted

  predicate SameStage(o: ThreadObject, g: Stage) {
    match o
    case NotWaiting => g == Idle
    case Suspended(s, info, timer) => g == Waiting(SetOf(s), info, timer)
    case Resumed(s) => g == Woken(SetOf(s))
    case Late => g == TimedOut
    case Deleted => g == Gone
  }

  predicate SameStages(os: map<nat, ThreadObject>, gs: map<nat, Stage>) {
    os.Keys == gs.Keys && forall id :: id in gs ==> SameStage(os[id], gs[id])
  }

  /** What rt_event_recv returns and stores through `recved`. */
  datatype Reply = Got(recved: word) | Failed | NoTime | Suspends

  ghost function Meaning(r: Reply): Result {
    match r
    case Got(w) => Received(SetOf(w))
    case Failed => Result.Error
    case NoTime => Etimeout
    case Suspends => Waits
  }

  /** The first waiters have been looked at and stay; the walk over the others is still to come. */
  predicate Progress(whole: Walked, done: seq<nat>, rest: Walked) {
    whole.bits == rest.bits && whole.waiters == done + rest.waiters && whole.clients == rest.clients
  }

  class EventObject {
    var eventSet: word
    var suspendThread: seq<nat>
    const flag: Flag
    var threads: map<nat, ThreadObject>
    const priorities: map<nat, nat>
    ghost var st: State

    ghost predicate Represents(s: State)
      reads this
    {
      && SetOf(eventSet) == s.bits && suspendThread == s.waiters && flag == s.flag
      && SameStages(threads, s.clients) && priorities == s.prios
    }

    ghost predicate Valid()
      reads this
    {
      Inv(st) && Represents(st)
    }

    /** rt_event_init of an event for the threads with the given priorities. */
    constructor (flag: Flag, prios: map<nat, nat>)
      ensures Valid() && st == Init(flag, prios)
    {
      eventSet := 0;
      suspendThread := [];
      this.flag := flag;
      threads := map id | id in prios :: NotWaiting;
      priorities := prios;
      st := Init(flag, prios);
      SetOfZero(0);
    }

    /** The test of rt_event_send for one waiting thread; if it holds, the bits the thread receives. */
    method Check(t: ThreadObject, ghost g: Stage) returns (ok: bool, got: word)
      requires SameStage(t, g) && t.Suspended?
      ensures ok == Satisfied(SetOf(eventSet), g.want, g.option)
      ensures ok ==> SetOf(got) == Deliver(SetOf(eventSet), g.want, g.option).0
    {
      WordAnd(t.eventSet, eventSet);
      ok, got := false, t.eventSet;
      if t.eventInfo.and {
        if And(t.eventSet, eventSet) == t.eventSet {
          ok := true;
        }
      } else if t.eventInfo.or {
        if And(t.eventSet, eventSet) != 0 {
          got := And(t.eventSet, eventSet);
          ok := true;
        }
      }
    }

    /** A thread that receives `got`: the bits are cleared if it asked for that, and it is resumed. */
    method Serve(thread: nat, got: word, clear: bool, ghost clients: map<nat, Stage>)
      requires SameStages(threads, clients) && thread in clients
      modifies this`eventSet, this`threads
      ensures SetOf(eventSet) == if clear then old(SetOf(eventSet)) - SetOf(got) else old(SetOf(eventSet))
      ensures SameStages(threads, clients[thread := Woken(SetOf(got))])
    {
      if clear {
        WordAndNot(eventSet, got);
        eventSet := And(eventSet, Not32(got));
      }
      threads := threads[thread := Resumed(got)];
    }

    /** One round of the loop of rt_event_send: either the thread at position `n` is served and leaves the list, or the
        loop goes on to the next one. */
    method Visit(n: nat, ghost clients: map<nat, Stage>) returns (next: nat, ghost after: map<nat, Stage>)
      requires n < |suspendThread| && SameStages(threads, clients)
      requires suspendThread[n] in clients && clients[suspendThread[n]].Waiting?
      modifies this`eventSet, this`threads, this`suspendThread
      ensures SameStages(threads, after)
      ensures var (w, g) := (old(suspendThread)[n], clients[old(suspendThread)[n]]);
        if Satisfied(old(SetOf(eventSet)), g.want, g.option) then
          var (got, rest) := Deliver(old(SetOf(eventSet)), g.want, g.option);
          next == n && after == clients[w := Woken(got)] && SetOf(eventSet) == rest
          && suspendThread == old(suspendThread)[..n] + old(suspendThread)[n + 1..]
        else
          next == n + 1 && after == clients && eventSet == old(eventSet) && suspendThread == old(suspendThread)
    {
      var thread := suspendThread[n];
      var ok, got := Check(threads[thread], clients[thread]);
      after := clients;
      next := n + 1;
      if ok {
        Serve(thread, got, threads[thread].eventInfo.clear, clients);
        after := clients[thread := Woken(SetOf(got))];
        suspendThread := suspendThread[..n] + suspendThread[n + 1..];
        next := n;
      }
    }

    /** The loop of rt_event_send. */
    method WalkList()
      requires SameStages(threads, st.clients) && ListOk(suspendThread, st.clients)
      modifies this`eventSet, this`threads, this`suspendThread
      ensures var w := Walk(old(suspendThread), old(SetOf(eventSet)), st.clients);
        SetOf(eventSet) == w.bits && suspendThread == w.waiters && SameStages(threads, w.clients)
    {
      ghost var clients := st.clients;
      ghost var whole := Walk(suspendThread, SetOf(eventSet), clients);
      var n := 0;
      assert [] + whole.waiters == whole.waiters && suspendThread[0..] == suspendThread;
      while n < |suspendThread|
        invariant 0 <= n <= |suspendThread| && SameStages(threads, clients) && Distinct(suspendThread[n..])
        invariant forall id :: id in suspendThread[n..] ==> id in clients && clients[id].Waiting?
        invariant Progress(whole, suspendThread[..n], Walk(suspendThread[n..], SetOf(eventSet), clients))
        decreases |suspendThread| - n
      {
        WalkOn(whole, suspendThread, n, SetOf(eventSet), clients);
        n, clients := Visit(n, clients);
      }
      assert suspendThread[n..] == [] && suspendThread[..n] + [] == suspendThread;
    }

    /** The walk over the rest of the list after one more thread has been looked at. */
    lemma WalkOn(whole: Walked, ws: seq<nat>, n: nat, bits: set<nat>, clients: map<nat, Stage>)
      requires n < |ws| && Distinct(ws[n..]) && forall id :: id in ws[n..] ==> id in clients && clients[id].Waiting?
      requires Progress(whole, ws[..n], Walk(ws[n..], bits, clients))
      ensures ws[n] in clients && clients[ws[n]].Waiting? && Distinct(ws[n + 1..])
      ensures var g := clients[ws[n]];
        if Satisfied(bits, g.want, g.option) then
          var (got, rest) := Deliver(bits, g.want, g.option);
          var shorter := ws[..n] + ws[n + 1..];
          && shorter[n..] == ws[n + 1..] && shorter[..n] == ws[..n]
          && (forall id :: id in ws[n + 1..] ==> id in clients && id != ws[n] && clients[id].Waiting?)
          && Progress(whole, shorter[..n], Walk(shorter[n..], rest, clients[ws[n] := Woken(got)]))
        else
          && (forall id :: id in ws[n + 1..] ==> id in clients && clients[id].Waiting?)
          && Progress(whole, ws[..n + 1], Walk(ws[n + 1..], bits, clients))
    {
      assert ws[n] in ws[n..] && ws[n..] == [ws[n]] + ws[n + 1..] && ws[n..][1..] == ws[n + 1..];
      assert ws[..n + 1] == ws[..n] + [ws[n]];
      var w := Walk(ws[n + 1..], bits, clients);
      assert ws[..n] + ([ws[n]] + w.waiters) == ws[..n + 1] + w.waiters;
    }

    /** rt_event_send */
    method Send(value: word) returns (r: Result)
      requires Valid()
      modifies this
      ensures Valid() && (st, r) == EventSpec.Send(old(st), SetOf(value))
    {
      SetOfZero(value);
      if value == 0 {
        return Error;
      }
      SendInv(st, SetOf(value));
      WordOr(eventSet, value);
      eventSet := Or(eventSet, value);
      WalkList();
      st := EventSpec.Send(st, SetOf(value)).0;
      return Ok;
    }

    /** rt_event_recv up to the point where a thread that has to wait stops running. With the scheduler locked it does
        not stop there. */
    method Recv(id: nat, want: word, option: Flags, timeout: int, locked: bool) returns (r: Reply)
      requires Valid() && Legal(st, DoRecv(id, SetOf(want), option, timeout))
      modifies this
      ensures Valid() && (st, Meaning(r)) == RecvCall(old(st), id, SetOf(want), option, timeout, locked)
    {
      SetOfZero(want);
      if want == 0 {
        return Failed;
      }
      RecvInv(st, id, SetOf(want), option, timeout);
      WordAnd(eventSet, want);
      WordAnd(want, eventSet);
      var ok := false;
      if option.and {
        SetOfInjective(And(eventSet, want), want);
        ok := And(eventSet, want) == want;
      } else if option.or {
        ok := And(eventSet, want) != 0;
      }
      if ok {
        var recved := And(eventSet, want);
        if option.clear {
          WordAndNot(eventSet, want);
          eventSet := And(eventSet, Not32(want));
        }
        st := EventSpec.Recv(st, id, SetOf(want), option, timeout).0;
        return Got(recved);
      } else if timeout == 0 {
        return NoTime;
      }
      threads := threads[id := Suspended(want, option, timeout > 0)];
      suspendThread := SuspendOn(suspendThread, flag, Priority(priorities), id);
      st := EventSpec.Recv(st, id, SetOf(want), option, timeout).0;
      return if locked then Got(threads[id].eventSet) else Suspends;
    }

    /** The timer of a waiting thread fires. */
    method TimerFires(id: nat)
      requires Valid() && Legal(st, DoTimeout(id))
      modifies this
      ensures Valid() && st == Step(old(st), DoTimeout(id)).0
    {
      StepInv(st, DoTimeout(id));
      suspendThread := Drop(suspendThread, id);
      threads := threads[id := Late];
      st := Step(st, DoTimeout(id)).0;
    }

    /** rt_thread_delete of a thread of the event. */
    method ThreadDeleted(id: nat)
      requires Valid() && Legal(st, DoDelete(id))
      modifies this
      ensures Valid() && st == Step(old(st), DoDelete(id)).0
    {
      StepInv(st, DoDelete(id));
      if !threads[id].Suspended? { DropAbsent(suspendThread, id); }
      if threads[id].Suspended? {
        suspendThread := Drop(suspendThread, id);
      }
      threads := threads[id := Deleted];
      st := Step(st, DoDelete(id)).0;
    }

    /** The end of a rt_event_recv that had to wait. */
    method RecvReturn(id: nat) returns (r: Reply)
      requires Valid() && Legal(st, DoReturn(id))
      modifies this
      ensures Valid() && (st, Meaning(r)) == Step(old(st), DoReturn(id))
    {
      StepInv(st, DoReturn(id));
      assert SameStage(threads[id], st.clients[id]);
      r := if threads[id].Resumed? then Got(threads[id].eventSet) else NoTime;
      threads := threads[id := NotWaiting];
      st := Step(st, DoReturn(id)).0;
    }
  }
}
