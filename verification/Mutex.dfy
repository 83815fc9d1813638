/** rt_mutex_take and rt_mutex_release on the fields of struct rt_mutex; each method is proved to make the step of
    MutexSpec. */
module Mutex {
  import opened Words
  import opened Lists
  import opened WaitList
  import opened MutexSpec

  const NO_PRIORITY := 0xFF

  class MutexObject {
    var value: nat                // rt_uint16_t
    var originalPriority: nat     // rt_uint8_t
    var hold: nat                 // rt_uint8_t
    var owner: Option<nat>
    var suspendThread: seq<nat>
    const flag: Flag
    var threads: map<nat, Thread>
    var lockNest: nat             // rt_scheduler_lock_nest
    ghost var st: State

    /** `value` is 1 without an owner and 0 with one; `hold` is the counter of eight bits. */
    ghost predicate Represents(s: State)
      reads this
    {
      && owner == s.owner && value == (if owner.None? then 1 else 0) && hold == s.hold
      && originalPriority == (if owner.Some? && owner.value in s.threads then s.threads[owner.value].base else NO_PRIORITY)
      && suspendThread == s.waiters && flag == s.flag && threads == s.threads
      && lockNest == s.nest
    }

    ghost predicate Valid()
      reads this
    {
      Inv(st) && Represents(st)
    }

    /** rt_mutex_init of a mutex for threads with the given priorities. */
    constructor (flag: Flag, prios: map<nat, nat>)
      requires forall id :: id in prios ==> prios[id] < RT_THREAD_PRIORITY_MAX
      ensures Valid() && st == Init(flag, prios)
    {
      value, owner, originalPriority, hold := 1, None, NO_PRIORITY, 0;
      suspendThread, lockNest := [], 0;
      this.flag := flag;
      threads := map id | id in prios :: MutexSpec.Thread(prios[id], prios[id], Running, 0);
      st := Init(flag, prios);
    }

    /** rt_enter_critical and rt_exit_critical */
    method Lock(enter: bool)
      requires Valid()
      modifies this`lockNest, this`st
      ensures Valid() && st == Step(old(st), if enter then DoEnterCritical else DoExitCritical).0
    {
      NestInv(st, if enter then DoEnterCritical else DoExitCritical);
      lockNest := if enter then lockNest + 1 else if lockNest <= 1 then 0 else lockNest - 1;
      st := st.(nest := lockNest);
    }

    /** RT_THREAD_CTRL_CHANGE_PRIORITY */
    method ChangePriority(id: nat, p: nat)
      requires id in threads
      modifies this`threads
      ensures threads == old(threads)[id := old(threads[id]).(prio := p)]
    {
      threads := threads[id := threads[id].(prio := p)];
    }

    /** The part of rt_mutex_take for a mutex that another thread owns. */
    method Wait(id: nat, timed: bool)
      requires Represents(st) && id in st.threads && st.owner.Some? && st.owner.value in st.threads
      requires st.owner.value != id && st.threads[st.owner.value].base == originalPriority
      modifies this
      ensures Represents(st) && st == Block(old(st), id, timed)
    {
      if threads[id].prio < threads[owner.value].prio {
        ChangePriority(owner.value, threads[id].prio);
      }
      threads := threads[id := threads[id].(phase := Blocked(timed))];
      suspendThread := SuspendOn(suspendThread, flag, Prios(threads), id);
      st := Block(st, id, timed);
    }

    /** rt_mutex_take up to the point where a thread that has to wait stops running. Under a locked scheduler it does
        not stop there and its error field says RT_EOK. */
    method Take(id: nat, time: int) returns (r: Result)
      requires Valid() && id in st.threads && st.threads[id].phase == Running
      modifies this
      ensures Valid() && (st, r) == TakeCall(old(st), id, time)
    {
      TakeInv(st, id, time);
      OwnerFacts(st, id);
      if owner == Some(id) {
        TakeAgain(id, time);
        return Ok;
      }
      if value > 0 {
        TakeFree(id, time);
        return Ok;
      }
      if time == 0 {
        return Etimeout;
      }
      Wait(id, time > 0);
      return if lockNest == 0 then Waits else Ok;
    }

    /** A take by the owner. */
    method TakeAgain(id: nat, ghost time: int)
      requires Represents(st) && id in st.threads && st.owner == Some(id)
      modifies this
      ensures Represents(st) && st == MutexSpec.Take(old(st), id, time).0
    {
      hold := (hold + 1) % 256;
      threads := threads[id := threads[id].(takes := threads[id].takes + 1)];
      st := MutexSpec.Take(st, id, time).0;
    }

    /** A take of a mutex without an owner. */
    method TakeFree(id: nat, ghost time: int)
      requires Represents(st) && id in st.threads && st.owner.None? && st.threads[id].prio == st.threads[id].base
      modifies this
      ensures Represents(st) && st == MutexSpec.Take(old(st), id, time).0
    {
      value := value - 1;
      owner := Some(id);
      originalPriority := threads[id].prio;
      hold := (hold + 1) % 256;
      threads := threads[id := threads[id].(takes := threads[id].takes + 1)];
      st := MutexSpec.Take(st, id, time).0;
    }

    lemma OwnerFacts(s: State, id: nat)
      requires Inv(s) && id in s.threads
      ensures s.owner.Some? ==> s.owner.value in s.threads && s.hold < HOLD
      ensures s.owner.None? ==> s.hold == 0
      ensures s.owner == Some(id) && s.threads[id].phase == Running ==> s.threads[id].takes > 0
      ensures s.owner != Some(id) ==> s.threads[id].prio == s.threads[id].base
    {
    }

    /** rt_mutex_release */
    method Release(id: nat) returns (r: Result)
      requires Valid() && Legal(st, DoRelease(id))
      modifies this
      ensures Valid() && (st, r) == Step(old(st), DoRelease(id))
    {
      ReleaseInv(st, id);
      OwnerFacts(st, id);
      if owner != Some(id) {
        return Error;
      }
      if st.waiters != [] { FirstWaiterFacts(st); }
      DropHold(id);
      return Ok;
    }

    /** One take less. */
    method DropHold(id: nat)
      requires Represents(st) && id in st.threads && st.owner == Some(id) && st.threads[id].takes > 0
      requires st.waiters != [] ==> st.waiters[0] in st.threads && st.waiters[0] != id
                                    && st.threads[st.waiters[0]].prio == st.threads[st.waiters[0]].base
      modifies this
      ensures Represents(st) && st == MutexSpec.Release(old(st), id).0
    {
      ghost var s := st;
      hold := (hold + 255) % 256;
      threads := threads[id := threads[id].(takes := threads[id].takes - 1)];
      st := Set(st, id, st.threads[id].(takes := st.threads[id].takes - 1)).(hold := hold);
      if hold == 0 {
        GiveAway(id);
        GivenAway(s, id);
      }
    }

    lemma GivenAway(s: State, id: nat)
      requires id in s.threads && s.owner == Some(id) && s.threads[id].takes > 0 && (s.hold + 255) % 256 == 0
      ensures var t := s.threads[id].(takes := s.threads[id].takes - 1);
        MutexSpec.Release(s, id).0 == GiveUp(Set(Set(s, id, t).(hold := 0), id, t.(prio := t.base)))
    {
    }

    lemma FirstWaiterFacts(s: State)
      requires Inv(s) && s.waiters != []
      ensures s.owner.Some? && s.waiters[0] in s.threads && s.owner != Some(s.waiters[0])
      ensures s.threads[s.waiters[0]].prio == s.threads[s.waiters[0]].base
    {
      assert s.waiters[0] in s.waiters;
    }

    /** The end of the last release: the priority goes back, and the mutex goes to the first waiter or becomes free. */
    method GiveAway(id: nat)
      requires Represents(st) && st.hold == 0 && st.owner == Some(id) && id in st.threads
      requires st.waiters != [] ==> st.waiters[0] in st.threads && st.waiters[0] != id
                                    && st.threads[st.waiters[0]].prio == st.threads[st.waiters[0]].base
      modifies this
      ensures Represents(st)
      ensures var t := old(st).threads[id]; st == GiveUp(Set(old(st), id, t.(prio := t.base)))
    {
      ghost var s := Set(st, id, st.threads[id].(prio := st.threads[id].base));
      if originalPriority != threads[id].prio {
        ChangePriority(id, originalPriority);
      }
      assert threads == s.threads;
      if suspendThread != [] {
        var thread := suspendThread[0];
        owner := Some(thread);
        originalPriority := threads[thread].prio;
        hold := (hold + 1) % 256;
        threads := threads[thread := threads[thread].(phase := Granted)];
        suspendThread := suspendThread[1..];
      } else {
        value := value + 1;
        owner := None;
        originalPriority := NO_PRIORITY;
      }
      st := GiveUp(s);
    }

    /** The timer of a waiting thread fires; the owner keeps the priority it has inherited. */
    method TimerFires(id: nat)
      requires Valid() && Legal(st, DoTimeout(id))
      modifies this
      ensures Valid() && st == Step(old(st), DoTimeout(id)).0
    {
      TimeoutInv(st, id);
      suspendThread := Drop(suspendThread, id);
      threads := threads[id := threads[id].(phase := TimedOut)];
      st := Step(st, DoTimeout(id)).0;
    }

    /** The end of a rt_mutex_take that had to wait. */
    method TakeReturn(id: nat) returns (r: Result)
      requires Valid() && Legal(st, DoReturn(id))
      modifies this
      ensures Valid() && (st, r) == Step(old(st), DoReturn(id))
      ensures r == Ok <==> st.owner == Some(id)
    {
      ReturnInv(st, id);
      assert if st.owner == Some(id) then Owns(st.threads[id], st.hold) else OwnsNot(st.threads[id]);
      if threads[id].phase == Granted {
        threads := threads[id := threads[id].(phase := Running, takes := threads[id].takes + 1)];
        r := Ok;
      } else {
        threads := threads[id := threads[id].(phase := Running)];
        r := Etimeout;
      }
      st := Step(st, DoReturn(id)).0;
    }
  }
}
