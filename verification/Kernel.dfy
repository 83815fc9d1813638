/** The scheduler with its ready bitmap, the thread calls of thread.c, the time slice of clock.c and the semaphore of
    ipc.c, changing the kernel's variables in place. Every method is proved to do what KernelSpec does. */
module Kernel {
  import opened Words
  import opened Bits
  import opened Ffs
  import opened Lists
  import opened WaitList
  import opened KernelSpec
  import opened KernelRuns
  import opened KernelCalls

  /** struct rt_thread; `tlist` is the list the node is linked in. */
  datatype ThreadObject = ThreadObject(stat: Stat, initPriority: nat, currentPriority: nat, numberMask: word,
                                       error: Error, timerActive: bool, initTick: nat, remainingTick: nat, tlist: Place,
                                       detaches: bool)

  datatype SemObject = SemObject(value: nat, flag: Flag, suspendThread: seq<nat>)

  /** The fields of a thread; `number_mask` is set when the thread is started. */
  predicate SameThread(o: ThreadObject, t: Thread) {
    && o.stat == t.stat && o.initPriority == t.initPrio && o.currentPriority == t.prio && o.error == t.error
    && o.timerActive == t.armed && o.initTick == t.slice && o.remainingTick == t.remaining && o.tlist == t.node
    && o.detaches == t.detaches
    && (t.stat == Ready || t.stat == Suspended ==> o.numberMask == Pow2(t.prio))
  }

  predicate SameThreads(os: map<nat, ThreadObject>, ts: map<nat, Thread>) {
    os.Keys == ts.Keys && forall id :: id in ts ==> SameThread(os[id], ts[id])
  }

  predicate SameSems(os: map<nat, SemObject>, ms: map<nat, Sem>) {
    os.Keys == ms.Keys && forall k :: k in ms ==> os[k] == SemObject(ms[k].value, ms[k].flag, ms[k].waiters)
  }

  function CurrentPriorities(os: map<nat, ThreadObject>): nat -> nat {
    id => if id in os then os[id].currentPriority else 0
  }

  lemma PrioritiesAgree(os: map<nat, ThreadObject>, ts: map<nat, Thread>, ws: seq<nat>, flag: Flag, id: nat)
    requires SameThreads(os, ts)
    ensures Enqueue(ws, flag, CurrentPriorities(os), id) == Enqueue(ws, flag, Priorities(ts), id)
  {
    forall x: nat
      ensures CurrentPriorities(os)(x) == Priorities(ts)(x)
    {
      if x in ts { assert SameThread(os[x], ts[x]); }
    }
    SamePriorities(ws, flag, CurrentPriorities(os), Priorities(ts), id);
  }

  // ---------------------------------------------------------------- the ready bitmap

  /** Bit p of rt_thread_ready_priority_group is set if and only if ready list p is not empty. */
  predicate Group(g: word, ready: seq<seq<nat>>) {
    |ready| == RT_THREAD_PRIORITY_MAX && forall p :: 0 <= p < |ready| ==> (Bit(g, p) <==> ready[p] != [])
  }

  lemma MaskIsWord(p: nat)
    requires p < RT_THREAD_PRIORITY_MAX
    ensures Pow2(p) < MODULUS && Pow2(32) == MODULUS
  {
    Pow2Is32();
    Pow2Grows(p, 31);
    assert Pow2(32) == 2 * Pow2(31);
  }

  /** `group |= number_mask` */
  lemma GroupSet(g: word, ready: seq<seq<nat>>, p: nat, xs: seq<nat>)
    requires Group(g, ready) && p < |ready| && xs != []
    ensures Or(g, Pow2(p)) < MODULUS && Group(Or(g, Pow2(p)), ready[p := xs])
  {
    MaskIsWord(p);
    OrBelow(g, Pow2(p), 32);
    forall k | 0 <= k < |ready|
      ensures Bit(Or(g, Pow2(p)), k) <==> ready[p := xs][k] != []
    {
      OrBit(g, Pow2(p), k);
      Pow2Bit(p, k);
    }
  }

  /** `group &= ~number_mask` */
  lemma GroupClear(g: word, ready: seq<seq<nat>>, p: nat)
    requires Group(g, ready) && p < |ready|
    ensures Pow2(p) < MODULUS && And(g, Not32(Pow2(p))) <= g && Group(And(g, Not32(Pow2(p))), ready[p := []])
  {
    MaskIsWord(p);
    AndAtMost(g, Not32(Pow2(p)));
    forall k | 0 <= k < |ready|
      ensures Bit(And(g, Not32(Pow2(p))), k) <==> ready[p := []][k] != []
    {
      AndBit(g, Not32(Pow2(p)), k);
      NotBit(Pow2(p), 32, k);
      Pow2Bit(p, k);
    }
  }

  /** __rt_ffs(group) - 1 is the most urgent priority with a ready thread. */
  lemma FfsFindsFirst(g: word, ready: seq<seq<nat>>)
    requires Group(g, ready) && FirstReady(ready) < |ready|
    ensures RtFfs(g) == FirstReady(ready) + 1
  {
    var p := FirstReady(ready);
    assert Bit(g, p);
    if g == 0 { ZeroBit(p); }
    var r := RtFfs(g) - 1;
    assert Bit(g, r) && ready[r] != [];
  }

  /** rt_thread_resume of a thread that its timer has made ready in the meantime takes it off its ready list and leaves
      the bitmap alone: if the thread was the only one of the most urgent priority, the bitmap points at an empty list,
      whose head rt_schedule would take for a thread. */
  lemma BitmapGoesStale(g: word, s: State, id: nat)
    requires Placed(s) && Group(g, s.ready) && id in s.threads
    requires FirstReady(s.ready) < |s.ready| && s.ready[FirstReady(s.ready)] == [id]
    ensures var p := FirstReady(s.ready);
      p < |TakeOff(s, id).ready| && TakeOff(s, id).ready[p] == [] && RtFfs(g) == p + 1
  {
    var p := FirstReady(s.ready);
    FfsFindsFirst(g, s.ready);
    assert Holds(s, OnReady(p)) && id in Queue(s, OnReady(p));
    TakeOffIs(s, id);
    assert Drop([id], id) == [];
  }

  class Scheduler {
    var threads: map<nat, ThreadObject>
    var priorityTable: seq<seq<nat>>   // rt_thread_priority_table
    var readyGroup: word               // rt_thread_ready_priority_group
    var sems: map<nat, SemObject>
    var defunct: seq<nat>              // rt_thread_defunct
    var current: nat                   // rt_current_thread
    var lockNest: nat                  // rt_scheduler_lock_nest
    ghost var st: State

    /** The variables, the bitmap aside, are those of `s`. */
    ghost predicate Core(s: State)
      reads this
    {
      && SameThreads(threads, s.threads) && SameSems(sems, s.sems)
      && priorityTable == s.ready && |priorityTable| == RT_THREAD_PRIORITY_MAX
      && defunct == s.defunct && current == s.current && lockNest == s.nest
    }

    ghost predicate Represents(s: State)
      reads this
    {
      Core(s) && Group(readyGroup, priorityTable)
    }

    ghost predicate Valid()
      reads this
    {
      Inv(st) && Represents(st)
    }

    /** Stores the fields of one thread. */
    method Store(id: nat, o: ThreadObject, ghost t: Thread)
      requires Represents(st) && id in st.threads && SameThread(o, t)
      modifies this`threads, this`st
      ensures Represents(st) && st == Set(old(st), id, t) && threads == old(threads)[id := o]
    {
      threads := threads[id := o];
      st := Set(st, id, t);
    }

    // -------------------------------------------------------------- lists

    /** rt_list_remove(&thread->tlist) */
    method ListRemove(id: nat)
      requires Core(st) && id in st.threads
      modifies this
      ensures Core(st) && st == Unlink(old(st), id) && readyGroup == old(readyGroup)
      ensures !old(st.threads[id].node.OnReady?) ==> priorityTable == old(priorityTable)
      ensures threads[id] == old(threads[id]).(tlist := Nowhere)
    {
      ghost var s := st;
      DropNode(id);
      threads := threads[id := threads[id].(tlist := Nowhere)];
      st := Set(st, id, st.threads[id].(node := Nowhere));
      assert st == Unlink(s, id);
    }

    /** The neighbours of the node are linked to each other. */
    method DropNode(id: nat)
      requires Core(st) && id in st.threads
      modifies this`priorityTable, this`sems, this`defunct, this`st
      ensures Core(st)
      ensures var (s, q) := (old(st), old(st).threads[id].node); st == WithQueue(s, q, Drop(Queue(s, q), id))
      ensures !st.threads[id].node.OnReady? ==> priorityTable == old(priorityTable)
    {
      assert SameThread(threads[id], st.threads[id]);
      ghost var q := st.threads[id].node;
      match threads[id].tlist {
        case Nowhere =>
        case OnReady(p) =>
          if p < |priorityTable| { priorityTable := priorityTable[p := Drop(priorityTable[p], id)]; }
        case OnSem(k) =>
          if k in sems { sems := sems[k := sems[k].(suspendThread := Drop(sems[k].suspendThread, id))]; }
        case OnDefunct => defunct := Drop(defunct, id);
      }
      st := WithQueue(st, q, Drop(Queue(st, q), id));
    }

    /** rt_schedule_insert_thread */
    method ScheduleInsertThread(id: nat)
      requires Represents(st) && id in st.threads && st.threads[id].prio < RT_THREAD_PRIORITY_MAX
      requires threads[id].numberMask == Pow2(st.threads[id].prio)
      modifies this
      ensures Represents(st) && st == ScheduleInsert(old(st), id)
    {
      var p := threads[id].currentPriority;
      GroupSet(readyGroup, priorityTable, p, priorityTable[p] + [id]);
      Store(id, threads[id].(stat := Ready), st.threads[id].(stat := Ready));
      LinkLast(id, p);
      readyGroup := Or(readyGroup, threads[id].numberMask);
    }

    /** rt_list_insert_before(&rt_thread_priority_table[p], &thread->tlist) */
    method LinkLast(id: nat, p: nat)
      requires Core(st) && id in st.threads && p < |st.ready|
      modifies this`priorityTable, this`threads, this`st
      ensures Core(st) && st == Link(old(st), id, OnReady(p), old(st).ready[p] + [id])
      ensures priorityTable == old(priorityTable)[p := old(priorityTable)[p] + [id]]
      ensures threads[id].numberMask == old(threads[id].numberMask)
    {
      priorityTable := priorityTable[p := priorityTable[p] + [id]];
      threads := threads[id := threads[id].(tlist := OnReady(p))];
      st := Link(st, id, OnReady(p), st.ready[p] + [id]);
    }

    /** rt_schedule_remove_thread */
    method ScheduleRemoveThread(id: nat)
      requires Represents(st) && id in st.threads && st.threads[id].prio < RT_THREAD_PRIORITY_MAX
      requires threads[id].numberMask == Pow2(st.threads[id].prio)
      requires st.threads[id].node.OnReady? ==> st.threads[id].node.prio == st.threads[id].prio
      modifies this
      ensures Represents(st) && st == Unlink(old(st), id)
      ensures threads[id] == old(threads[id]).(tlist := Nowhere)
    {
      var p := threads[id].currentPriority;
      GroupClear(readyGroup, priorityTable, p);
      ListRemove(id);
      if priorityTable[p] == [] {
        readyGroup := And(readyGroup, Not32(threads[id].numberMask));
        assert priorityTable == old(priorityTable)[p := []];
      }
    }

    /** rt_schedule */
    method Schedule()
      requires Represents(st) && FirstReady(st.ready) < |st.ready|
      modifies this
      ensures Represents(st) && st == KernelSpec.Schedule(old(st))
    {
      if lockNest == 0 {
        FfsFindsFirst(readyGroup, priorityTable);
        var highest := RtFfs(readyGroup) - 1;
        var to := priorityTable[highest][0];
        if to != current { current := to; }
      }
      st := KernelSpec.Schedule(st);
    }

    lemma SomeoneReady(s: State)
      requires Inv(s)
      ensures FirstReady(s.ready) < |s.ready|
    {
      ReadyListed(s, IDLE);
    }

    // -------------------------------------------------------------- threads

    /** The section of rt_thread_suspend. */
    method SuspendSection(id: nat)
      requires Represents(st) && id in st.threads && st.threads[id].prio < RT_THREAD_PRIORITY_MAX
      requires threads[id].numberMask == Pow2(st.threads[id].prio)
      requires st.threads[id].node.OnReady? ==> st.threads[id].node.prio == st.threads[id].prio
      modifies this
      ensures Represents(st) && st == SuspendNow(old(st), id)
    {
      Store(id, threads[id].(stat := Suspended, timerActive := false),
            st.threads[id].(stat := Suspended, armed := false));
      ScheduleRemoveThread(id);
    }

    /** rt_thread_suspend with nothing between its test and its section */
    method ThreadSuspend(id: nat) returns (ok: bool)
      requires Represents(st) && id in st.threads && st.threads[id].prio < RT_THREAD_PRIORITY_MAX
      requires st.threads[id].node.OnReady? ==> st.threads[id].node.prio == st.threads[id].prio
      modifies this
      ensures Represents(st) && (st, ok) == Suspend(old(st), id)
    {
      if threads[id].stat != Ready {
        return false;
      }
      SuspendSection(id);
      return true;
    }

    /** A suspended thread leaves the list it waits on and becomes ready. */
    method WakeThread(id: nat)
      requires Represents(st) && id in st.threads && st.threads[id].prio < RT_THREAD_PRIORITY_MAX
      requires st.threads[id].stat == Suspended && !st.threads[id].node.OnReady?
      modifies this
      ensures Represents(st) && st == Wake(old(st), id) && FirstReady(st.ready) < |st.ready|
    {
      assert SameThread(threads[id], st.threads[id]);
      ghost var p := st.threads[id].prio;
      ListRemove(id);
      ScheduleInsertThread(id);
      assert st.ready[p] != [];
    }

    /** The first section of rt_thread_resume. It leaves the bitmap alone, also when the thread was on a ready list. */
    method ResumeTakeOff(id: nat)
      requires Represents(st) && id in st.threads
      modifies this
      ensures Core(st) && st == TakeOff(old(st), id) && readyGroup == old(readyGroup)
      ensures !old(st.threads[id].node.OnReady?) ==> Represents(st)
      ensures threads[id].numberMask == old(threads[id].numberMask)
    {
      Store(id, threads[id].(timerActive := false), st.threads[id].(armed := false, stage := Resuming));
      ListRemove(id);
    }

    /** The second section of rt_thread_resume. */
    method ResumePutBack(id: nat)
      requires Represents(st) && id in st.threads && st.threads[id].prio < RT_THREAD_PRIORITY_MAX
      requires threads[id].numberMask == Pow2(st.threads[id].prio)
      modifies this
      ensures Represents(st) && st == PutBack(old(st), id) && FirstReady(st.ready) < |st.ready|
    {
      ghost var p := st.threads[id].prio;
      st := Set(st, id, st.threads[id].(stage := Whole));
      ScheduleInsertThread(id);
      assert st.ready[p] != [];
    }

    /** rt_thread_resume with nothing between its test and its sections */
    method ThreadResume(id: nat) returns (ok: bool)
      requires Represents(st) && id in st.threads && st.threads[id].prio < RT_THREAD_PRIORITY_MAX
      requires !st.threads[id].node.OnReady?
      modifies this
      ensures Represents(st) && (st, ok) == Resume(old(st), id) && (ok ==> FirstReady(st.ready) < |st.ready|)
    {
      if threads[id].stat != Suspended {
        return false;
      }
      assert SameThread(threads[id], st.threads[id]);
      ResumeTakeOff(id);
      ResumePutBack(id);
      return true;
    }

    /** rt_thread_startup */
    method ThreadStartup(id: nat)
      requires Valid() && Legal(st, DoMark(id))
      modifies this
      ensures Valid() && st == KernelSpec.Schedule(Resume(Mark(old(st), id), id).0)
    {
      StartupInv(st, id);
      assert Sound(st.threads[id]);
      MarkThread(id);
      var _ := ThreadResume(id);
      ScheduleInv(st);
      Schedule();
    }

    lemma StartupInv(s: State, id: nat)
      requires Inv(s) && Legal(s, DoMark(id))
      ensures Inv(Resume(Mark(s, id), id).0)
    {
      LocalInv(s, DoMark(id));
      assert Sound(s.threads[id]);
      UninterruptedKeeps(Mark(s, id), id);
    }

    /** rt_thread_startup up to its rt_thread_resume */
    method MarkThread(id: nat)
      requires Represents(st) && id in st.threads && st.threads[id].initPrio < RT_THREAD_PRIORITY_MAX
      modifies this`threads, this`st
      ensures Represents(st) && st == Mark(old(st), id)
    {
      var p := threads[id].initPriority;
      MaskIsWord(p);
      Store(id, threads[id].(currentPriority := p, numberMask := Pow2(p), stat := Suspended),
            st.threads[id].(prio := st.threads[id].initPrio, stat := Suspended));
    }

    /** rt_thread_sleep up to the point where the thread stops running: its section and its rt_schedule */
    method ThreadSleep()
      requires Valid() && Legal(st, DoSleep)
      modifies this
      ensures Valid() && st == SwitchAway(Sleep(old(st)))
    {
      SleepSection();
      SwitchThread();
    }

    method SleepSection()
      requires Valid() && Legal(st, DoSleep)
      modifies this
      ensures Valid() && st == Step(old(st), DoSleep)
    {
      SleepInv(st);
      var thread := current;
      assert Sound(st.threads[thread]);
      SuspendNowIs(st, thread);
      var _ := ThreadSuspend(thread);
      Store(thread, threads[thread].(timerActive := true),
            st.threads[thread].(armed := true, wait := Sleeping, leaving := true));
    }

    /** The rt_schedule of a thread that has suspended itself. */
    method SwitchThread()
      requires Valid()
      modifies this
      ensures Valid() && st == SwitchAway(old(st))
    {
      SwitchAwayInv(st);
      assert Sound(st.threads[current]);
      SetInv(st, current, st.threads[current].(leaving := false));
      st := Set(st, current, st.threads[current].(leaving := false));
      SomeoneReady(st);
      Schedule();
    }

    /** The end of rt_thread_sleep: the time-out is no error here. */
    method SleepReturn()
      requires Valid() && Legal(st, DoAwake)
      modifies this`threads, this`st
      ensures Valid() && st == Step(old(st), DoAwake)
    {
      LocalInv(st, DoAwake);
      var thread := current;
      Store(thread, threads[thread].(error := if threads[thread].error == Etimeout then Eok else threads[thread].error),
            Awake(st).threads[thread]);
    }

    /** rt_thread_timeout, called by the thread's timer, which is then no longer active. */
    method ThreadTimeout(id: nat)
      requires Valid() && Legal(st, DoTimeout(id))
      modifies this
      ensures Valid() && st == Step(old(st), DoTimeout(id))
    {
      FiredInv(st, id);
      TimeoutAssertHolds(st, id);
      assert threads[id].stat == Suspended;
      assert Sound(st.threads[id]);
      FireTimer(id);
      ScheduleInv(st);
      SomeoneReady(st);
      Schedule();
    }

    method FireTimer(id: nat)
      requires Represents(st) && id in st.threads && st.threads[id].prio < RT_THREAD_PRIORITY_MAX
      requires st.threads[id].stat == Suspended && !st.threads[id].node.OnReady?
      modifies this
      ensures Represents(st) && st == Fired(old(st), id)
    {
      ghost var t := st.threads[id];
      Store(id, threads[id].(error := Etimeout, timerActive := false),
            t.(error := Etimeout, armed := false, wait := if t.wait.Waiting? then TimedOut(t.wait.sem) else t.wait));
      st := CountTimeout(st, t.wait);
      WakeThread(id);
    }

    /** rt_thread_yield */
    method ThreadYield()
      requires Valid()
      modifies this
      ensures Valid() && st == YieldCall(old(st))
    {
      YieldInv(st);
      var thread := current;
      assert Sound(st.threads[thread]) && SameThread(threads[thread], st.threads[thread]);
      var p := threads[thread].currentPriority;
      if threads[thread].stat == Ready && OnList(thread, p) {
        RequeueThread(thread, p);
        ScheduleInv(st);
        Schedule();
      }
    }

    /** The test of `next` against `prev`: the thread is on its ready list and not alone there. */
    predicate OnList(id: nat, p: nat)
      reads this
    {
      id in threads && threads[id].tlist == OnReady(p) && p < |priorityTable| && |priorityTable[p]| >= 2
    }

    /** Thread `id` goes to the end of its ready list. */
    method RequeueThread(id: nat, p: nat)
      requires Represents(st) && id in st.threads && st.threads[id].node == OnReady(p) && p < |st.ready| && st.ready[p] != []
      modifies this
      ensures Represents(st) && FirstReady(st.ready) < |st.ready|
      ensures st == Link(Unlink(old(st), id), id, OnReady(p), Queue(Unlink(old(st), id), OnReady(p)) + [id])
    {
      ListRemove(id);
      LinkLast(id, p);
      assert st.ready[p] != [];
    }

    /** rt_thread_control with RT_THREAD_CTRL_CHANGE_PRIORITY */
    method ChangePriority(id: nat, p: nat)
      requires Valid() && Legal(st, DoSetPriority(id, p))
      modifies this
      ensures Valid() && st == Step(old(st), DoSetPriority(id, p))
    {
      SetPriorityInv(st, id, p);
      assert Sound(st.threads[id]) && SameThread(threads[id], st.threads[id]);
      MaskIsWord(p);
      if threads[id].stat == Ready {
        MoveThread(id, p);
      } else {
        Store(id, threads[id].(currentPriority := p, numberMask := Pow2(p)), st.threads[id].(prio := p));
      }
    }

    /** A ready thread changes its priority and its list. */
    method MoveThread(id: nat, p: nat)
      requires Represents(st) && id in st.threads && Sound(st.threads[id]) && st.threads[id].stat == Ready
      requires p < RT_THREAD_PRIORITY_MAX && Pow2(p) < MODULUS
      modifies this
      ensures Represents(st) && st == SetPriority(old(st), id, p)
    {
      ScheduleRemoveThread(id);
      Store(id, threads[id].(currentPriority := p, numberMask := Pow2(p)), st.threads[id].(prio := p));
      ScheduleInsertThread(id);
    }

    /** The first section of rt_thread_delete, which is rt_schedule_remove_thread unless the thread was
        never started. */
    method DeleteRemove(id: nat)
      requires Represents(st) && id in st.threads && Sound(st.threads[id]) && st.threads[id].stat != Closed
      modifies this
      ensures Represents(st) && st == Remove(old(st), id)
    {
      ghost var t := st.threads[id];
      assert SameThread(threads[id], t);
      st := CountAbandoned(st, t.wait);
      ghost var u := t.(wait := NoWait, leaving := false, stage := Removed);
      st := Set(st, id, u);
      if threads[id].stat != Init {
        ScheduleRemoveThread(id);
      } else {
        assert st.threads == Unlink(st, id).threads;
      }
    }

    /** The second section: rt_timer_detach. */
    method DeleteDetach(id: nat)
      requires Represents(st) && id in st.threads
      modifies this`threads, this`st
      ensures Represents(st) && st == Detach(old(st), id)
    {
      Store(id, threads[id].(timerActive := false), st.threads[id].(armed := false, stage := Detached));
    }

    /** The rest: the thread is closed and goes to the head of rt_thread_defunct. */
    method DeleteBury(id: nat)
      requires Represents(st) && id in st.threads
      modifies this`defunct, this`threads, this`st
      ensures Represents(st) && st == Bury(old(st), id)
    {
      threads := threads[id := threads[id].(stat := Closed)];
      defunct := [id] + defunct;
      threads := threads[id := threads[id].(tlist := OnDefunct)];
      st := Bury(st, id);
    }

    /** rt_thread_delete with nothing between its sections */
    method ThreadDelete(id: nat)
      requires Valid() && Legal(st, DoDelete(id))
      modifies this
      ensures Valid() && st == Step(old(st), DoDelete(id))
    {
      DeleteInv(st, id);
      assert Sound(st.threads[id]);
      DeleteRemove(id);
      DeleteDetach(id);
      DeleteBury(id);
    }

    /** rt_thread_exit: its section and its rt_schedule */
    method ThreadExit()
      requires Valid() && Legal(st, DoExit)
      modifies this
      ensures Valid() && st == KernelSpec.Schedule(Step(old(st), DoExit))
    {
      ExitInv(st);
      assert Sound(st.threads[current]);
      ExitSection();
      SomeoneReady(st);
      ScheduleInv(st);
      Schedule();
    }

    method ExitSection()
      requires Represents(st) && current in st.threads && Sound(st.threads[current]) && st.threads[current].stat != Closed
      modifies this
      ensures Represents(st) && st == Exit(old(st))
    {
      var thread := current;
      DeleteRemove(thread);
      DeleteDetach(thread);
      if threads[thread].detaches {
        Store(thread, threads[thread].(stat := Closed), st.threads[thread].(stat := Closed, stage := Whole));
      } else {
        DeleteBury(thread);
      }
    }

    /** rt_enter_critical */
    method EnterCritical()
      requires Valid()
      modifies this
      ensures Valid() && st == old(st).(nest := old(st).nest + 1)
    {
      SetNest(lockNest + 1);
    }

    /** rt_exit_critical; the counter of the code is signed and a count of 0 stays 0. */
    method ExitCritical()
      requires Valid()
      modifies this
      ensures Valid() && st == if old(st).nest <= 1 then KernelSpec.Schedule(Unlock(old(st))) else Unlock(old(st))
    {
      var nest: int := lockNest - 1;
      if nest <= 0 {
        SetNest(0);
        SomeoneReady(st);
        ScheduleInv(st);
        Schedule();
      } else {
        SetNest(nest);
      }
    }

    method SetNest(n: nat)
      requires Valid()
      modifies this`lockNest, this`st
      ensures Valid() && st == old(st).(nest := n)
    {
      NestInv(st, n);
      lockNest := n;
      st := st.(nest := n);
    }

    /** The time-slice part of rt_tick_increase. */
    method TickSlice()
      requires Valid()
      modifies this
      ensures Valid() && st == Slice(old(st))
    {
      assert Sound(st.threads[current]) && SameThread(threads[current], st.threads[current]);
      CountDownInv(st);
      var thread := current;
      if threads[thread].remainingTick - 1 == 0 {
        Store(thread, threads[thread].(remainingTick := threads[thread].initTick), CountDown(st).threads[thread]);
        ThreadYield();
      } else {
        Store(thread, threads[thread].(remainingTick := threads[thread].remainingTick - 1), CountDown(st).threads[thread]);
      }
    }

    lemma CountDownInv(s: State)
      requires Inv(s)
      ensures Inv(CountDown(s))
    {
      LocalInv(s, DoCountDown);
    }

    // -------------------------------------------------------------- semaphores

    /** rt_sem_take up to the point where a thread that has to wait stops running: its section and its rt_schedule */
    method SemTake(k: nat, time: int) returns (r: Outcome)
      requires Valid() && k in st.sems && Running(st) && current != IDLE
      modifies this
      ensures Valid() && (st, r) == TakeCall(old(st), k, time)
    {
      TakeInv(st, k, time);
      if sems[k].value > 0 {
        sems := sems[k := sems[k].(value := sems[k].value - 1)];
        st := TakeUnit(st, k);
        return Done(Eok);
      }
      if time == 0 {
        return Done(Etimeout);
      }
      var thread := current;
      assert Sound(st.threads[thread]);
      SuspendCurrent(k, time > 0);
      SwitchThread();
      return if current == thread then Done(threads[thread].error) else Blocked;
    }

    /** The current thread joins the waiters of semaphore `k`. */
    method SuspendCurrent(k: nat, timed: bool)
      requires Represents(st) && k in st.sems && current in st.threads && Sound(st.threads[current])
      requires st.threads[current].stat == Ready && st.threads[current].stage.Whole?
      modifies this
      ensures Represents(st) && st == Blocking(old(st), k, timed)
    {
      BlockReadySems(st, k, timed);
      var thread := current;
      PrepareWait(k, timed, st);
      JoinWaiters(thread, k);
    }

    lemma BlockReadySems(s: State, k: nat, timed: bool)
      requires k in s.sems && s.current in s.threads && s.threads[s.current].node.OnReady?
      ensures var v := BlockReady(s, k, timed);
        && k in v.sems && v.sems[k].waiters == s.sems[k].waiters && v.sems[k].flag == s.sems[k].flag
        && s.current in v.threads
    {
    }

    /** The current thread is suspended, and its timer is started if it waits for a time only. */
    method PrepareWait(k: nat, timed: bool, ghost s: State)
      requires Represents(st) && k in st.sems && current in st.threads && Sound(st.threads[current]) && s == st
      modifies this
      ensures Represents(st) && k in s.sems && s.current in s.threads && st == BlockReady(s, k, timed)
    {
      var thread := current;
      ghost var tally := st.sems[k].tally;
      StopThread(thread);
      ghost var t := st;
      StartWait(k, timed, thread, tally);
      assert st == BlockReady(s, k, timed) by { BlockReadyAfter(s, k, timed, t); }
    }

    lemma BlockReadyAfter(s: State, k: nat, timed: bool, t: State)
      requires k in s.sems && s.current in s.threads
      requires t == Suspend(Set(s, s.current, s.threads[s.current].(error := Eok)), s.current).0
      ensures k in t.sems && s.current in t.threads
      ensures var u := WithTally(t, k, s.sems[k].tally.(blocked := s.sems[k].tally.blocked + 1));
        BlockReady(s, k, timed) ==
          Set(u, s.current, u.threads[s.current].(wait := Waiting(k), armed := timed, leaving := true))
    {
    }

    method StopThread(thread: nat)
      requires Represents(st) && thread in st.threads && Sound(st.threads[thread])
      modifies this
      ensures Represents(st) && st == Suspend(Set(old(st), thread, old(st).threads[thread].(error := Eok)), thread).0
    {
      Store(thread, threads[thread].(error := Eok), st.threads[thread].(error := Eok));
      var _ := ThreadSuspend(thread);
    }

    /** Books the wait of suspended thread `thread`. */
    method StartWait(k: nat, timed: bool, thread: nat, ghost tally: Tally)
      requires Represents(st) && k in st.sems && thread in st.threads
      modifies this`threads, this`st
      ensures Represents(st)
      ensures st == var u := WithTally(old(st), k, tally.(blocked := tally.blocked + 1));
                    Set(u, thread, u.threads[thread].(wait := Waiting(k), armed := timed, leaving := true))
    {
      st := WithTally(st, k, tally.(blocked := tally.blocked + 1));
      Store(thread, threads[thread].(timerActive := timed),
            st.threads[thread].(wait := Waiting(k), armed := timed, leaving := true));
    }

    /** The suspended thread is linked in the list of semaphore `k`. */
    method JoinWaiters(thread: nat, k: nat)
      requires Represents(st) && k in st.sems && thread in st.threads
      modifies this
      ensures Represents(st)
      ensures var m := old(st).sems[k];
        st == Link(old(st), thread, OnSem(k), Enqueue(m.waiters, m.flag, Priorities(old(st).threads), thread))
    {
      PrioritiesAgree(threads, st.threads, sems[k].suspendThread, sems[k].flag, thread);
      var waiters := SuspendOn(sems[k].suspendThread, sems[k].flag, CurrentPriorities(threads), thread);
      LinkNode(thread, k, waiters);
    }

    method LinkNode(thread: nat, k: nat, waiters: seq<nat>)
      requires Represents(st) && k in st.sems && thread in st.threads
      modifies this
      ensures Represents(st) && st == Link(old(st), thread, OnSem(k), waiters)
    {
      sems := sems[k := sems[k].(suspendThread := waiters)];
      threads := threads[thread := threads[thread].(tlist := OnSem(k))];
      st := Link(st, thread, OnSem(k), waiters);
    }

    /** rt_sem_release: its section and, if a thread was woken, its rt_schedule */
    method SemRelease(k: nat)
      requires Valid() && k in st.sems
      modifies this
      ensures Valid() && st == ReleaseCall(old(st), k)
    {
      ReleaseInv(st, k);
      if sems[k].suspendThread != [] {
        FirstWaiter(st, k);
        GiveTo(k, sems[k].suspendThread[0]);
        ScheduleInv(st);
        Schedule();
      } else {
        CountUp(k);
      }
    }

    /** `sem->value ++` on a 16-bit value */
    method CountUp(k: nat)
      requires Represents(st) && k in st.sems && st.sems[k].waiters == []
      modifies this`sems, this`st
      ensures Represents(st) && st == Release(old(st), k)
    {
      sems := sems[k := sems[k].(value := (sems[k].value + 1) % VALUES)];
      st := Release(st, k);
    }

    /** rt_ipc_list_resume on the list of semaphore `k`, whose first thread is `w`. */
    method GiveTo(k: nat, w: nat)
      requires Represents(st) && k in st.sems && w in st.threads && st.threads[w].prio < RT_THREAD_PRIORITY_MAX
      requires st.threads[w].stat == Suspended && !st.threads[w].node.OnReady?
      modifies this
      ensures Represents(st) && st == HandOver(old(st), k, w) && FirstReady(st.ready) < |st.ready|
    {
      assert SameThread(threads[w], st.threads[w]);
      st := Handing(st, k, w);
      var _ := ThreadResume(w);
    }

    /** The end of a rt_sem_take that had to wait. */
    method SemTakeReturn() returns (error: Error)
      requires Valid() && Awaits(st) && Legal(st, DoReturn)
      modifies this
      ensures Valid() && (st, error) == Return(old(st))
      ensures error == Eok <==> old(st.threads[st.current].wait.Granted?)
    {
      ReturnTells(st);
      LocalInv(st, DoReturn);
      error := threads[current].error;
      st := Return(st).0;
    }
  }
}
