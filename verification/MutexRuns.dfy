/** What rt_mutex_take and rt_mutex_release answer, and that the answers of a whole run add up to who owns the mutex. */
module MutexRuns {
  import opened Words
  import opened Lists
  import opened Runs
  import opened WaitList
  import opened MutexSpec

  // ---------------------------------------------------------------- one call

  /** rt_mutex_take succeeds at once exactly if nobody else owns the mutex; the caller owns it then, with one more
      take to match. Otherwise it fails exactly if it may not wait, and nothing changes; or the thread waits, behind
      those that its order puts in front of it, with its timer running exactly if it was given a time. */
  lemma TakeAnswers(s: State, id: nat, time: int)
    requires Inv(s) && id in s.threads && s.threads[id].phase == Running
    ensures var (t, r) := Take(s, id, time);
      && id in t.threads
      && (r == Ok <==> s.owner == None || s.owner == Some(id))
      && (r == Etimeout <==> s.owner != None && s.owner != Some(id) && time == 0)
      && (r == Waits <==> s.owner != None && s.owner != Some(id) && time != 0)
      && (r == Ok ==> t.owner == Some(id) && t.threads == s.threads[id := s.threads[id].(takes := s.threads[id].takes + 1)]
                      && t.waiters == s.waiters)
      && (r == Etimeout ==> t == s)
      && (r == Waits ==> t.owner == s.owner && t.hold == s.hold && t.threads[id] == s.threads[id].(phase := Blocked(time > 0))
                         && Joined(s.waiters, t.waiters, s.flag, Prios(t.threads), id))
  {
    if HasToWait(s, id) && time != 0 {
      BlockThreads(s, id, time > 0);
      BlockJoins(s, id, time > 0);
    }
  }

  lemma BlockJoins(s: State, id: nat, timed: bool)
    requires Inv(s) && HasToWait(s, id)
    ensures var t := Block(s, id, timed); Joined(s.waiters, t.waiters, s.flag, Prios(t.threads), id)
  {
    BlockThreads(s, id, timed);
    var _ := EnqueuePlace(s.waiters, s.flag, Prios(Block(s, id, timed).threads), id);
  }

  /** rt_mutex_release fails, and changes nothing, exactly if the caller does not own the mutex. Otherwise one take
      less is to match; the mutex is given up exactly if `hold` was 1, to the first waiter if there is one, and that
      one alone leaves the list. */
  lemma ReleaseAnswers(s: State, id: nat)
    requires Inv(s) && Legal(s, DoRelease(id))
    ensures var (t, r) := Release(s, id);
      && (r == Error <==> s.owner != Some(id)) && (r != Error ==> r == Ok)
      && (r == Error ==> t == s)
      && (r == Ok ==>
            && id in t.threads && t.threads[id].takes == s.threads[id].takes - 1
            && (s.hold != 1 ==> t.owner == Some(id) && t.waiters == s.waiters && t.hold == (s.hold + 255) % 256)
            && (s.hold == 1 && s.waiters == [] ==> t.owner == None && t.waiters == [] && t.hold == 0)
            && (s.hold == 1 && s.waiters != [] ==>
                  && t.owner == Some(s.waiters[0]) && t.waiters == s.waiters[1..] && t.hold == 1
                  && s.waiters[0] in t.threads && t.threads[s.waiters[0]].phase == Granted))
  {
    if s.owner == Some(id) {
      if s.hold != 1 {
        ReleaseCounts(s, id);
      } else if s.waiters != [] {
        HandOverIs(s, id);
      }
    }
  }

  // ---------------------------------------------------------------- the answers of a run

  /** Whether the step is a take by thread `id` that is answered with RT_EOK, at once or after it waited. */
  predicate Takes(s: State, op: Op, id: nat) {
    Legal(s, op) && (op.DoTake? || op.DoReturn?) && op.id == id && Step(s, op).1 == Ok
  }

  /** Whether it is a release by thread `id` that is answered with RT_EOK. */
  predicate Releases(s: State, op: Op, id: nat) {
    Legal(s, op) && op.DoRelease? && op.id == id && Step(s, op).1 == Ok
  }

  /** The successful takes of thread `id` in the course of `ops`, less its successful releases. */
  function Balance(s: State, ops: seq<Op>, id: nat): int
    decreases |ops|
  {
    if ops == [] then 0
    else (if Takes(s, ops[0], id) then 1 else 0) - (if Releases(s, ops[0], id) then 1 else 0)
         + Balance(Run(s, ops[0]), ops[1..], id)
  }

  lemma StepBalance(s: State, op: Op, id: nat)
    requires Inv(s) && Legal(s, op) && id in s.threads
    ensures id in Step(s, op).0.threads
    ensures Step(s, op).0.threads[id].takes
         == s.threads[id].takes + (if Takes(s, op, id) then 1 else 0) - (if Releases(s, op, id) then 1 else 0)
  {
    match op
    case DoTake(x, time) => TakeBalance(s, x, time, id);
    case DoRelease(x) => ReleaseBalance(s, x, id);
    case _ =>
  }

  lemma TakeBalance(s: State, x: nat, time: int, id: nat)
    requires Inv(s) && Legal(s, DoTake(x, time)) && id in s.threads
    ensures var (t, r) := Take(s, x, time);
      id in t.threads && t.threads[id].takes == s.threads[id].takes + if x == id && r == Ok then 1 else 0
  {
    TakeAnswers(s, x, time);
    if Take(s, x, time).1 == Waits { BlockThreads(s, x, time > 0); }
  }

  lemma ReleaseBalance(s: State, x: nat, id: nat)
    requires Inv(s) && Legal(s, DoRelease(x)) && id in s.threads
    ensures var (t, r) := Release(s, x);
      id in t.threads && t.threads[id].takes == s.threads[id].takes - if x == id && r == Ok then 1 else 0
  {
    ReleaseAnswers(s, x);
    if s.owner == Some(x) {
      if s.hold != 1 {
        ReleaseCounts(s, x);
      } else if s.waiters != [] {
        HandOverIs(s, x);
      }
    }
  }

  lemma {:induction false} RunBalance(s: State, ops: seq<Op>, t: State, id: nat)
    requires Inv(s) && id in s.threads && Reaches(Legal, Run, s, ops, t)
    ensures Inv(t) && id in t.threads && t.threads[id].takes == s.threads[id].takes + Balance(s, ops, id)
    decreases |ops|
  {
    if ops != [] {
      StepInv(s, ops[0]);
      StepBalance(s, ops[0], id);
      RunBalance(Run(s, ops[0]), ops[1..], t, id);
    }
  }

  /** In every run a thread's takes to match are its takes that were answered with RT_EOK less its releases that were;
      with between 1 and 255 of them it is the owner. */
  lemma TakesBalance(flag: Flag, prios: map<nat, nat>, ops: seq<Op>, t: State, id: nat)
    requires id in prios && forall x :: x in prios ==> prios[x] < RT_THREAD_PRIORITY_MAX
    requires Reaches(Legal, Run, Init(flag, prios), ops, t)
    ensures id in t.threads && t.threads[id].takes == Balance(Init(flag, prios), ops, id)
    ensures 0 < Balance(Init(flag, prios), ops, id) < 256 ==> t.owner == Some(id)
  {
    StartsExclusive(flag, prios);
    RunBalance(Init(flag, prios), ops, t, id);
    if t.owner != Some(id) { IfNotOwner(t, id); }
  }

  lemma IfNotOwner(s: State, id: nat)
    requires Inv(s) && id in s.threads && s.owner != Some(id)
    ensures s.threads[id].takes % 256 == 0
  {
    assert OwnsNot(s.threads[id]);
  }

  // ---------------------------------------------------------------- a take that waits

  /** When a take that had to wait returns, the answer is RT_EOK exactly if the thread now owns the mutex, and
      -RT_ETIMEOUT otherwise. */
  lemma ReturnAnswers(s: State, id: nat)
    requires Inv(s) && Legal(s, DoReturn(id))
    ensures var (t, r) := Step(s, DoReturn(id));
      && (r == Ok <==> s.owner == Some(id)) && (r != Ok ==> r == Etimeout)
      && t.owner == s.owner && t.hold == s.hold && t.waiters == s.waiters
  {
    if s.owner == Some(id) { assert Owns(s.threads[id], s.hold); } else { assert OwnsNot(s.threads[id]); }
  }

  /** Steps other than a new call by thread `id`. */
  function SameCall(id: nat): (State, Op) -> bool {
    (s: State, op: Op) => Legal(s, op) && (op.DoTake? ==> op.id != id)
  }

  /** A step that thread `id` does not make changes its phase only by handing it the mutex. */
  lemma OtherPhases(s: State, op: Op, id: nat)
    requires Inv(s) && Legal(s, op) && id in s.threads && (op.DoEnterCritical? || op.DoExitCritical? || op.id != id)
    ensures id in Step(s, op).0.threads
    ensures var (p, q) := (s.threads[id].phase, Step(s, op).0.threads[id].phase); q == p || (p.Blocked? && q == Granted)
  {
    match op
    case DoTake(x, time) => if HasToWait(s, x) && time != 0 { BlockThreads(s, x, time > 0); }
    case DoRelease(x) =>
      if s.owner == Some(x) {
        if s.hold != 1 {
          ReleaseCounts(s, x);
        } else if s.waiters != [] {
          HandOverIs(s, x);
          assert s.waiters[0] in s.waiters;
        }
      }
    case _ =>
  }

  /** Its timer can fire, while it waits, exactly if it was given a time. */
  lemma WaitsAsAsked(s: State, id: nat, time: int, ops: seq<Op>, t: State)
    requires Inv(s) && Legal(s, DoTake(id, time)) && Step(s, DoTake(id, time)).1 == Waits
    requires Reaches(SameCall(id), Run, Step(s, DoTake(id, time)).0, ops, t)
    ensures Inv(t) && id in t.threads
    ensures Legal(t, DoTimeout(id)) <==> t.threads[id].phase.Blocked? && time > 0
  {
    CallAsAsked(s, id, time);
    RunAsAsked(Step(s, DoTake(id, time)).0, id, time, ops, t);
  }

  lemma RunAsAsked(s: State, id: nat, time: int, ops: seq<Op>, t: State)
    requires AsAsked(s, id, time) && Reaches(SameCall(id), Run, s, ops, t)
    ensures AsAsked(t, id, time)
  {
    var inv := (x: State) => AsAsked(x, id, time);
    forall x: State, o: Op | inv(x) && SameCall(id)(x, o)
      ensures inv(Run(x, o))
    {
      StepAsAsked(x, o, id, time);
    }
    RunKeeps(inv, SameCall(id), Run, s, ops, t);
  }

  /** If thread `id` waits, it does so as it was asked to. */
  ghost predicate AsAsked(s: State, id: nat, time: int) {
    Inv(s) && id in s.threads && (s.threads[id].phase.Blocked? ==> s.threads[id].phase == Blocked(time > 0))
  }

  lemma CallAsAsked(s: State, id: nat, time: int)
    requires Inv(s) && Legal(s, DoTake(id, time)) && Step(s, DoTake(id, time)).1 == Waits
    ensures AsAsked(Step(s, DoTake(id, time)).0, id, time)
  {
    StepInv(s, DoTake(id, time));
    TakeAnswers(s, id, time);
  }

  lemma StepAsAsked(s: State, op: Op, id: nat, time: int)
    requires AsAsked(s, id, time) && SameCall(id)(s, op)
    ensures AsAsked(Run(s, op), id, time)
  {
    StepInv(s, op);
    if op.DoEnterCritical? || op.DoExitCritical? || op.id != id { OtherPhases(s, op, id); } else { OwnPhase(s, op); }
  }

  lemma OwnPhase(s: State, op: Op)
    requires Inv(s) && Legal(s, op) && (op.DoRelease? || op.DoTimeout? || op.DoReturn?)
    ensures op.id in Step(s, op).0.threads && !Step(s, op).0.threads[op.id].phase.Blocked?
  {
    if op.DoRelease? && s.owner == Some(op.id) {
      if s.hold != 1 {
        ReleaseCounts(s, op.id);
      } else if s.waiters != [] {
        HandOverIs(s, op.id);
      }
    }
  }
}
