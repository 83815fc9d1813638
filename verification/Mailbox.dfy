/** rt_mb_send_wait and rt_mb_recv on the ring buffer, section by section; each method is proved to make the step of
    MailboxSpec, whose queue the ring represents. */
module Mailbox {
  import opened Words
  import Bits
  import opened Lists
  import opened WaitList
  import opened WaitTime
  import opened MailboxSpec

  /** The slot `i` places behind slot `from` on a ring of `size` slots. */
  function Slot(from: nat, i: nat, size: nat): (k: int) {
    if from + i < size then from + i else from + i - size
  }

  /** The mails in the ring, oldest first. */
  ghost function Contents(pool: seq<word>, out: nat, entry: nat): seq<word>
    requires out < |pool| && entry <= |pool|
  {
    seq(entry, i requires 0 <= i < entry => pool[Slot(out, i, |pool|)])
  }

  /** `in_offset == (out_offset + entry) mod size` */
  lemma InOffset(inOff: nat, out: nat, entry: nat, size: nat)
    requires out < size && entry <= size && inOff == Slot(out, entry, size)
    ensures inOff < size && inOff == (out + entry) % size
  {
    if out + entry < size {
      Bits.ModUnique(out + entry, size, 0, inOff);
    } else {
      Bits.ModUnique(out + entry, size, 1, inOff);
    }
  }

  /** Writing at in_offset appends. */
  lemma PutAppends(pool: seq<word>, out: nat, entry: nat, value: word)
    requires out < |pool| && entry < |pool|
    ensures var k := Slot(out, entry, |pool|);
      Contents(pool[k := value], out, entry + 1) == Contents(pool, out, entry) + [value]
  {
  }

  /** Moving out_offset on drops the oldest mail. */
  lemma GetDrops(pool: seq<word>, out: nat, entry: nat)
    requires out < |pool| && 0 < entry <= |pool|
    ensures Contents(pool, out, entry)[0] == pool[out]
    ensures Contents(pool, Slot(out, 1, |pool|), entry - 1) == Contents(pool, out, entry)[1..]
  {
  }

  class MailboxObject {
    const size: nat
    const msgPool: array<word>
    var entry: nat
    var inOffset: nat
    var outOffset: nat
    var suspendThread: seq<nat>         // the waiting receivers
    var suspendSenderThread: seq<nat>
    const flag: Flag
    var threads: map<nat, Phase>        // where the threads are that use this mailbox
    const priorities: map<nat, nat>
    var tick: word
    ghost var st: State

    ghost predicate Represents(s: State)
      reads this, msgPool
    {
      && msgPool.Length == size == s.size && 0 < size && entry <= size && outOffset < size
      && inOffset == Slot(outOffset, entry, size)
      && s.queue == Contents(msgPool[..], outOffset, entry)
      && suspendThread == s.recvWait && suspendSenderThread == s.sendWait && flag == s.flag
      && threads == s.clients && priorities == s.prios && tick == s.tick
    }

    ghost predicate Valid()
      reads this, msgPool
    {
      Inv(st) && Represents(st)
    }

    /** rt_mb_init of a mailbox for the threads with the given priorities. */
    constructor (size: nat, flag: Flag, prios: map<nat, nat>)
      requires size > 0
      ensures Valid() && fresh(msgPool) && st == Init(size, flag, prios)
    {
      this.size := size;
      msgPool := new word[size](_ => 0);
      entry, inOffset, outOffset := 0, 0, 0;
      suspendThread, suspendSenderThread := [], [];
      this.flag := flag;
      threads := map id | id in prios :: Out;
      priorities := prios;
      tick := 0;
      st := Init(size, flag, prios);
      new;
      assert Contents(msgPool[..], 0, 0) == [];
    }

    /** Resumes the first of the waiting receivers. */
    method ResumeReceiver()
      requires Represents(st) && ListsOk(st)
      modifies this`suspendThread, this`threads, this`st
      ensures Represents(st) && st == WakeReceiver(old(st))
    {
      if suspendThread != [] {
        var w := suspendThread[0];
        assert w in st.recvWait;
        threads := threads[w := RecvWoken(threads[w].timeout, threads[w].since)];
        suspendThread := suspendThread[1..];
      }
      st := WakeReceiver(st);
    }

    method ResumeSender()
      requires Represents(st) && ListsOk(st)
      modifies this`suspendSenderThread, this`threads, this`st
      ensures Represents(st) && st == WakeSender(old(st))
    {
      if suspendSenderThread != [] {
        var w := suspendSenderThread[0];
        assert w in st.sendWait;
        threads := threads[w := SendWoken(threads[w].value, threads[w].timeout, threads[w].since)];
        suspendSenderThread := suspendSenderThread[1..];
      }
      st := WakeSender(st);
    }

    /** The ring part of sending. */
    method Enter(value: word)
      requires Represents(st) && entry < size
      modifies this`inOffset, this`entry, this`st, msgPool
      ensures Represents(st) && st == old(st).(queue := old(st).queue + [value], sent := old(st).sent + [value])
    {
      PutAppends(msgPool[..], outOffset, entry, value);
      ghost var pool := msgPool[..];
      msgPool[inOffset] := value;
      assert msgPool[..] == pool[inOffset := value];
      inOffset := inOffset + 1;
      if inOffset >= size {
        inOffset := 0;
      }
      entry := entry + 1;
      st := st.(queue := st.queue + [value], sent := st.sent + [value]);
    }

    /** The ring part of receiving. */
    method Leave() returns (value: word)
      requires Represents(st) && entry > 0
      modifies this`outOffset, this`entry, this`st
      ensures Represents(st) && old(st).queue != [] && value == old(st).queue[0]
      ensures st == old(st).(queue := old(st).queue[1..], rcvd := old(st).rcvd + [value])
    {
      GetDrops(msgPool[..], outOffset, entry);
      value := msgPool[outOffset];
      outOffset := outOffset + 1;
      if outOffset >= size {
        outOffset := 0;
      }
      entry := entry - 1;
      st := st.(queue := st.queue[1..], rcvd := st.rcvd + [value]);
    }

    /** The thread's phase, as kept by the kernel. */
    method SetThread(id: nat, p: Phase)
      requires Represents(st)
      modifies this`threads, this`st
      ensures Represents(st) && st == SetPhase(old(st), id, p)
    {
      threads := threads[id := p];
      st := SetPhase(st, id, p);
    }

    /** rt_mb_send_wait from the test of its loop on. */
    method SendPart(id: nat, value: word, timeout: int) returns (r: Result)
      requires Valid() && Sending(st, id)
      modifies this, msgPool
      ensures Valid() && (st, r) == SendSection(old(st), id, value, timeout)
    {
      SendSectionInv(st, id, value, timeout);
      LeaveKeeps(st, id);
      if entry == size {
        if timeout == 0 {
          SetThread(id, Out);
          return Efull;
        }
        SetThread(id, SendWaiting(value, timeout, tick));
        suspendSenderThread := SuspendOn(suspendSenderThread, flag, Priority(priorities), id);
        st := st.(sendWait := suspendSenderThread);
        return Waits;
      }
      SetThread(id, Out);
      Enter(value);
      ResumeReceiver();
      return Ok;
    }

    /** rt_mb_recv from the test of its loop on. */
    method RecvPart(id: nat, timeout: int) returns (r: Result)
      requires Valid() && Receiving(st, id)
      modifies this, msgPool
      ensures Valid() && (st, r) == RecvSection(old(st), id, timeout)
    {
      RecvSectionInv(st, id, timeout);
      LeaveKeeps(st, id);
      if entry == 0 {
        if timeout == 0 {
          SetThread(id, Out);
          return Etimeout;
        }
        SetThread(id, RecvWaiting(timeout, tick));
        suspendThread := SuspendOn(suspendThread, flag, Priority(priorities), id);
        st := st.(recvWait := suspendThread);
        return Waits;
      }
      SetThread(id, Out);
      var mail := Leave();
      ResumeSender();
      return Received(mail);
    }

    /** `timeout -= tick_delta` and the test below it. */
    method TimeLeft(timeout: int, since: word) returns (left: int)
      ensures left == Remaining(timeout, since, tick)
    {
      left := timeout;
      if left > 0 {
        var delta := Wrap(tick - since);
        left := Int32(Wrap(left - delta));
        if left < 0 {
          left := 0;
        }
      }
    }

    /** rt_mb_send_wait */
    method SendWait(id: nat, value: word, timeout: int) returns (r: Result)
      requires Valid() && Legal(st, Send(id, value, timeout))
      modifies this, msgPool
      ensures Valid() && (st, r) == Step(old(st), Send(id, value, timeout))
    {
      r := SendPart(id, value, timeout);
    }

    /** A sender that was woken runs again. */
    method SendResumed(id: nat) returns (r: Result)
      requires Valid() && Legal(st, SendAgain(id))
      modifies this, msgPool
      ensures Valid() && (st, r) == Step(old(st), SendAgain(id))
    {
      var left := TimeLeft(threads[id].timeout, threads[id].since);
      r := SendPart(id, threads[id].value, left);
    }

    /** rt_mb_recv */
    method Receive(id: nat, timeout: int) returns (r: Result)
      requires Valid() && Legal(st, Recv(id, timeout))
      modifies this, msgPool
      ensures Valid() && (st, r) == Step(old(st), Recv(id, timeout))
    {
      r := RecvPart(id, timeout);
    }

    /** A receiver that was woken runs again. */
    method ReceiveResumed(id: nat) returns (r: Result)
      requires Valid() && Legal(st, RecvAgain(id))
      modifies this, msgPool
      ensures Valid() && (st, r) == Step(old(st), RecvAgain(id))
    {
      var left := TimeLeft(threads[id].timeout, threads[id].since);
      r := RecvPart(id, left);
    }

    /** The thread leaves the list it is on, if any. */
    method Unlink(id: nat, p: Phase)
      requires Represents(st) && ListsOk(st) && id in st.clients
      modifies this
      ensures Represents(st) && st == Depart(old(st), id, p)
    {
      DropOther(st.recvWait, id);
      DropOther(st.sendWait, id);
      if threads[id].RecvWaiting? {
        suspendThread := Drop(suspendThread, id);
      } else if threads[id].SendWaiting? {
        suspendSenderThread := Drop(suspendSenderThread, id);
      }
      threads := threads[id := p];
      st := Depart(st, id, p);
    }

    /** The timer of a waiting thread fires. */
    method TimerFires(id: nat)
      requires Valid() && Legal(st, Timeout(id))
      modifies this
      ensures Valid() && st == Step(old(st), Timeout(id)).0
    {
      DepartInv(st, id, Expired);
      Unlink(id, Expired);
    }

    /** rt_thread_delete of a thread of the mailbox. */
    method ThreadDeleted(id: nat)
      requires Valid() && Legal(st, Delete(id))
      modifies this
      ensures Valid() && st == Step(old(st), Delete(id)).0
    {
      DepartInv(st, id, Gone);
      Unlink(id, Gone);
    }

    /** rt_thread_resume of a waiting thread by another one. */
    method ThreadResumed(id: nat)
      requires Valid() && Legal(st, Resume(id))
      modifies this
      ensures Valid() && st == Step(old(st), Resume(id)).0
    {
      DepartInv(st, id, Awake(st.clients[id]));
      Unlink(id, Awake(threads[id]));
    }

    lemma DropOther(ws: seq<nat>, id: nat)
      ensures id !in ws ==> Drop(ws, id) == ws
    {
      if id !in ws { DropAbsent(ws, id); }
    }
  }
}
