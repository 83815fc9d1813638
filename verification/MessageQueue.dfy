/** rt_mq_init, rt_mq_send, rt_mq_urgent and rt_mq_recv on linked nodes, section by section; each method is proved to
    make the step of MessageQueueSpec. */
module MessageQueue {
  import opened Words
  import opened Lists
  import opened WaitList
  import opened WaitTime
  import opened MessageQueueSpec

  const RT_NULL := -1

  /** The `next` links lead from `p` through `xs` to NULL. */
  predicate Links(next: seq<int>, p: int, xs: seq<nat>)
    decreases |xs|
  {
    if xs == [] then p == RT_NULL else p == xs[0] && xs[0] < |next| && Links(next, next[xs[0]], xs[1..])
  }

  /** `msg_queue_tail` */
  function TailOf(queue: seq<nat>): int {
    if queue == [] then RT_NULL else queue[|queue| - 1]
  }

  lemma {:induction false} LinksFrame(next: seq<int>, p: int, xs: seq<nat>, x: nat, v: int)
    requires Links(next, p, xs) && x < |next| && x !in xs
    ensures Links(next[x := v], p, xs)
    decreases |xs|
  {
    if xs != [] { LinksFrame(next, next[xs[0]], xs[1..], x, v); }
  }

  lemma LinksPush(next: seq<int>, p: int, xs: seq<nat>, x: nat)
    requires Links(next, p, xs) && x < |next| && x !in xs
    ensures Links(next[x := p], x, [x] + xs)
  {
    LinksFrame(next, p, xs, x, p);
    assert ([x] + xs)[1..] == xs;
  }

  lemma {:induction false} LinksAppend(next: seq<int>, p: int, xs: seq<nat>, x: nat)
    requires Links(next, p, xs) && x < |next| && x !in xs && next[x] == RT_NULL && Distinct(xs)
    ensures xs == [] ==> Links(next, x, [x])
    ensures xs != [] ==> xs[|xs| - 1] < |next| && Links(next[xs[|xs| - 1] := x], p, xs + [x])
    decreases |xs|
  {
    assert [x][1..] == [];
    if |xs| == 1 {
      assert xs + [x] == [xs[0], x] && [xs[0], x][1..] == [x];
      assert Links(next[xs[0] := x], x, [x]);
    } else if |xs| > 1 {
      assert (xs + [x])[1..] == xs[1..] + [x];
      assert xs[1..][|xs| - 2] == xs[|xs| - 1];
      LinksAppend(next, next[xs[0]], xs[1..], x);
      assert xs[|xs| - 1] in xs[1..];
    }
  }

  /** A node to be appended has no successor yet. */
  predicate EndsOk(next: seq<int>, clients: map<nat, Stage>) {
    forall id :: id in clients && clients[id].Filled? && !clients[id].urgent ==>
      clients[id].node < |next| && next[clients[id].node] == RT_NULL
  }

  /** No thread but `id` holds node `x`. */
  predicate HeldBy(clients: map<nat, Stage>, id: nat, x: nat) {
    && id in clients && Held(clients[id]) == Some(x)
    && forall y :: y in clients && y != id ==> Held(clients[y]) != Some(x)
  }

  /** A held node is on neither list. */
  predicate Apart(s: State, id: nat, x: nat) {
    HeldBy(s.clients, id, x) && x < s.max && x !in s.free && x !in s.queue
  }

  lemma HeldApart(s: State, id: nat)
    requires Placed(s) && id in s.clients && Held(s.clients[id]).Some?
    ensures Apart(s, id, Held(s.clients[id]).value)
  {
    var x := Held(s.clients[id]).value;
    assert s.place[x] == With(id);
    forall y | y in s.clients && y != id && Held(s.clients[y]).Some?
      ensures Held(s.clients[y]).value != x
    {
      assert s.place[Held(s.clients[y]).value] == With(y);
    }
  }

  /** The last node of the queue is not on the free list and nobody holds it. */
  lemma TailApart(s: State, x: nat)
    requires Placed(s) && s.queue != [] && x == TailOf(s.queue)
    ensures x < s.max && x !in s.free && forall y :: y in s.clients ==> Held(s.clients[y]) != Some(x)
  {
    assert x in s.queue;
    forall y | y in s.clients && Held(s.clients[y]).Some?
      ensures Held(s.clients[y]).value != x
    {
      assert s.place[Held(s.clients[y]).value] == With(y);
    }
  }

  /** Writing the link of a node that no other thread is about to append. */
  lemma EndsKept(next: seq<int>, clients: map<nat, Stage>, x: nat, v: int)
    requires EndsOk(next, clients) && x < |next|
    requires forall y :: y in clients && clients[y].Filled? && !clients[y].urgent ==> clients[y].node != x
    ensures EndsOk(next[x := v], clients)
  {
  }

  class MessageQueueObject {
    const maxMsgs: nat
    const msgSize: nat
    const next: array<int>            // `next` of each node
    const data: array<Bytes>          // the bytes behind each node
    var msgQueueHead: int
    var msgQueueTail: int
    var msgQueueFree: int
    var entry: nat
    var suspendThread: seq<nat>
    const flag: Flag
    var threads: map<nat, Stage>      // where the threads are that use this queue
    const priorities: map<nat, nat>
    var tick: word
    ghost var st: State

    ghost predicate Represents(s: State)
      reads this, next, data
    {
      && maxMsgs == s.max && msgSize == s.msgSize && next.Length == maxMsgs && data.Length == maxMsgs
      && Links(next[..], msgQueueFree, s.free) && Links(next[..], msgQueueHead, s.queue)
      && msgQueueTail == TailOf(s.queue) && entry == |s.queue|
      && data[..] == s.data && EndsOk(next[..], s.clients)
      && suspendThread == s.recvWait && flag == s.flag && threads == s.clients && priorities == s.prios && tick == s.tick
    }

    ghost predicate Valid()
      reads this, next, data
    {
      Inv(st) && Represents(st)
    }

    /** The head is NULL exactly when the tail is, exactly when `entry` is 0. */
    lemma EmptyAgrees()
      requires Valid()
      ensures msgQueueHead == RT_NULL <==> msgQueueTail == RT_NULL
      ensures msgQueueHead == RT_NULL <==> entry == 0
    {
    }

    /** rt_mq_init of a queue for the threads with the given priorities; the pool may hold any bytes. */
    constructor (max: nat, size: nat, pool: seq<Bytes>, flag: Flag, prios: map<nat, nat>)
      requires |pool| == max && forall x :: 0 <= x < max ==> |pool[x]| == size
      ensures Valid() && fresh(next) && fresh(data) && st == Init(max, size, pool, flag, prios)
    {
      maxMsgs, msgSize := max, size;
      next := new int[max](_ => RT_NULL);
      data := new Bytes[max](i requires 0 <= i < |pool| => pool[i]);
      msgQueueHead, msgQueueTail, msgQueueFree := RT_NULL, RT_NULL, RT_NULL;
      entry := 0;
      suspendThread := [];
      this.flag := flag;
      threads := map id | id in prios :: Idle;
      priorities := prios;
      tick := 0;
      st := Init(max, size, pool, flag, prios);
      new;
      InitInv(max, size, pool, flag, prios);
      var temp := 0;
      while temp < max
        invariant 0 <= temp <= max && Links(next[..], msgQueueFree, Descending(temp))
        invariant msgQueueHead == RT_NULL && msgQueueTail == RT_NULL && entry == 0 && data[..] == pool
        invariant suspendThread == [] && threads == st.clients && tick == 0 && st == Init(max, size, pool, flag, prios)
      {
        DescendingIs(temp);
        LinksPush(next[..], msgQueueFree, Descending(temp), temp);
        next[temp] := msgQueueFree;
        msgQueueFree := temp;
        temp := temp + 1;
      }
    }

    /** The first section of rt_mq_send and rt_mq_urgent. */
    method SendTake(id: nat, buffer: Bytes, urgent: bool) returns (a: Answer)
      requires Valid() && Legal(st, DoSend(id, buffer, urgent))
      modifies this
      ensures Valid() && (st, a) == Step(old(st), DoSend(id, buffer, urgent))
    {
      SendInv(st, id, buffer, urgent);
      a := TakeFree(id, buffer, urgent);
    }

    method TakeFree(id: nat, buffer: Bytes, urgent: bool) returns (a: Answer)
      requires Represents(st)
      modifies this
      ensures Represents(st) && (st, a) == TakeNode(old(st), id, buffer, urgent)
    {
      if |buffer| > msgSize {
        return Failed;
      }
      var msg := msgQueueFree;
      if msg == RT_NULL {
        return Full;
      }
      msgQueueFree := next[msg];
      threads := threads[id := Filling(msg, buffer, urgent)];
      st := TakeNode(st, id, buffer, urgent).0;
      return Goes;
    }

    /** Between the sections: `msg->next = RT_NULL` (rt_mq_send only) and rt_memcpy. */
    method SendFill(id: nat)
      requires Valid() && Legal(st, DoFill(id))
      modifies this, next, data
      ensures Valid() && st == Step(old(st), DoFill(id)).0
    {
      FillInv(st, id);
      HeldApart(st, id);
      FillNode(id, threads[id]);
    }

    method FillNode(id: nat, g: Stage)
      requires Represents(st) && id in st.clients && st.clients[id] == g && g.Filling? && Apart(st, id, g.node)
      modifies this, next, data
      ensures Represents(st) && st == Fill(old(st), id)
    {
      if !g.urgent {
        WriteOwn(id, g.node, RT_NULL);
      }
      data[g.node] := Written(data[g.node], g.buffer);
      threads := threads[id := Filled(g.node, g.buffer, g.urgent)];
      st := Fill(st, id);
    }

    /** Writes the link of the node that thread `id` holds. */
    method WriteOwn(id: nat, x: nat, v: int)
      requires Represents(st) && Apart(st, id, x) && (st.clients[id].Filled? ==> st.clients[id].urgent)
      modifies next
      ensures Represents(st) && next[..] == old(next[..])[x := v]
    {
      LinksFrame(next[..], msgQueueFree, st.free, x, v);
      LinksFrame(next[..], msgQueueHead, st.queue, x, v);
      EndsKept(next[..], st.clients, x, v);
      next[x] := v;
      assert next[..] == old(next[..])[x := v];
    }

    /** rt_ipc_list_resume on the waiting receivers. */
    method Resume()
      requires Represents(st) && (forall id :: id in st.recvWait ==> id in st.clients && st.clients[id].Waiting?)
      modifies this`suspendThread, this`threads, this`st
      ensures Represents(st) && st == Wake(old(st))
    {
      if suspendThread != [] {
        var w := suspendThread[0];
        assert w in st.recvWait;
        threads := threads[w := Woken(threads[w].size, threads[w].timeout, threads[w].since)];
        suspendThread := suspendThread[1..];
      }
      st := Wake(st);
    }

    /** The last section of rt_mq_send and rt_mq_urgent. */
    method SendLink(id: nat)
      requires Valid() && Legal(st, DoLink(id))
      modifies this, next
      ensures Valid() && st == Step(old(st), DoLink(id)).0
    {
      LinkInv(st, id);
      HeldApart(st, id);
      if st.queue != [] { TailApart(st, TailOf(st.queue)); }
      LinkMessage(id);
      Resume();
    }

    method LinkMessage(id: nat)
      requires Represents(st) && Legal(st, DoLink(id)) && Apart(st, id, st.clients[id].node) && Distinct(st.queue)
      requires st.queue != [] ==>
        var x := TailOf(st.queue); x < st.max && x !in st.free && forall y :: y in st.clients ==> Held(st.clients[y]) != Some(x)
      modifies this, next
      ensures Represents(st) && st == Linked(old(st), id)
    {
      if threads[id].urgent {
        LinkFirst(id, threads[id].node);
      } else {
        LinkLast(id, threads[id].node);
      }
    }

    /** Links a filled node in at the end of the queue. */
    method LinkLast(id: nat, msg: nat)
      requires Represents(st) && Legal(st, DoLink(id)) && st.clients[id].node == msg && !st.clients[id].urgent
      requires Apart(st, id, msg) && Distinct(st.queue)
      requires st.queue != [] ==>
        var x := TailOf(st.queue); x < st.max && x !in st.free && forall y :: y in st.clients ==> Held(st.clients[y]) != Some(x)
      modifies this, next
      ensures Represents(st) && st == Linked(old(st), id)
    {
      AppendNode(id, msg);
      threads := threads[id := Idle];
      entry := entry + 1;
      st := Linked(st, id);
    }

    /** The links of rt_mq_send. */
    method AppendNode(id: nat, msg: nat)
      requires Represents(st) && Apart(st, id, msg) && Distinct(st.queue) && next[msg] == RT_NULL
      requires st.queue != [] ==>
        var x := TailOf(st.queue); x < st.max && x !in st.free && forall y :: y in st.clients ==> Held(st.clients[y]) != Some(x)
      modifies this`msgQueueHead, this`msgQueueTail, next
      ensures Links(next[..], msgQueueFree, st.free) && Links(next[..], msgQueueHead, st.queue + [msg])
      ensures msgQueueTail == msg && EndsOk(next[..], st.clients)
    {
      LinksAppend(next[..], msgQueueHead, st.queue, msg);
      if msgQueueTail != RT_NULL {
        var last := msgQueueTail;
        LinksFrame(next[..], msgQueueFree, st.free, last, msg);
        EndsKept(next[..], st.clients, last, msg);
        next[last] := msg;
        assert next[..] == old(next[..])[last := msg];
      } else {
        assert [] + [msg] == [msg];
      }
      msgQueueTail := msg;
      if msgQueueHead == RT_NULL {
        msgQueueHead := msg;
      }
    }

    /** Links a filled node in at the front of the queue. */
    method LinkFirst(id: nat, msg: nat)
      requires Represents(st) && Legal(st, DoLink(id)) && st.clients[id].node == msg && st.clients[id].urgent
      requires Apart(st, id, msg)
      modifies this, next
      ensures Represents(st) && st == Linked(old(st), id)
    {
      LinksPush(next[..], msgQueueHead, st.queue, msg);
      WriteOwn(id, msg, msgQueueHead);
      msgQueueHead := msg;
      if msgQueueTail == RT_NULL {
        msgQueueTail := msg;
      }
      threads := threads[id := Idle];
      entry := entry + 1;
      st := Linked(st, id);
    }

    /** rt_mq_recv from the test of its loop to the next point where interrupts are enabled. */
    method RecvPart(id: nat, size: nat, timeout: int) returns (a: Answer)
      requires Represents(st) && id in st.clients && Distinct(st.queue) && |st.deque| == |st.queue|
      modifies this
      ensures Represents(st) && (st, a) == TakeMessage(old(st), id, size, timeout)
    {
      if entry == 0 {
        if timeout == 0 {
          threads := threads[id := Idle];
          st := TakeMessage(st, id, size, timeout).0;
          return Late;
        }
        threads := threads[id := Waiting(size, timeout, tick)];
        suspendThread := SuspendOn(suspendThread, flag, Priority(priorities), id);
        st := TakeMessage(st, id, size, timeout).0;
        return Goes;
      }
      PopHead(id, size);
      st := TakeMessage(st, id, size, timeout).0;
      return Goes;
    }

    /** Takes the first node off the queue for thread `id`. */
    method PopHead(id: nat, size: nat)
      requires Represents(st) && st.queue != [] && id in st.clients && Distinct(st.queue)
      modifies this`msgQueueHead, this`msgQueueTail, this`entry, this`threads
      ensures Links(next[..], msgQueueHead, st.queue[1..]) && msgQueueTail == TailOf(st.queue[1..])
      ensures entry == |st.queue| - 1 && st.queue[0] < maxMsgs
      ensures threads == old(threads)[id := Copying(st.queue[0], size, st.data[st.queue[0]])]
    {
      var msg := msgQueueHead;
      msgQueueHead := next[msg];
      LastNode(st.queue);
      if msgQueueTail == msg {
        msgQueueTail := RT_NULL;
      }
      entry := entry - 1;
      threads := threads[id := Copying(msg, size, data[msg])];
    }

    lemma LastNode(queue: seq<nat>)
      requires queue != [] && Distinct(queue)
      ensures TailOf(queue) == queue[0] <==> |queue| == 1
      ensures |queue| > 1 ==> TailOf(queue[1..]) == TailOf(queue)
    {
      if |queue| > 1 { assert queue[|queue| - 1] in queue[1..]; }
    }

    /** rt_mq_recv */
    method Recv(id: nat, size: nat, timeout: int) returns (a: Answer)
      requires Valid() && Legal(st, DoRecv(id, size, timeout))
      modifies this
      ensures Valid() && (st, a) == Step(old(st), DoRecv(id, size, timeout))
    {
      RecvInv(st, id, size, timeout);
      MailsLength(st.data, st.queue);
      a := RecvPart(id, size, timeout);
    }

    /** A receiver that was woken runs again. */
    method RecvResumed(id: nat) returns (a: Answer)
      requires Valid() && Legal(st, DoRecvAgain(id))
      modifies this
      ensures Valid() && (st, a) == Step(old(st), DoRecvAgain(id))
    {
      var left := TimeLeft(threads[id].timeout, threads[id].since);
      RecvInv(st, id, threads[id].size, left);
      MailsLength(st.data, st.queue);
      a := RecvPart(id, threads[id].size, left);
    }

    /** `timeout -= tick_delta` and the test below it. */
    method TimeLeft(timeout: int, since: word) returns (left: int)
      ensures left == Remaining(timeout, since, tick)
    {
      left := timeout;
      if left > 0 {
        var delta := Wrap(tick - since);
        left := Int32(Wrap(left - delta));
        if left < 0 {
          left := 0;
        }
      }
    }

    /** The end of rt_mq_recv: the message is copied out and the node goes back to the free list. */
    method RecvFinish(id: nat) returns (a: Answer)
      requires Valid() && Legal(st, DoFinish(id))
      modifies this, next
      ensures Valid() && (st, a) == Step(old(st), DoFinish(id))
      ensures a == Got(var g := old(st).clients[id]; if g.size > |g.mail| then g.mail else g.mail[..g.size])
    {
      FinishInv(st, id);
      FinishReturns(st, id);
      HeldApart(st, id);
      a := CopyOut(id, threads[id]);
    }

    method CopyOut(id: nat, g: Stage) returns (a: Answer)
      requires Represents(st) && id in st.clients && st.clients[id] == g && g.Copying? && Apart(st, id, g.node)
      modifies this, next
      ensures Represents(st) && (st, a) == Finish(old(st), id)
    {
      var slot := data[g.node];
      a := Got(if g.size > |slot| then slot else slot[..g.size]);
      LinksPush(next[..], msgQueueFree, st.free, g.node);
      WriteOwn(id, g.node, msgQueueFree);
      msgQueueFree := g.node;
      threads := threads[id := Idle];
      st := Finish(st, id).0;
    }

    /** The timer of a waiting receiver fires. */
    method TimerFires(id: nat)
      requires Valid() && Legal(st, DoTimeout(id))
      modifies this
      ensures Valid() && st == Step(old(st), DoTimeout(id)).0
    {
      DepartInv(st, id, TimedOut);
      Withdraw(id, TimedOut);
    }

    /** rt_thread_delete of a thread of the queue. */
    method ThreadDeleted(id: nat)
      requires Valid() && Legal(st, DoDelete(id))
      modifies this
      ensures Valid() && st == Step(old(st), DoDelete(id)).0
    {
      DepartInv(st, id, Gone);
      Withdraw(id, Gone);
    }

    /** rt_thread_resume of a waiting receiver by another thread. */
    method ThreadResumed(id: nat)
      requires Valid() && Legal(st, DoResume(id))
      modifies this
      ensures Valid() && st == Step(old(st), DoResume(id)).0
    {
      var g := Woken(threads[id].size, threads[id].timeout, threads[id].since);
      DepartInv(st, id, g);
      Withdraw(id, g);
    }

    method Withdraw(id: nat, g: Stage)
      requires Represents(st) && id in st.clients && WaitOk(st) && Held(g).None?
      modifies this`suspendThread, this`threads, this`st
      ensures Represents(st) && st == Depart(old(st), id, g)
    {
      if id !in suspendThread { DropAbsent(suspendThread, id); }
      if threads[id].Waiting? {
        suspendThread := Drop(suspendThread, id);
      }
      threads := threads[id := g];
      st := Depart(st, id, g);
    }
  }
}
