/** The list of threads suspended on an IPC object: rt_ipc_list_suspend in FIFO and in priority order. */
module WaitList {
  import opened Lists

  datatype Flag = Fifo | Prio

  /** In front of the first waiter with a numerically larger (less urgent) priority. */
  function InsertByPriority(ws: seq<nat>, prio: nat -> nat, id: nat): seq<nat> {
    if ws == [] || prio(id) < prio(ws[0]) then [id] + ws else [ws[0]] + InsertByPriority(ws[1..], prio, id)
  }

  function Enqueue(ws: seq<nat>, flag: Flag, prio: nat -> nat, id: nat): seq<nat> {
    if flag.Fifo? then ws + [id] else InsertByPriority(ws, prio, id)
  }

  /** Most urgent first. */
  predicate ByPriority(ws: seq<nat>, prio: nat -> nat) {
    forall i, j :: 0 <= i < j < |ws| ==> prio(ws[i]) <= prio(ws[j])
  }

  /** Where the search stops. */
  function Position(ws: seq<nat>, prio: nat -> nat, id: nat): (k: nat)
    ensures k <= |ws|
  {
    if ws == [] || prio(id) < prio(ws[0]) then 0 else 1 + Position(ws[1..], prio, id)
  }

  lemma {:induction false} PositionSplits(ws: seq<nat>, prio: nat -> nat, id: nat)
    ensures var k := Position(ws, prio, id); InsertByPriority(ws, prio, id) == ws[..k] + [id] + ws[k..]
  {
    if ws != [] && prio(id) >= prio(ws[0]) {
      PositionSplits(ws[1..], prio, id);
      var k := Position(ws, prio, id);
      assert ws[..k] == [ws[0]] + ws[1..][..k - 1] && ws[k..] == ws[1..][k - 1..];
    }
  }

  /** In a sorted list the waiters in front of that place are exactly those at least as urgent. */
  lemma {:induction false} PositionDivides(ws: seq<nat>, prio: nat -> nat, id: nat, i: nat)
    requires ByPriority(ws, prio) && i < |ws|
    ensures prio(ws[i]) <= prio(id) <==> i < Position(ws, prio, id)
    decreases i
  {
    if prio(id) >= prio(ws[0]) && i > 0 {
      assert forall j :: 0 <= j < |ws| - 1 ==> ws[1..][j] == ws[j + 1];
      PositionDivides(ws[1..], prio, id, i - 1);
    }
  }

  /** Where the new thread goes: in FIFO order to the end; in priority order in front of the first waiter that is less
      urgent, whatever the order of the list. */
  predicate JoinsAt(ws: seq<nat>, flag: Flag, prio: nat -> nat, id: nat, k: nat) {
    && k <= |ws|
    && (flag.Fifo? ==> k == |ws|)
    && (flag.Prio? ==> (forall i :: 0 <= i < k ==> prio(ws[i]) <= prio(id)) && (k < |ws| ==> prio(ws[k]) > prio(id)))
  }

  lemma {:induction false} PositionStops(ws: seq<nat>, prio: nat -> nat, id: nat)
    ensures JoinsAt(ws, Prio, prio, id, Position(ws, prio, id))
  {
    if ws != [] && prio(id) >= prio(ws[0]) {
      PositionStops(ws[1..], prio, id);
      var k := Position(ws, prio, id);
      assert forall i :: 0 < i < k ==> ws[i] == ws[1..][i - 1];
      assert k < |ws| ==> ws[k] == ws[1..][k - 1];
    }
  }

  /** The list `after` is the list `before` with thread `id` at the place that its order gives it. */
  ghost predicate Joined(before: seq<nat>, after: seq<nat>, flag: Flag, prio: nat -> nat, id: nat) {
    exists k: nat :: JoinsAt(before, flag, prio, id, k) && after == before[..k] + [id] + before[k..]
  }

  lemma EnqueuePlace(ws: seq<nat>, flag: Flag, prio: nat -> nat, id: nat) returns (k: nat)
    ensures JoinsAt(ws, flag, prio, id, k) && Enqueue(ws, flag, prio, id) == ws[..k] + [id] + ws[k..]
    ensures Joined(ws, Enqueue(ws, flag, prio, id), flag, prio, id)
  {
    k := if flag.Fifo? then |ws| else Position(ws, prio, id);
    PositionSplits(ws, prio, id);
    PositionStops(ws, prio, id);
    assert ws + [id] == ws[..|ws|] + [id] + ws[|ws|..];
  }

  /** A thread joins the list once, no other one is lost, and the others keep their order. */
  lemma EnqueueIs(ws: seq<nat>, flag: Flag, prio: nat -> nat, id: nat)
    requires Distinct(ws) && id !in ws
    ensures Distinct(Enqueue(ws, flag, prio, id)) && |Enqueue(ws, flag, prio, id)| == |ws| + 1
    ensures Elements(Enqueue(ws, flag, prio, id)) == Elements(ws) + {id}
    ensures Drop(Enqueue(ws, flag, prio, id), id) == ws
  {
    var k := if flag.Fifo? then |ws| else Position(ws, prio, id);
    PositionSplits(ws, prio, id);
    assert ws + [id] == ws[..|ws|] + [id] + ws[|ws|..];
    InsertIs(ws, k, id);
  }

  lemma {:induction false} InsertIs(ws: seq<nat>, k: nat, id: nat)
    requires Distinct(ws) && id !in ws && k <= |ws|
    ensures var r := ws[..k] + [id] + ws[k..];
      Distinct(r) && |r| == |ws| + 1 && Elements(r) == Elements(ws) + {id} && Drop(r, id) == ws
    decreases k
  {
    var r := ws[..k] + [id] + ws[k..];
    if k == 0 {
      assert r == [id] + ws && r[1..] == ws;
    } else {
      InsertIs(ws[1..], k - 1, id);
      var q := ws[1..][..k - 1] + [id] + ws[1..][k - 1..];
      assert r == [ws[0]] + q && r[1..] == q;
      assert ws == [ws[0]] + ws[1..];
      ConsElements(ws[0], q);
      ConsElements(ws[0], ws[1..]);
      assert ws[0] !in Elements(q);
    }
  }

  lemma ConsElements(x: nat, xs: seq<nat>)
    ensures Elements([x] + xs) == {x} + Elements(xs)
  {
  }

  /** In priority order the list stays sorted, and waiters of equal priority stay in order of arrival: the new one is
      behind all of its own priority. */
  lemma PriorityOrderKept(ws: seq<nat>, prio: nat -> nat, id: nat)
    requires ByPriority(ws, prio)
    ensures ByPriority(Enqueue(ws, Prio, prio, id), prio)
    ensures var k := Position(ws, prio, id);
      && Enqueue(ws, Prio, prio, id) == ws[..k] + [id] + ws[k..]
      && (forall i :: 0 <= i < |ws| ==> (prio(ws[i]) <= prio(id) <==> i < k))
  {
    var k := Position(ws, prio, id);
    var r := ws[..k] + [id] + ws[k..];
    PositionSplits(ws, prio, id);
    forall i | 0 <= i < |ws|
      ensures prio(ws[i]) <= prio(id) <==> i < k
    {
      PositionDivides(ws, prio, id, i);
    }
    forall i, j | 0 <= i < j < |r|
      ensures prio(r[i]) <= prio(r[j])
    {
      SortedPair(ws, prio, id, k, i, j);
    }
  }

  lemma SortedPair(ws: seq<nat>, prio: nat -> nat, id: nat, k: nat, i: nat, j: nat)
    requires ByPriority(ws, prio) && k <= |ws| && i < j <= |ws|
    requires forall i :: 0 <= i < |ws| ==> (prio(ws[i]) <= prio(id) <==> i < k)
    ensures var r := ws[..k] + [id] + ws[k..]; prio(r[i]) <= prio(r[j])
  {
    var r := ws[..k] + [id] + ws[k..];
    assert i != k ==> r[i] == ws[if i < k then i else i - 1];
    assert j != k ==> r[j] == ws[if j < k then j else j - 1];
  }

  /** Resuming the first waiter, or taking any one out, keeps the order. */
  lemma PriorityOrderAfterDrop(ws: seq<nat>, prio: nat -> nat, id: nat)
    requires ByPriority(ws, prio)
    ensures ByPriority(Drop(ws, id), prio)
  {
    if id in ws {
      var k := DropsAt(ws, id);
      assert forall i :: 0 <= i < |Drop(ws, id)| ==> Drop(ws, id)[i] == ws[if i < k then i else i + 1];
    } else {
      DropAbsent(ws, id);
    }
  }

  lemma {:induction false} DropsAt(ws: seq<nat>, id: nat) returns (k: nat)
    requires id in ws
    ensures k < |ws| && ws[k] == id && Drop(ws, id) == ws[..k] + ws[k + 1..]
    decreases |ws|
  {
    if ws[0] == id {
      k := 0;
    } else {
      k := DropsAt(ws[1..], id);
      k := k + 1;
      assert ws[..k] == [ws[0]] + ws[1..][..k - 1] && ws[k + 1..] == ws[1..][k..];
    }
  }

  lemma {:induction false} DropAbsent(ws: seq<nat>, id: nat)
    requires id !in ws
    ensures Drop(ws, id) == ws
  {
    if ws != [] { DropAbsent(ws[1..], id); }
  }

  function Priority(prios: map<nat, nat>): nat -> nat {
    id => if id in prios then prios[id] else 0
  }

  lemma Joins(ws: seq<nat>, flag: Flag, prio: nat -> nat, id: nat)
    requires Distinct(ws) && id !in ws
    ensures var xs := Enqueue(ws, flag, prio, id); Distinct(xs) && forall x :: x in xs <==> x in ws || x == id
  {
    var xs := Enqueue(ws, flag, prio, id);
    EnqueueIs(ws, flag, prio, id);
    forall x
      ensures x in xs <==> x in ws || x == id
    {
      assert x in xs <==> x in Elements(xs);
      assert x in ws <==> x in Elements(ws);
    }
  }

  lemma Leaves(ws: seq<nat>, id: nat)
    requires Distinct(ws)
    ensures Distinct(Drop(ws, id)) && forall x :: x in Drop(ws, id) <==> x in ws && x != id
  {
    DropIs(ws, id);
    forall x
      ensures x in Drop(ws, id) <==> x in ws && x != id
    {
      assert x in Drop(ws, id) <==> x in Elements(Drop(ws, id));
      assert x in ws <==> x in Elements(ws);
    }
  }

  /** Only the priorities of the threads concerned matter. */
  lemma {:induction false} SamePriorities(ws: seq<nat>, flag: Flag, f: nat -> nat, g: nat -> nat, id: nat)
    requires f(id) == g(id) && forall x :: x in ws ==> f(x) == g(x)
    ensures Enqueue(ws, flag, f, id) == Enqueue(ws, flag, g, id)
  {
    if flag == Prio && ws != [] {
      assert ws == [ws[0]] + ws[1..];
      SamePriorities(ws[1..], flag, f, g, id);
    }
  }

  /** A thread that is on a list and is linked in again is there twice. */
  lemma LinkedTwice(ws: seq<nat>, flag: Flag, prio: nat -> nat, id: nat)
    requires id in ws
    ensures !Distinct(Enqueue(ws, flag, prio, id))
  {
    var k := if flag.Fifo? then |ws| else Position(ws, prio, id);
    PositionSplits(ws, prio, id);
    assert ws + [id] == ws[..|ws|] + [id] + ws[|ws|..];
    TwiceIn(ws, k, id);
  }

  lemma {:induction false} TwiceIn(ws: seq<nat>, k: nat, id: nat)
    requires id in ws && k <= |ws|
    ensures !Distinct(ws[..k] + [id] + ws[k..])
    decreases k
  {
    var r := ws[..k] + [id] + ws[k..];
    if k == 0 {
      assert r == [id] + ws && r[1..] == ws;
    } else if ws[0] == id {
      assert r[0] == id && r[k] == id && r[1..][k - 1] == id;
    } else {
      TwiceIn(ws[1..], k - 1, id);
      assert r[1..] == ws[1..][..k - 1] + [id] + ws[1..][k - 1..];
    }
  }

  /** The search loop of rt_ipc_list_suspend. */
  method SuspendOn(ws: seq<nat>, flag: Flag, prio: nat -> nat, id: nat) returns (r: seq<nat>)
    ensures r == Enqueue(ws, flag, prio, id)
  {
    if flag.Fifo? {
      return ws + [id];
    }
    var n := 0;
    while n < |ws| && prio(id) >= prio(ws[n])
      invariant 0 <= n <= |ws|
      invariant InsertByPriority(ws, prio, id) == ws[..n] + InsertByPriority(ws[n..], prio, id)
    {
      assert ws[n..][1..] == ws[n + 1..];
      assert ws[..n] + ([ws[n]] + InsertByPriority(ws[n + 1..], prio, id))
          == ws[..n + 1] + InsertByPriority(ws[n + 1..], prio, id);
      n := n + 1;
    }
    r := ws[..n] + [id] + ws[n..];
  }
}
