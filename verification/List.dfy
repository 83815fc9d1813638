/** The intrusive doubly linked list of rtservice.h, on which ready queues, wait lists and the timer list rest. A list
    is a ring of nodes; its first node, the list object itself, is the head and the others are the elements. */
module List {
  import opened Lists

  class Node {
    var next: Node
    var prev: Node
    const entry: nat   // rt_list_entry: the number of the object the node lies in

    /** rt_list_init */
    constructor (entry: nat)
      ensures Ring([this]) && fresh(this) && this.entry == entry
    {
      this.entry := entry;
      next := this;
      prev := this;
    }
  }

  predicate Joined(a: Node, b: Node)
    reads a, b
  {
    a.next == b && b.prev == a
  }

  /** Each node is joined to the one behind it. */
  predicate Chained(ns: seq<Node>)
    reads ns
  {
    forall i :: 0 <= i < |ns| - 1 ==> Joined(ns[i], ns[i + 1])
  }

  predicate Different(ns: seq<Node>) {
    forall i, j :: 0 <= i < j < |ns| ==> ns[i] != ns[j]
  }

  /** The nodes of `ns` are joined in this order, and the last one to the first. */
  predicate Ring(ns: seq<Node>)
    reads ns
  {
    ns != [] && Different(ns) && Chained(ns) && Joined(ns[|ns| - 1], ns[0])
  }

  /** The ring with `n` behind position `i`. */
  function With(ns: seq<Node>, i: nat, n: Node): seq<Node>
    requires i < |ns|
  {
    ns[..i + 1] + [n] + ns[i + 1..]
  }

  /** The ring without position `i`. */
  function Without(ns: seq<Node>, i: nat): seq<Node>
    requires i < |ns|
  {
    ns[..i] + ns[i + 1..]
  }

  /** The node behind position `i`, around the end. */
  function Behind(ns: seq<Node>, i: nat): Node
    requires i < |ns|
  {
    if i + 1 < |ns| then ns[i + 1] else ns[0]
  }

  /** The node in front of position `i`, around the end. */
  function Before(ns: seq<Node>, i: nat): Node
    requires i < |ns|
  {
    if i > 0 then ns[i - 1] else ns[|ns| - 1]
  }

  lemma Neighbours(ns: seq<Node>, i: nat)
    requires Ring(ns) && i < |ns|
    ensures ns[i].next == Behind(ns, i) && ns[i].prev == Before(ns, i)
    ensures Behind(ns, i) in ns && Before(ns, i) in ns
  {
    if i > 0 { assert Joined(ns[i - 1], ns[i]); }
    if i + 1 < |ns| { assert Joined(ns[i], ns[i + 1]); }
  }

  /** The test of rt_thread_yield: `next` and `prev` of an element differ exactly when it is not the only element. */
  lemma AloneTest(ns: seq<Node>, i: nat)
    requires Ring(ns) && 0 < i < |ns|
    ensures ns[i].next != ns[i].prev <==> |ns| - 1 >= 2
  {
    Neighbours(ns, i);
    var b := if i + 1 < |ns| then i + 1 else 0;
    assert ns[b] == Behind(ns, i) && ns[i - 1] == Before(ns, i);
  }

  /** rt_list_insert_after: `n` goes behind the node `l` at position `i`. */
  method InsertAfter(l: Node, n: Node, ghost ns: seq<Node>, ghost i: nat)
    requires Ring(ns) && i < |ns| && ns[i] == l && n !in ns
    modifies l, l.next, n
    ensures Ring(With(ns, i, n))
  {
    Neighbours(ns, i);
    ghost var after := Behind(ns, i);
    l.next.prev := n;
    n.next := l.next;
    l.next := n;
    n.prev := l;
    ghost var rs := With(ns, i, n);
    assert Different(rs);
    forall k | 0 <= k < |rs| - 1
      ensures Joined(rs[k], rs[k + 1])
    {
      if k < i {
        assert old(Joined(ns[k], ns[k + 1]));
      } else if k == i + 1 {
        assert rs[k + 1] == after;
      } else if k > i + 1 {
        assert rs[k] == ns[k - 1] && rs[k + 1] == ns[k] && old(Joined(ns[k - 1], ns[k]));
      }
    }
    assert old(Joined(ns[|ns| - 1], ns[0]));
  }

  /** rt_list_insert_before: `n` goes in front of the node `l` at position `i`; in front of the head is the end. */
  method InsertBefore(l: Node, n: Node, ghost ns: seq<Node>, ghost i: nat)
    requires Ring(ns) && i < |ns| && ns[i] == l && n !in ns
    modifies l, l.prev, n
    ensures Ring(With(ns, if i > 0 then i - 1 else |ns| - 1, n))
  {
    Neighbours(ns, i);
    ghost var j := if i > 0 then i - 1 else |ns| - 1;
    ghost var before := Before(ns, i);
    assert before == ns[j];
    l.prev.next := n;
    n.prev := l.prev;
    l.prev := n;
    n.next := l;
    ghost var rs := With(ns, j, n);
    assert Different(rs);
    forall k | 0 <= k < |rs| - 1
      ensures Joined(rs[k], rs[k + 1])
    {
      if k < j {
        assert old(Joined(ns[k], ns[k + 1]));
      } else if k > j + 1 {
        assert rs[k] == ns[k - 1] && rs[k + 1] == ns[k] && old(Joined(ns[k - 1], ns[k]));
      }
    }
    assert old(Joined(ns[|ns| - 1], ns[0]));
  }

  /** rt_list_remove: `n` leaves the ring and becomes a ring of its own. */
  method Remove(n: Node, ghost ns: seq<Node>, ghost i: nat)
    requires Ring(ns) && i < |ns| && ns[i] == n
    modifies n, n.next, n.prev
    ensures Ring([n])
    ensures |ns| > 1 ==> Ring(Without(ns, i))
  {
    Neighbours(ns, i);
    ghost var (before, after) := (Before(ns, i), Behind(ns, i));
    n.next.prev := n.prev;
    n.prev.next := n.next;
    n.next := n;
    n.prev := n;
    ghost var rs := Without(ns, i);
    assert |ns| > 1 ==> Joined(before, after);
    forall k | 0 <= k < |rs| - 1
      ensures Joined(rs[k], rs[k + 1])
    {
      if k + 1 < i {
        assert old(Joined(ns[k], ns[k + 1]));
      } else if k >= i {
        assert rs[k] == ns[k + 1] && rs[k + 1] == ns[k + 2] && old(Joined(ns[k + 1], ns[k + 2]));
      }
    }
    assert old(Joined(ns[|ns| - 1], ns[0]));
  }

  /** rt_list_isempty */
  method IsEmpty(l: Node, ghost ns: seq<Node>) returns (empty: bool)
    requires Ring(ns) && ns[0] == l
    ensures empty <==> |ns| == 1
  {
    Neighbours(ns, 0);
    empty := l.next == l;
  }

  /** rt_list_len: the number of elements. */
  method Len(l: Node, ghost ns: seq<Node>) returns (len: nat)
    requires Ring(ns) && ns[0] == l
    ensures len == |ns| - 1
  {
    len := 0;
    var p := l;
    Neighbours(ns, 0);
    while p.next != l
      invariant len < |ns| && p == ns[len]
      decreases |ns| - len
    {
      Neighbours(ns, len);
      p := p.next;
      len := len + 1;
      Neighbours(ns, len);
    }
    Neighbours(ns, len);
  }

  // ---------------------------------------------------------------- rings and queues

  /** The objects on the list whose head is the first node: what the ready queues and wait lists hold. */
  function Entries(ns: seq<Node>): (xs: seq<nat>)
    requires ns != []
    ensures |xs| == |ns| - 1
  {
    seq(|ns| - 1, k requires 0 <= k < |ns| - 1 => ns[k + 1].entry)
  }

  /** Inserting in front of the head appends to the queue, behind the head puts first, and in front of another element
      puts the object in front of that one. */
  lemma InsertsInQueue(ns: seq<Node>, i: nat, n: Node)
    requires i < |ns|
    ensures Entries(With(ns, |ns| - 1, n)) == Entries(ns) + [n.entry]
    ensures Entries(With(ns, 0, n)) == [n.entry] + Entries(ns)
    ensures i > 0 ==> Entries(With(ns, i - 1, n)) == Entries(ns)[..i - 1] + [n.entry] + Entries(ns)[i - 1..]
  {
  }

  /** Removing a node takes its object, and no other, out of the queue. */
  lemma RemovesFromQueue(ns: seq<Node>, i: nat)
    requires 0 < i < |ns| && Distinct(Entries(ns))
    ensures Entries(Without(ns, i)) == Drop(Entries(ns), ns[i].entry)
  {
    var xs := Entries(ns);
    assert Entries(Without(ns, i)) == xs[..i - 1] + xs[i..];
    DropAt(xs, i - 1);
  }

  lemma {:induction false} DropAt(xs: seq<nat>, k: nat)
    requires k < |xs| && Distinct(xs)
    ensures Drop(xs, xs[k]) == xs[..k] + xs[k + 1..]
    decreases k
  {
    if k > 0 {
      assert xs[1..][k - 1] == xs[k] && xs[k] in xs[1..];
      DropAt(xs[1..], k - 1);
      assert xs[..k] == [xs[0]] + xs[1..][..k - 1] && xs[k + 1..] == xs[1..][k..];
    }
  }

  /** A node is on one ring only, so the rings of different lists have no node in common. */
  lemma OneRing(ns: seq<Node>, ms: seq<Node>, i: nat, j: nat)
    requires Ring(ns) && Ring(ms) && i < |ns| && j < |ms| && ns[i] == ms[j]
    ensures Behind(ns, i) == Behind(ms, j) && Before(ns, i) == Before(ms, j)
    ensures forall x :: x in ns <==> x in ms
  {
    Neighbours(ns, i);
    Neighbours(ms, j);
    WithinRing(ns, ms, i, j);
    WithinRing(ms, ns, j, i);
  }

  /** Following `next` from a common node stays in common. */
  lemma WithinRing(ns: seq<Node>, ms: seq<Node>, i: nat, j: nat)
    requires Ring(ns) && Ring(ms) && i < |ns| && j < |ms| && ns[i] == ms[j]
    ensures forall x :: x in ns ==> x in ms
  {
    forall k: nat | k < |ns|
      ensures Turn(i, k, |ns|) < |ns| && ns[Turn(i, k, |ns|)] in ms
    {
      StepsShared(ns, ms, i, j, k);
    }
    forall x | x in ns
      ensures x in ms
    {
      var m :| 0 <= m < |ns| && ns[m] == x;
      var k := if m >= i then m - i else m + |ns| - i;
      assert Turn(i, k, |ns|) == m;
    }
  }

  function Turn(i: nat, k: nat, n: nat): int {
    if i + k < n then i + k else i + k - n
  }

  lemma {:induction false} StepsShared(ns: seq<Node>, ms: seq<Node>, i: nat, j: nat, k: nat)
    requires Ring(ns) && Ring(ms) && i < |ns| && j < |ms| && ns[i] == ms[j] && k < |ns|
    ensures 0 <= Turn(i, k, |ns|) < |ns| && ns[Turn(i, k, |ns|)] in ms
    decreases k
  {
    if k > 0 {
      StepsShared(ns, ms, i, j, k - 1);
      var a := Turn(i, k - 1, |ns|);
      var b :| 0 <= b < |ms| && ms[b] == ns[a];
      Neighbours(ns, a);
      Neighbours(ms, b);
    }
  }
}
