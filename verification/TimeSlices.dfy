/** Round robin: what the time slices of rt_tick_increase do to threads of equal priority. */
module TimeSlices {
  import opened Lists
  import opened KernelSpec
  import opened KernelRuns

  /** `n` ticks of the time slice. */
  function After(s: State, n: nat): State
    decreases n
  {
    if n == 0 || s.current !in s.threads then s else After(Slice(s), n - 1)
  }

  /** The threads that run during those ticks. */
  function Ran(s: State, n: nat): seq<nat>
    decreases n
  {
    if n == 0 || s.current !in s.threads then [] else [s.current] + Ran(Slice(s), n - 1)
  }

  function Repeat(id: nat, n: nat): seq<nat> {
    if n == 0 then [] else [id] + Repeat(id, n - 1)
  }

  /** Each thread of `q` in turn for its whole time slice. */
  function Turns(threads: map<nat, Thread>, q: seq<nat>): seq<nat> {
    if q == [] || q[0] !in threads then [] else Repeat(q[0], threads[q[0]].slice) + Turns(threads, q[1..])
  }

  function TotalSlices(threads: map<nat, Thread>, q: seq<nat>): nat {
    if q == [] || q[0] !in threads then 0 else threads[q[0]].slice + TotalSlices(threads, q[1..])
  }

  /** The threads of `q` share the most urgent priority `p`, the first of them runs, and all have a full slice. */
  ghost predicate Sharing(s: State, p: nat, q: seq<nat>) {
    && Inv(s) && s.nest == 0 && p == FirstReady(s.ready) < |s.ready| && q == s.ready[p] && q != [] && s.current == q[0]
    && forall id :: id in q ==> id in s.threads && s.threads[id].remaining == s.threads[id].slice
  }

  lemma {:induction false} AfterSum(s: State, m: nat, n: nat)
    ensures After(s, m + n) == After(After(s, m), n)
    ensures Ran(s, m + n) == Ran(s, m) + Ran(After(s, m), n)
    decreases m
  {
    if m == 0 || s.current !in s.threads {
      assert [] + Ran(s, n) == Ran(s, n);
    } else {
      AfterSum(Slice(s), m - 1, n);
    }
  }

  lemma SetTwice(s: State, id: nat, t: Thread, u: Thread)
    ensures Set(Set(s, id, t), id, u) == Set(s, id, u)
    ensures id in s.threads && s.threads[id] == u ==> Set(s, id, u) == s
  {
    assert s.threads[id := t][id := u] == s.threads[id := u];
  }

  /** Before the slice is used up only the remaining ticks change. */
  lemma {:induction false} WithinSlice(s: State, n: nat)
    requires s.current in s.threads && n < s.threads[s.current].remaining
    ensures var t := s.threads[s.current];
      After(s, n) == Set(s, s.current, t.(remaining := t.remaining - n))
    ensures Ran(s, n) == Repeat(s.current, n)
    decreases n
  {
    var t := s.threads[s.current];
    SetTwice(s, s.current, t, t);
    if n > 0 {
      WithinSlice(Slice(s), n - 1);
      SetTwice(s, s.current, t.(remaining := t.remaining - 1), t.(remaining := t.remaining - n));
    }
  }

  /** The head goes behind the others. */
  function Rotate(s: State, p: nat, q: seq<nat>): State
    requires p < |s.ready| && q != []
  {
    s.(ready := s.ready[p := q[1..] + [q[0]]], current := (q[1..] + [q[0]])[0])
  }

  lemma SharingHead(s: State, p: nat, q: seq<nat>)
    requires Sharing(s, p, q)
    ensures s.current in s.threads && Sound(s.threads[s.current])
    ensures var t := s.threads[s.current];
      t.stat == Ready && t.node == OnReady(p) && t.prio == p && t.remaining == t.slice && Queue(s, t.node) == q
  {
    assert Holds(s, OnReady(p)) && s.current in Queue(s, OnReady(p));
    assert Sound(s.threads[s.current]);
  }

  lemma YieldRotates(s: State, p: nat, q: seq<nat>)
    requires Sharing(s, p, q)
    ensures YieldCall(s) == Rotate(s, p, q)
  {
    var (me, t) := (s.current, s.threads[s.current]);
    SharingHead(s, p, q);
    if |q| == 1 {
      assert q[1..] + [q[0]] == q;
    } else {
      var r := Unlink(s, me);
      assert Drop(q, me) == q[1..];
      var u := Link(r, me, OnReady(p), q[1..] + [me]);
      assert u == s.(ready := s.ready[p := q[1..] + [me]]) by {
        assert r.ready[p := q[1..] + [me]] == s.ready[p := q[1..] + [me]];
        assert u.threads == s.threads;
      }
      FirstStays(s.ready, p, q[1..] + [me], 0);
    }
  }

  lemma {:induction false} FirstStays(ready: seq<seq<nat>>, p: nat, xs: seq<nat>, from: nat)
    requires from <= p < |ready| && FirstReady(ready, from) == p && xs != []
    ensures FirstReady(ready[p := xs], from) == p
    decreases p - from
  {
    if from < p { FirstStays(ready, p, xs, from + 1); }
  }

  /** The last tick of a slice. */
  lemma LastTick(s: State, p: nat, q: seq<nat>, u: State)
    requires Sharing(s, p, q) && s.current in s.threads
    requires u == Set(s, s.current, s.threads[s.current].(remaining := 1))
    ensures After(u, 1) == Rotate(s, p, q) && Ran(u, 1) == [s.current]
  {
    SharingHead(s, p, q);
    var (me, t) := (s.current, s.threads[s.current]);
    SetTwice(s, me, t.(remaining := 1), t);
    assert Slice(u) == YieldCall(s);
    YieldRotates(s, p, q);
    assert After(u, 1) == After(Slice(u), 0);
    assert Ran(u, 1) == [me] + Ran(Slice(u), 0);
  }

  lemma OneMoreTick(s: State, n: nat, u: State, v: State, id: nat)
    requires After(s, n) == u && Ran(s, n) == Repeat(id, n)
    requires After(u, 1) == v && Ran(u, 1) == [id]
    ensures After(s, n + 1) == v && Ran(s, n + 1) == Repeat(id, n + 1)
  {
    AfterSum(s, n, 1);
    RepeatEnd(id, n);
  }

  /** One slice: the head runs for all of it and then goes behind the others. */
  lemma OneTurn(s: State, p: nat, q: seq<nat>, n: nat)
    requires Sharing(s, p, q) && s.current in s.threads && n + 1 == s.threads[s.current].slice
    ensures After(s, n + 1) == Rotate(s, p, q)
    ensures Ran(s, n + 1) == Repeat(q[0], n + 1)
  {
    SharingHead(s, p, q);
    WithinSlice(s, n);
    var u := Set(s, s.current, s.threads[s.current].(remaining := 1));
    LastTick(s, p, q, u);
    OneMoreTick(s, n, u, Rotate(s, p, q), s.current);
  }

  lemma {:induction false} RepeatEnd(id: nat, n: nat)
    ensures Repeat(id, n) + [id] == Repeat(id, n + 1)
  {
    if n > 0 { RepeatEnd(id, n - 1); }
  }

  lemma RotationShares(s: State, p: nat, q: seq<nat>)
    requires Sharing(s, p, q)
    ensures Sharing(Rotate(s, p, q), p, q[1..] + [q[0]])
  {
    YieldInv(s);
    ScheduleInv(Yield(s));
    YieldRotates(s, p, q);
    FirstStays(s.ready, p, q[1..] + [q[0]], 0);
  }

  /** The state with the threads of `x` moved behind those of `y`. */
  function Moved(s: State, p: nat, x: seq<nat>, y: seq<nat>): State
    requires p < |s.ready| && x + y != []
  {
    s.(ready := s.ready[p := y + x], current := (y + x)[0])
  }

  lemma MovedTwice(s: State, p: nat, x: seq<nat>, y: seq<nat>)
    requires p < |s.ready| && x != []
    ensures (x + y)[1..] + [(x + y)[0]] == x[1..] + (y + [x[0]])
    ensures Moved(Rotate(s, p, x + y), p, x[1..], y + [x[0]]) == Moved(s, p, x, y)
  {
    assert (x + y)[1..] + [(x + y)[0]] == x[1..] + (y + [x[0]]);
    assert (y + [x[0]]) + x[1..] == y + x;
    assert Rotate(s, p, x + y).ready[p := y + x] == s.ready[p := y + x];
  }

  function SliceOf(s: State, x: seq<nat>): nat
    requires x != []
  {
    if x[0] in s.threads then s.threads[x[0]].slice else 0
  }

  /** The first thread of `x` has its turn. */
  lemma FirstTurn(s: State, p: nat, x: seq<nat>, y: seq<nat>)
    requires Sharing(s, p, x + y) && x != []
    ensures var (n, u) := (SliceOf(s, x), Rotate(s, p, x + y));
      && x[0] in s.threads && After(s, n) == u && Ran(s, n) == Repeat(x[0], n)
      && u.threads == s.threads && Sharing(u, p, x[1..] + (y + [x[0]]))
  {
    SharingHead(s, p, x + y);
    OneTurn(s, p, x + y, s.threads[x[0]].slice - 1);
    RotationShares(s, p, x + y);
    assert (x + y)[1..] + [(x + y)[0]] == x[1..] + (y + [x[0]]);
  }

  lemma {:induction false} Rounds(s: State, p: nat, x: seq<nat>, y: seq<nat>)
    requires Sharing(s, p, x + y)
    ensures After(s, TotalSlices(s.threads, x)) == Moved(s, p, x, y)
    ensures Ran(s, TotalSlices(s.threads, x)) == Turns(s.threads, x)
    decreases |x|
  {
    if x == [] {
      assert x + y == y && y + x == y;
      assert s.ready[p := y] == s.ready;
    } else {
      var (n, u) := (SliceOf(s, x), Rotate(s, p, x + y));
      FirstTurn(s, p, x, y);
      Rounds(u, p, x[1..], y + [x[0]]);
      AfterSum(s, n, TotalSlices(s.threads, x[1..]));
      MovedTwice(s, p, x, y);
    }
  }

  lemma MovedAll(s: State, p: nat, q: seq<nat>)
    requires p < |s.ready| && s.ready[p] == q && q != [] && s.current == q[0]
    ensures q + [] == q && Moved(s, p, q, []) == s
  {
    assert q + [] == q && [] + q == q;
    assert s.ready[p := q] == s.ready;
  }

  /** Round robin: when all threads of the most urgent priority start with a full slice, then after as many
      ticks as their slices add up to each has run once, in queue order and for exactly its slice, and
      everything is as before. */
  lemma RoundRobin(s: State, p: nat, q: seq<nat>)
    requires Sharing(s, p, q)
    ensures After(s, TotalSlices(s.threads, q)) == s
    ensures Ran(s, TotalSlices(s.threads, q)) == Turns(s.threads, q)
  {
    MovedAll(s, p, q);
    Rounds(s, p, q, []);
  }
}
