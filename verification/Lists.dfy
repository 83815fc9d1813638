/** Lists of numbered nodes without repetition: what an intrusive `rt_list_t` holds. */
module Lists {

  /** `xs` with the first occurrence of `x` taken out. */
  function Drop(xs: seq<nat>, x: nat): (ys: seq<nat>) {
    if xs == [] then [] else if xs[0] == x then xs[1..] else [xs[0]] + Drop(xs[1..], x)
  }

  /** Each element once. */
  predicate Distinct(xs: seq<nat>) {
    xs != [] ==> xs[0] !in xs[1..] && Distinct(xs[1..])
  }

  function Elements(xs: seq<nat>): set<nat> {
    set x | x in xs
  }

  lemma {:induction false} DropIs(xs: seq<nat>, x: nat)
    requires Distinct(xs)
    ensures Distinct(Drop(xs, x)) && Elements(Drop(xs, x)) == Elements(xs) - {x}
  {
    if xs != [] {
      assert xs == [xs[0]] + xs[1..];
      assert Elements(xs) == {xs[0]} + Elements(xs[1..]);
      if xs[0] != x {
        DropIs(xs[1..], x);
        var ys := [xs[0]] + Drop(xs[1..], x);
        assert ys[1..] == Drop(xs[1..], x);
        assert xs[0] !in Elements(Drop(xs[1..], x));
        assert Elements(ys) == {xs[0]} + Elements(ys[1..]);
      } else {
        assert x !in Elements(xs[1..]);
      }
    }
  }

  lemma PushIs(xs: seq<nat>, x: nat)
    requires Distinct(xs) && x !in Elements(xs)
    ensures Distinct([x] + xs) && Elements([x] + xs) == Elements(xs) + {x}
  {
    assert ([x] + xs)[1..] == xs;
  }

  lemma OnlyElement(xs: seq<nat>, x: nat)
    requires Distinct(xs) && Elements(xs) == {x}
    ensures xs == [x]
  {
    assert x in Elements(xs);
    assert xs[0] in Elements(xs);
    var rest := xs[1..];
    assert forall y :: y in rest ==> y in xs && y in Elements(xs);
    if rest != [] {
      FirstIsMember(rest);
      assert false;
    }
  }

  lemma FirstIsMember(xs: seq<nat>)
    requires xs != []
    ensures xs[0] in xs
  {
  }

  lemma DropKeepsOut(xs: seq<nat>, x: nat, y: nat)
    requires Distinct(xs) && y !in xs
    ensures y !in Drop(xs, x)
  {
    DropIs(xs, x);
    assert y !in Elements(Drop(xs, x));
  }

  /** A set that may gain or lose one element. */
  lemma SetOneAfter(r: set<nat>, r': set<nat>, id: nat, now: bool)
    requires (id in r' <==> now) && forall x :: x != id ==> (x in r' <==> x in r)
    ensures |r'| == |r| - (if id in r then 1 else 0) + (if now then 1 else 0)
  {
    if now {
      assert r' == (r - {id}) + {id};
    } else {
      assert r' == r - {id};
    }
  }
}
