/** Runs of a state machine: what every legal step keeps, every run keeps. */
module Runs {

  /** Carrying out `ops` from `s`, each one legal where it is made, ends in `t`. */
  ghost predicate Reaches<S, O>(legal: (S, O) -> bool, step: (S, O) -> S, s: S, ops: seq<O>, t: S)
    decreases |ops|
  {
    if ops == [] then t == s
    else legal(s, ops[0]) && Reaches(legal, step, step(s, ops[0]), ops[1..], t)
  }

  lemma {:induction false} RunKeeps<S(!new), O(!new)>(inv: S -> bool, legal: (S, O) -> bool, step: (S, O) -> S,
                                                      s: S, ops: seq<O>, t: S)
    requires Reaches(legal, step, s, ops, t)
    requires inv(s)
    requires forall x: S, o: O :: inv(x) && legal(x, o) ==> inv(step(x, o))
    ensures inv(t)
    decreases |ops|
  {
    if ops != [] {
      assert inv(step(s, ops[0]));
      RunKeeps(inv, legal, step, step(s, ops[0]), ops[1..], t);
    }
  }

  lemma OneStep<S, O>(legal: (S, O) -> bool, step: (S, O) -> S, s: S, op: O)
    requires legal(s, op)
    ensures Reaches(legal, step, s, [op], step(s, op))
  {
    assert [op][1..] == [];
  }

  lemma {:induction false} Continues<S, O>(legal: (S, O) -> bool, step: (S, O) -> S,
                                           s: S, a: seq<O>, t: S, b: seq<O>, u: S)
    requires Reaches(legal, step, s, a, t) && Reaches(legal, step, t, b, u)
    ensures Reaches(legal, step, s, a + b, u)
    decreases |a|
  {
    if a == [] {
      assert a + b == b;
    } else {
      assert (a + b)[1..] == a[1..] + b;
      Continues(legal, step, step(s, a[0]), a[1..], t, b, u);
    }
  }
}
