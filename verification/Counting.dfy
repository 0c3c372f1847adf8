/** How often a position is in a list: what the two machines conserve. */
module Counting {
  import opened Ordering

  function One(b: bool): nat {
    if b then 1 else 0
  }

  function CountIn(q: seq<nat>, i: nat): nat {
    if q == [] then 0 else One(q[0] == i) + CountIn(q[1..], i)
  }

  lemma {:induction false} CountAppend(q: seq<nat>, x: nat, i: nat)
    ensures CountIn(q + [x], i) == CountIn(q, i) + One(x == i)
  {
    if q == [] {
      assert ([] + [x])[1..] == [];
    } else {
      assert (q + [x])[1..] == q[1..] + [x];
      CountAppend(q[1..], x, i);
    }
  }

  lemma {:induction false} CountDistinct(q: seq<nat>, i: nat)
    requires Distinct(q)
    ensures CountIn(q, i) == One(i in q)
  {
    if q != [] {
      CountDistinct(q[1..], i);
      assert q == [q[0]] + q[1..];
    }
  }

  lemma {:induction false} CountPositive(q: seq<nat>, i: nat)
    ensures CountIn(q, i) > 0 <==> i in q
  {
    if q != [] {
      CountPositive(q[1..], i);
      assert q == [q[0]] + q[1..];
    }
  }

  lemma {:induction false} AtMostOnceIsDistinct(q: seq<nat>)
    requires forall i: nat :: CountIn(q, i) <= 1
    ensures Distinct(q)
  {
    if q != [] {
      forall i: nat ensures CountIn(q[1..], i) <= 1 { assert CountIn(q, i) <= 1; }
      AtMostOnceIsDistinct(q[1..]);
      CountPositive(q[1..], q[0]);
      assert CountIn(q, q[0]) <= 1;
      assert q == [q[0]] + q[1..];
    }
  }
}
