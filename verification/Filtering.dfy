/** Keeping the elements of a list that meet a condition, in their order. */
module Filtering {
  import opened Ordering

  function Keep<T>(s: seq<T>, q: T -> bool): seq<T> {
    if s == [] then []
    else Keep(s[..|s| - 1], q) + if q(s[|s| - 1]) then [s[|s| - 1]] else []
  }

  lemma {:induction false} KeepAppend<T>(a: seq<T>, b: seq<T>, q: T -> bool)
    ensures Keep(a + b, q) == Keep(a, q) + Keep(b, q)
  {
    if b == [] {
      assert a + b == a;
    } else {
      assert (a + b)[..|a + b| - 1] == a + b[..|b| - 1];
      KeepAppend(a, b[..|b| - 1], q);
    }
  }

  lemma {:induction false} KeepAll<T>(s: seq<T>, q: T -> bool, kept: bool)
    requires forall x | x in s :: q(x) == kept
    ensures Keep(s, q) == if kept then s else []
  {
    if s != [] {
      var front := s[..|s| - 1];
      assert s[|s| - 1] in s && forall x | x in front :: x in s;
      KeepAll(front, q, kept);
      assert s == front + [s[|s| - 1]];
    }
  }

  lemma {:induction false} KeepElements<T(!new)>(s: seq<T>, q: T -> bool)
    ensures forall x :: x in Keep(s, q) <==> x in s && q(x)
  {
    if s != [] {
      KeepElements(s[..|s| - 1], q);
      assert s == s[..|s| - 1] + [s[|s| - 1]];
    }
  }

  lemma {:induction false} KeepCounts<T>(s: seq<T>, q: T -> bool, x: T)
    ensures multiset(Keep(s, q))[x] == if q(x) then multiset(s)[x] else 0
  {
    if s != [] {
      KeepCounts(s[..|s| - 1], q, x);
      assert s == s[..|s| - 1] + [s[|s| - 1]];
    }
  }

  lemma {:induction false} KeepSorted<T(!new)>(s: seq<T>, q: T -> bool, less: (T, T) -> bool)
    requires Sorted(s, less)
    ensures Sorted(Keep(s, q), less)
  {
    if s != [] {
      var front, last := s[..|s| - 1], s[|s| - 1];
      var kept := Keep(front, q);
      KeepSorted(front, q, less);
      KeepElements(front, q);
      forall j | 0 <= j < |kept| ensures !less(last, kept[j]) {
        assert kept[j] in kept;
        var k :| 0 <= k < |front| && front[k] == kept[j];
        assert s[k] == kept[j];
      }
    }
  }

  lemma {:induction false} KeepTwice<T>(s: seq<T>, wide: T -> bool, narrow: T -> bool)
    requires forall x | x in s && narrow(x) :: wide(x)
    ensures Keep(Keep(s, wide), narrow) == Keep(s, narrow)
  {
    if s != [] {
      var front, last := s[..|s| - 1], s[|s| - 1];
      assert last in s && forall x | x in front :: x in s;
      KeepTwice(front, wide, narrow);
      KeepAppend(Keep(front, wide), if wide(last) then [last] else [], narrow);
      KeepAll([last], narrow, narrow(last));
    }
  }

  lemma KeepSnoc<T>(s: seq<T>, x: T, q: T -> bool)
    ensures Keep(s + [x], q) == if q(x) then Keep(s, q) + [x] else Keep(s, q)
  {
    assert (s + [x])[..|s|] == s;
  }
}
