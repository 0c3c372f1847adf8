/** Sorting by a strict total order: what the standard library's sorts return, and that it is unique. */
module Ordering {
  import opened Text

  ghost predicate StrictTotal<T(!new)>(less: (T, T) -> bool) {
    && (forall a :: !less(a, a))
    && (forall a, b, c :: less(a, b) && less(b, c) ==> less(a, c))
    && (forall a, b :: a == b || less(a, b) || less(b, a))
  }

  ghost predicate Sorted<T>(s: seq<T>, less: (T, T) -> bool) {
    forall i, j | 0 <= i < j < |s| :: !less(s[j], s[i])
  }

  ghost predicate StrictlySorted<T>(s: seq<T>, less: (T, T) -> bool) {
    forall i, j | 0 <= i < j < |s| :: less(s[i], s[j])
  }

  lemma StrLessIsStrictTotal()
    ensures StrictTotal(StrLess)
  {
    forall a: string ensures !StrLess(a, a) { StrLessIrreflexive(a); }
    forall a, b, c | StrLess(a, b) && StrLess(b, c) ensures StrLess(a, c) { StrLessTransitive(a, b, c); }
    forall a, b ensures a == b || StrLess(a, b) || StrLess(b, a) { StrLessTotal(a, b); }
  }

  function Insert<T>(x: T, s: seq<T>, less: (T, T) -> bool): (r: seq<T>)
    ensures multiset(r) == multiset(s) + multiset{x}
  {
    if s == [] || !less(s[0], x) then
      var r := [x] + s;
      assert multiset(r) == multiset([x]) + multiset(s);
      r
    else
      var rest := Insert(x, s[1..], less);
      assert s == [s[0]] + s[1..];
      [s[0]] + rest
  }

  /** A sort of `s`. Inserting in front of equals from the right end keeps their order: it is stable. */
  function Sort<T>(s: seq<T>, less: (T, T) -> bool): (r: seq<T>)
    ensures multiset(r) == multiset(s)
  {
    if s == [] then []
    else
      assert s == [s[0]] + s[1..];
      Insert(s[0], Sort(s[1..], less), less)
  }

  /** Negated `less` is transitive: `a` not above `b`, `b` not above `c`. */
  ghost predicate WeakOrder<T(!new)>(less: (T, T) -> bool) {
    && (forall a, b :: less(a, b) ==> !less(b, a))
    && (forall a, b, c :: !less(b, a) && !less(c, b) ==> !less(c, a))
  }

  lemma StrictTotalIsWeak<T(!new)>(less: (T, T) -> bool)
    requires StrictTotal(less)
    ensures WeakOrder(less)
  {
    forall a, b, c | !less(b, a) && !less(c, b) ensures !less(c, a) {
      assert a == b || less(a, b);
      assert b == c || less(b, c);
    }
  }

  lemma {:induction false} InsertSorted<T(!new)>(x: T, s: seq<T>, less: (T, T) -> bool)
    requires WeakOrder(less) && Sorted(s, less)
    ensures Sorted(Insert(x, s, less), less)
  {
    if s != [] && less(s[0], x) {
      var rest := Insert(x, s[1..], less);
      InsertSorted(x, s[1..], less);
      forall y | y in rest ensures !less(y, s[0]) {
        assert y in multiset(rest);
        assert y == x || y in s[1..];
      }
    }
  }

  lemma {:induction false} SortSorts<T(!new)>(s: seq<T>, less: (T, T) -> bool)
    requires WeakOrder(less)
    ensures Sorted(Sort(s, less), less)
  {
    if s != [] {
      SortSorts(s[1..], less);
      InsertSorted(s[0], Sort(s[1..], less), less);
    }
  }

  /** Of two different elements of `s` one is less. */
  ghost predicate TotalOn<T>(s: seq<T>, less: (T, T) -> bool) {
    forall x, y | x in s && y in s :: x == y || less(x, y) || less(y, x)
  }

  /** An order that is total on the elements leaves one sorted arrangement: an unstable sort cannot return another. */
  lemma {:induction false} SortedUnique<T>(a: seq<T>, b: seq<T>, less: (T, T) -> bool)
    requires TotalOn(a, less)
    requires Sorted(a, less) && Sorted(b, less) && multiset(a) == multiset(b)
    ensures a == b
  {
    assert |a| == |multiset(a)| == |multiset(b)| == |b|;
    if a != [] {
      assert a[0] == b[0] by {
        assert a[0] in multiset(b) && b[0] in multiset(a);
      }
      assert a == [a[0]] + a[1..] && b == [b[0]] + b[1..];
      assert multiset(a[1..]) == multiset(a) - multiset{a[0]};
      assert multiset(b[1..]) == multiset(b) - multiset{b[0]};
      SortedUnique(a[1..], b[1..], less);
    }
  }

  /** Two strictly sorted lists of the same elements are the same list. */
  lemma StrictlySortedUnique<T(!new)>(a: seq<T>, b: seq<T>, less: (T, T) -> bool)
    requires StrictTotal(less)
    requires StrictlySorted(a, less) && StrictlySorted(b, less)
    requires forall x :: x in a <==> x in b
    ensures a == b
  {
    forall x ensures multiset(a)[x] == multiset(b)[x] {
      StrictlySortedMultiplicity(a, less, x);
      StrictlySortedMultiplicity(b, less, x);
    }
    assert multiset(a) == multiset(b);
    SortedUnique(a, b, less);
  }

  lemma {:induction false} StrictlySortedMultiplicity<T(!new)>(a: seq<T>, less: (T, T) -> bool, x: T)
    requires StrictTotal(less) && StrictlySorted(a, less)
    ensures multiset(a)[x] == if x in a then 1 else 0
  {
    if a != [] {
      assert a == [a[0]] + a[1..];
      StrictlySortedMultiplicity(a[1..], less, x);
      assert a[0] !in a[1..];
    }
  }

  /** `slices.Compact`: one of every run of equal neighbours. */
  function Compact<T(==)>(s: seq<T>): seq<T> {
    var n := |s|;
    if n <= 1 then s
    else if s[n - 1] == s[n - 2] then Compact(s[..n - 1])
    else Compact(s[..n - 1]) + [s[n - 1]]
  }

  lemma {:induction false} CompactKeepsElements<T>(s: seq<T>)
    ensures forall x :: x in Compact(s) <==> x in s
    ensures s != [] ==> Compact(s) != [] && Compact(s)[|Compact(s)| - 1] == s[|s| - 1]
  {
    var n := |s|;
    if n > 1 {
      CompactKeepsElements(s[..n - 1]);
      assert s == s[..n - 1] + [s[n - 1]];
      assert s[..n - 1][n - 2] == s[n - 2];
    }
  }

  lemma {:induction false} CompactSorted<T(!new)>(s: seq<T>, less: (T, T) -> bool)
    requires StrictTotal(less) && Sorted(s, less)
    ensures StrictlySorted(Compact(s), less)
  {
    var n := |s|;
    if n > 1 {
      CompactSorted(s[..n - 1], less);
      CompactKeepsElements(s[..n - 1]);
      if s[n - 1] != s[n - 2] {
        var front, last := Compact(s[..n - 1]), s[n - 1];
        forall x | x in front ensures less(x, last) {
          assert x in s[..n - 1];
          assert less(x, last) || x == last || less(last, x);
        }
      }
    }
  }

  /** A sorted and compacted list of strings: what it is sorted from decides it by its elements alone. */
  function SortedSet(paths: seq<string>): seq<string> {
    Compact(Sort(paths, StrLess))
  }

  lemma SortedSetElements(paths: seq<string>)
    ensures StrictlySorted(SortedSet(paths), StrLess)
    ensures forall p :: p in SortedSet(paths) <==> p in paths
  {
    StrLessIsStrictTotal();
    StrictTotalIsWeak(StrLess);
    var s := Sort(paths, StrLess);
    SortSorts(paths, StrLess);
    CompactSorted(s, StrLess);
    CompactKeepsElements(s);
    forall p ensures p in s <==> p in paths {
      assert p in multiset(s) <==> p in multiset(paths);
    }
  }

  lemma SortedSetCanonical(paths: seq<string>, paths': seq<string>)
    requires forall p :: p in paths <==> p in paths'
    ensures SortedSet(paths) == SortedSet(paths')
  {
    StrLessIsStrictTotal();
    SortedSetElements(paths);
    SortedSetElements(paths');
    StrictlySortedUnique(SortedSet(paths), SortedSet(paths'), StrLess);
  }

  /** A set's members in order. */
  ghost function ListOf<T(!new)>(s: set<T>, less: (T, T) -> bool): (r: seq<T>)
    requires StrictTotal(less)
    ensures forall x :: x in r <==> x in s
    ensures StrictlySorted(r, less)
  {
    if s == {} then []
    else
      var least := Least(s, less);
      [least] + ListOf(s - {least}, less)
  }

  ghost function Least<T(!new)>(s: set<T>, less: (T, T) -> bool): (x: T)
    requires StrictTotal(less) && s != {}
    ensures x in s && forall y | y in s && y != x :: less(x, y)
  {
    var x :| x in s;
    if s == {x} then x
    else
      var rest := Least(s - {x}, less);
      if less(rest, x) then rest else x
  }

  /** `slices.Sort` of a list without repeats lists the set of its elements. */
  lemma SortLists<T(!new)>(found: seq<T>, s: set<T>, less: (T, T) -> bool)
    requires StrictTotal(less) && Distinct(found) && forall x :: x in found <==> x in s
    ensures Sort(found, less) == ListOf(s, less)
  {
    var sorted := Sort(found, less);
    StrictTotalIsWeak(less);
    SortSorts(found, less);
    DistinctPermutation(found, sorted);
    forall x ensures x in sorted <==> x in found {
      assert x in multiset(sorted) <==> x in multiset(found);
    }
    forall i, j | 0 <= i < j < |sorted| ensures less(sorted[i], sorted[j]) {
      assert sorted[i] != sorted[j] && !less(sorted[j], sorted[i]);
    }
    StrictlySortedUnique(sorted, ListOf(s, less), less);
  }

  /** A set of strings in order. */
  ghost function Listed(s: set<string>): (r: seq<string>)
    ensures forall x :: x in r <==> x in s
    ensures StrictlySorted(r, StrLess)
  {
    StrLessIsStrictTotal();
    ListOf(s, StrLess)
  }

  /** A set's members, met in whatever order the set gives them, then sorted. */
  method SortedMembers(members: set<string>) returns (out: seq<string>)
    ensures out == Listed(members)
  {
    var found: seq<string> := [];
    var todo := members;
    while todo != {}
      invariant todo <= members
      invariant Distinct(found)
      invariant forall p :: p in found <==> p in members && p !in todo
    {
      var p :| p in todo;
      todo := todo - {p};
      DistinctSnoc(found, p);
      found := found + [p];
    }
    StrLessIsStrictTotal();
    SortLists(found, members, StrLess);
    out := Sort(found, StrLess);
  }

  ghost predicate Distinct<T>(s: seq<T>) {
    forall i, j | 0 <= i < j < |s| :: s[i] != s[j]
  }

  lemma {:induction false} DistinctMultiplicity<T>(s: seq<T>, x: T)
    requires Distinct(s)
    ensures multiset(s)[x] <= 1
  {
    if s != [] {
      var n := |s| - 1;
      assert s == s[..n] + [s[n]];
      DistinctMultiplicity(s[..n], x);
      assert x == s[n] ==> x !in s[..n];
    }
  }

  lemma DistinctSnoc<T>(s: seq<T>, x: T)
    requires Distinct(s) && x !in s
    ensures Distinct(s + [x])
  {
  }

  /** A permutation of a list without repeats has none. */
  lemma DistinctPermutation<T>(s: seq<T>, t: seq<T>)
    requires Distinct(s) && multiset(s) == multiset(t)
    ensures Distinct(t)
  {
    forall i, j | 0 <= i < j < |t| ensures t[i] != t[j] {
      var x := t[i];
      DistinctMultiplicity(s, x);
      assert t == t[..i] + [x] + t[i + 1..j] + [t[j]] + t[j + 1..];
    }
  }

  lemma WithoutOne<T>(b: seq<T>, j: nat)
    requires j < |b|
    ensures multiset(b) == multiset(b[..j] + b[j + 1..]) + multiset{b[j]}
  {
    assert b == b[..j] + [b[j]] + b[j + 1..];
  }

  /** An element taken out of two lists with the same elements, from the end of one and anywhere in the other. */
  lemma TakeOut<T>(a: seq<T>, b: seq<T>, j: nat)
    requires multiset(a) == multiset(b) && a != [] && j < |b| && b[j] == a[|a| - 1]
    ensures multiset(a[..|a| - 1]) == multiset(b[..j] + b[j + 1..])
  {
    var rest, left := multiset(a[..|a| - 1]), multiset(b[..j] + b[j + 1..]);
    WithoutOne(a, |a| - 1);
    assert a[..|a| - 1] + a[|a|..] == a[..|a| - 1];
    WithoutOne(b, j);
    assert rest == (rest + multiset{b[j]}) - multiset{b[j]} && left == (left + multiset{b[j]}) - multiset{b[j]};
  }

  function Mapped<A, B>(s: seq<A>, f: A -> B): (r: seq<B>)
    ensures |r| == |s| && forall i | 0 <= i < |s| :: r[i] == f(s[i])
  {
    seq(|s|, i requires 0 <= i < |s| => f(s[i]))
  }

  /** Permuting the arguments permutes the values. */
  lemma {:induction false} MappedPermutes<A, B>(s: seq<A>, t: seq<A>, f: A -> B)
    requires multiset(s) == multiset(t)
    ensures multiset(Mapped(s, f)) == multiset(Mapped(t, f))
    decreases |s|
  {
    assert |s| == |multiset(s)| == |multiset(t)| == |t|;
    if s != [] {
      var n := |s| - 1;
      assert s[n] in multiset(t);
      var j :| 0 <= j < |t| && t[j] == s[n];
      var rest := t[..j] + t[j + 1..];
      TakeOut(s, t, j);
      MappedPermutes(s[..n], rest, f);
      assert Mapped(s, f) == Mapped(s[..n], f) + [f(s[n])];
      WithoutOne(Mapped(t, f), j);
      assert Mapped(rest, f) == Mapped(t, f)[..j] + Mapped(t, f)[j + 1..];
    }
  }
}
