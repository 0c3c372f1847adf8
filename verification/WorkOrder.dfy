/** Which mutants a phase works on and in what order: shared by the pool and by the equivalence detector. */
module WorkOrder {
  import opened Text
  import opened Ordering
  import opened Mutants

  /** By package, then file, then offset, so that those of one package and one file come in a row. */
  predicate MutantLess(a: Mutant, b: Mutant) {
    StrLess(a.pkg, b.pkg) || (a.pkg == b.pkg && WithinPkgLess(a, b))
  }

  predicate WithinPkgLess(a: Mutant, b: Mutant) {
    StrLess(a.file, b.file) || (a.file == b.file && a.startOffset < b.startOffset)
  }

  /** The order of positions by the mutants at them. Those outside the slice, which no sort here meets, come first. */
  function ByMutant(mutants: seq<Mutant>): (nat, nat) -> bool {
    (a: nat, b: nat) => b < |mutants| && (a < |mutants| ==> MutantLess(mutants[a], mutants[b]))
  }

  /** The same with ties kept in the slice's order: the whole order of a stable sort. */
  function ThenPosition(less: (nat, nat) -> bool): (nat, nat) -> bool {
    (a: nat, b: nat) => less(a, b) || (!less(b, a) && a < b)
  }

  lemma WithinPkgIsWeak(a: Mutant, b: Mutant, c: Mutant)
    ensures WithinPkgLess(a, b) ==> !WithinPkgLess(b, a)
    ensures !WithinPkgLess(b, a) && !WithinPkgLess(c, b) ==> !WithinPkgLess(c, a)
  {
    StrLessIsStrictTotal();
    assert StrLess(a.file, b.file) ==> !StrLess(b.file, a.file);
    if StrLess(c.file, a.file) {
      assert StrLess(b.file, c.file) ==> StrLess(b.file, a.file);
      assert StrLess(b.file, c.file) || b.file == c.file || StrLess(c.file, b.file);
    } else if StrLess(b.file, c.file) {
      assert a.file == c.file ==> StrLess(b.file, a.file);
    }
  }

  lemma MutantLessIsWeak(a: Mutant, b: Mutant, c: Mutant)
    ensures MutantLess(a, b) ==> !MutantLess(b, a)
    ensures !MutantLess(b, a) && !MutantLess(c, b) ==> !MutantLess(c, a)
  {
    StrLessIsStrictTotal();
    WithinPkgIsWeak(a, b, c);
    assert StrLess(a.pkg, b.pkg) ==> !StrLess(b.pkg, a.pkg);
    if StrLess(c.pkg, a.pkg) {
      assert StrLess(b.pkg, c.pkg) ==> StrLess(b.pkg, a.pkg);
      assert StrLess(b.pkg, c.pkg) || b.pkg == c.pkg || StrLess(c.pkg, b.pkg);
    } else if StrLess(b.pkg, c.pkg) {
      assert a.pkg == c.pkg ==> StrLess(b.pkg, a.pkg);
    }
  }

  lemma ByMutantIsWeak(mutants: seq<Mutant>)
    ensures WeakOrder(ByMutant(mutants))
  {
    var less := ByMutant(mutants);
    forall a: nat, b: nat, c: nat
      ensures less(a, b) ==> !less(b, a)
      ensures !less(b, a) && !less(c, b) ==> !less(c, a)
    {
      if a < |mutants| && b < |mutants| {
        MutantLessIsWeak(mutants[a], mutants[b], mutants[if c < |mutants| then c else a]);
      }
    }
  }

  lemma {:induction false} InsertIsStable(x: nat, s: seq<nat>, less: (nat, nat) -> bool)
    requires WeakOrder(less) && StrictlySorted(s, ThenPosition(less)) && forall y | y in s :: x < y
    ensures StrictlySorted(Insert(x, s, less), ThenPosition(less))
  {
    var before := ThenPosition(less);
    if s != [] && less(s[0], x) {
      var rest := Insert(x, s[1..], less);
      assert forall y | y in s[1..] :: y in s;
      InsertIsStable(x, s[1..], less);
      forall y | y in rest ensures before(s[0], y) {
        assert y in multiset(rest);
        assert y == x || y in s[1..];
      }
    } else if s != [] {
      forall y | y in s ensures before(x, y) {
        assert y == s[0] || before(s[0], y);
        assert !less(y, s[0]);
      }
    }
  }

  lemma {:induction false} SortIsStable(s: seq<nat>, less: (nat, nat) -> bool)
    requires WeakOrder(less) && forall i, j | 0 <= i < j < |s| :: s[i] < s[j]
    ensures StrictlySorted(Sort(s, less), ThenPosition(less))
  {
    if s != [] {
      SortIsStable(s[1..], less);
      forall y | y in Sort(s[1..], less) ensures s[0] < y {
        assert y in multiset(s[1..]);
      }
      InsertIsStable(s[0], Sort(s[1..], less), less);
    }
  }

  /** The positions of the mutants with a status, each once. */
  ghost predicate IsWorkList(mutants: seq<Mutant>, status: Status, list: seq<nat>) {
    && Distinct(list)
    && forall i: nat :: i in list <==> i < |mutants| && mutants[i].status == status
  }

  method Collect(mutants: seq<Mutant>, status: Status) returns (found: seq<nat>)
    ensures IsWorkList(mutants, status, found)
    ensures forall j, k | 0 <= j < k < |found| :: found[j] < found[k]
  {
    found := [];
    for i := 0 to |mutants|
      invariant forall k | 0 <= k < |found| :: found[k] < i
      invariant forall j, k | 0 <= j < k < |found| :: found[j] < found[k]
      invariant forall j: nat :: j in found <==> j < i && mutants[j].status == status
    {
      if mutants[i].status == status { found := found + [i]; }
    }
  }

  /** The work list in working order, ties in the slice's order. */
  method WorkList(mutants: seq<Mutant>, status: Status) returns (list: seq<nat>)
    ensures IsWorkList(mutants, status, list)
    ensures StrictlySorted(list, ThenPosition(ByMutant(mutants)))
    ensures forall j, k | 0 <= j < k < |list| && list[j] < |mutants| && list[k] < |mutants| ::
      var a, b := mutants[list[j]], mutants[list[k]];
      StrLess(a.pkg, b.pkg) || (a.pkg == b.pkg
        && (StrLess(a.file, b.file) || (a.file == b.file
        && (a.startOffset < b.startOffset || (a.startOffset == b.startOffset && list[j] < list[k])))))
  {
    var found := Collect(mutants, status);
    list := Sort(found, ByMutant(mutants));
    ByMutantIsWeak(mutants);
    SortIsStable(found, ByMutant(mutants));
    DistinctPermutation(found, list);
    forall i: nat ensures i in list <==> i in found {
      assert i in multiset(list) <==> i in multiset(found);
    }
    StrLessIsStrictTotal();
  }
}
