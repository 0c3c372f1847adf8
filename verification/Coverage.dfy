/** The per-test coverage map: built from the results of tests run alone, then pruned (internal/coverage/testmap.go). */
module Coverage {
  import opened Text
  import opened Ordering

  datatype TestKey = TestKey(pkg: string, name: string)

  /** A block of a coverage profile: lines `startLine` to `endLine` of a profile path, and how often it ran. */
  datatype Block = Block(file: string, startLine: nat, endLine: nat, count: int)

  /** One test's run alone: its duration in nanoseconds and what it covered. */
  datatype TestCoverage = TestCoverage(test: TestKey, duration: int, blocks: seq<Block>)

  datatype Package = Package(importPath: string, dir: string)

  type Index = map<string, set<TestKey>>

  /** `file:line`, the key of a line. */
  function LineKey(file: string, line: nat): string {
    file + ([':'] + Decimal(line))
  }

  lemma LineKeyInjective(file: string, line: nat, file': string, line': nat)
    requires LineKey(file, line) == LineKey(file', line')
    ensures file == file' && line == line'
  {
    SplitAtLast(file, Decimal(line), file', Decimal(line'), ':');
    DecimalInjective(line, line');
  }

  // ----- indexing -----

  predicate Has(index: Index, key: string, t: TestKey) {
    key in index && t in index[key]
  }

  /** Some block that ran spans the line `key` names, in the file it names. */
  ghost predicate Spans(blocks: seq<Block>, key: string) {
    exists i, line: nat :: 0 <= i < |blocks| && SpansAt(blocks[i], line, key)
  }

  predicate SpansAt(b: Block, line: nat, key: string) {
    b.count != 0 && b.startLine <= line <= b.endLine && key == LineKey(b.file, line)
  }

  ghost predicate SpansBelow(b: Block, bound: nat, key: string) {
    exists line: nat :: line < bound && SpansAt(b, line, key)
  }

  lemma SpansBelowStep(b: Block, line: nat, key: string)
    requires b.count != 0 && b.startLine <= line <= b.endLine
    ensures SpansBelow(b, line + 1, key) <==> SpansBelow(b, line, key) || key == LineKey(b.file, line)
  {
    if key == LineKey(b.file, line) { assert SpansAt(b, line, key); }
    if SpansBelow(b, line, key) {
      var l: nat :| l < line && SpansAt(b, l, key);
      assert l < line + 1;
    }
  }

  /** What the map says of a test's duration: the sum of its positive observations. */
  function SumOf(results: seq<TestCoverage>, t: TestKey): nat {
    if results == [] then 0
    else SumOf(results[..|results| - 1], t) + Observed(results[|results| - 1], t)
  }

  function Observed(r: TestCoverage, t: TestKey): nat {
    if r.test == t && r.duration > 0 then r.duration else 0
  }

  ghost predicate Covered(results: seq<TestCoverage>, key: string, t: TestKey) {
    exists i :: 0 <= i < |results| && results[i].test == t && Spans(results[i].blocks, key)
  }

  class TestMap {
    var index: Index
    var durations: map<TestKey, nat>

    constructor ()
      ensures index == map[] && durations == map[]
    {
      index, durations := map[], map[];
    }

    /** Steps through the lines of one block. */
    method AddBlock(t: TestKey, b: Block)
      modifies this`index
      ensures forall key, t' :: Has(index, key, t') <==>
        Has(old(index), key, t') || (t' == t && exists line: nat :: SpansAt(b, line, key))
      ensures (forall key | key in old(index) :: old(index)[key] != {}) ==> forall key | key in index :: index[key] != {}
    {
      if b.count == 0 {
        return;
      }
      var line := b.startLine;
      while line <= b.endLine
        invariant b.startLine <= line
        invariant forall key, t' :: Has(index, key, t') <==>
          Has(old(index), key, t') || (t' == t && SpansBelow(b, line, key))
        invariant (forall key | key in old(index) :: old(index)[key] != {}) ==> forall key | key in index :: index[key] != {}
        decreases b.endLine - line
      {
        var key := LineKey(b.file, line);
        forall k ensures SpansBelow(b, line + 1, k) <==> SpansBelow(b, line, k) || k == key { SpansBelowStep(b, line, k); }
        index := index[key := (if key in index then index[key] else {}) + {t}];
        line := line + 1;
      }
    }

    method AddBlocks(t: TestKey, blocks: seq<Block>)
      modifies this`index
      ensures forall key, t' :: Has(index, key, t') <==> Has(old(index), key, t') || (t' == t && Spans(blocks, key))
      ensures (forall key | key in old(index) :: old(index)[key] != {}) ==> forall key | key in index :: index[key] != {}
    {
      for i := 0 to |blocks|
        invariant forall key, t' :: Has(index, key, t') <==>
          Has(old(index), key, t') || (t' == t && Spans(blocks[..i], key))
        invariant (forall key | key in old(index) :: old(index)[key] != {}) ==> forall key | key in index :: index[key] != {}
      {
        forall key ensures Spans(blocks[..i + 1], key) <==>
          Spans(blocks[..i], key) || exists line: nat :: SpansAt(blocks[i], line, key)
        {
          SpansSnoc(blocks, i, key);
        }
        AddBlock(t, blocks[i]);
      }
      assert blocks[..|blocks|] == blocks;
    }

    /** A repeated observation adds up. */
    method RecordDuration(t: TestKey, d: int)
      modifies this`durations
      ensures durations == if d <= 0 then old(durations)
        else old(durations)[t := (if t in old(durations) then old(durations)[t] else 0) + d]
    {
      if d <= 0 {
        return;
      }
      durations := durations[t := (if t in durations then durations[t] else 0) + d];
    }

    /** Folds results into the map in whatever order they arrive. */
    method Ingest(results: seq<TestCoverage>)
      requires index == map[] && durations == map[]
      modifies this
      ensures forall key, t :: Has(index, key, t) <==> Covered(results, key, t)
      ensures forall key | key in index :: index[key] != {}
      ensures forall t :: (t in durations <==> SumOf(results, t) > 0) && (t in durations ==> durations[t] == SumOf(results, t))
    {
      for i := 0 to |results|
        invariant forall key, t :: Has(index, key, t) <==> Covered(results[..i], key, t)
        invariant forall key | key in index :: index[key] != {}
        invariant forall t ::
          (t in durations <==> SumOf(results[..i], t) > 0) && (t in durations ==> durations[t] == SumOf(results[..i], t))
      {
        var r := results[i];
        forall key, t ensures Covered(results[..i + 1], key, t) <==>
          Covered(results[..i], key, t) || (t == r.test && Spans(r.blocks, key))
        {
          CoveredSnoc(results, i, key, t);
        }
        assert results[..i + 1][..i] == results[..i];
        AddBlocks(r.test, r.blocks);
        RecordDuration(r.test, r.duration);
      }
      assert results[..|results|] == results;
    }
  }

  lemma SpansSnoc(blocks: seq<Block>, i: nat, key: string)
    requires i < |blocks|
    ensures Spans(blocks[..i + 1], key) <==> Spans(blocks[..i], key) || exists line: nat :: SpansAt(blocks[i], line, key)
  {
    var front, all := blocks[..i], blocks[..i + 1];
    if Spans(all, key) {
      var j, line: nat :| 0 <= j < |all| && SpansAt(all[j], line, key);
      if j < i { assert SpansAt(front[j], line, key); }
    }
    if Spans(front, key) {
      var j, line: nat :| 0 <= j < |front| && SpansAt(front[j], line, key);
      assert SpansAt(all[j], line, key);
    }
    if exists line: nat :: SpansAt(blocks[i], line, key) {
      var line: nat :| SpansAt(blocks[i], line, key);
      assert SpansAt(all[i], line, key);
    }
  }

  lemma CoveredSnoc(results: seq<TestCoverage>, i: nat, key: string, t: TestKey)
    requires i < |results|
    ensures Covered(results[..i + 1], key, t) <==>
      Covered(results[..i], key, t) || (t == results[i].test && Spans(results[i].blocks, key))
  {
    var front, all := results[..i], results[..i + 1];
    if Covered(all, key, t) {
      var j :| 0 <= j < |all| && all[j].test == t && Spans(all[j].blocks, key);
      if j < i { assert front[j] == all[j]; }
    }
    if Covered(front, key, t) {
      var j :| 0 <= j < |front| && front[j].test == t && Spans(front[j].blocks, key);
      assert all[j] == front[j];
    }
    if t == results[i].test && Spans(results[i].blocks, key) {
      assert all[i] == results[i];
    }
  }

  // ----- what the map says -----

  /** A test is on a line exactly when its run alone has a block with that line that was executed. */
  lemma CoveredMeans(results: seq<TestCoverage>, file: string, line: nat, t: TestKey)
    ensures Covered(results, LineKey(file, line), t) <==>
      exists i, k | 0 <= i < |results| && 0 <= k < |results[i].blocks| ::
        var b := results[i].blocks[k];
        results[i].test == t && b.count != 0 && b.file == file && b.startLine <= line <= b.endLine
  {
    var key := LineKey(file, line);
    if Covered(results, key, t) {
      var i :| 0 <= i < |results| && results[i].test == t && Spans(results[i].blocks, key);
      var k, l: nat :| 0 <= k < |results[i].blocks| && SpansAt(results[i].blocks[k], l, key);
      LineKeyInjective(file, line, results[i].blocks[k].file, l);
    }
    if i, k :| 0 <= i < |results| && 0 <= k < |results[i].blocks| && results[i].test == t && results[i].blocks[k].count != 0
               && results[i].blocks[k].file == file && results[i].blocks[k].startLine <= line <= results[i].blocks[k].endLine {
      assert SpansAt(results[i].blocks[k], line, key);
      assert Spans(results[i].blocks, key);
    }
  }

  /** A test's duration is what its runs took, one after the other, those that took no time or less left out. */
  lemma {:induction false} SumOfMeans(results: seq<TestCoverage>, t: TestKey) returns (sums: seq<int>)
    ensures |sums| == |results| + 1 && sums[0] == 0 && SumOf(results, t) == sums[|results|]
    ensures forall i | 0 <= i < |results| ::
      sums[i + 1] - sums[i] == if results[i].test == t && results[i].duration > 0 then results[i].duration else 0
  {
    if results == [] {
      sums := [0];
    } else {
      var n := |results| - 1;
      var front := SumOfMeans(results[..n], t);
      sums := front + [SumOf(results, t)];
      forall i | 0 <= i < |results|
        ensures sums[i + 1] - sums[i] == if results[i].test == t && results[i].duration > 0 then results[i].duration else 0
      {
        if i < n { assert results[..n][i] == results[i] && sums[i] == front[i] && sums[i + 1] == front[i + 1]; }
      }
    }
  }

  // ----- confluence -----

  lemma {:induction false} SumOfAppend(a: seq<TestCoverage>, b: seq<TestCoverage>, t: TestKey)
    ensures SumOf(a + b, t) == SumOf(a, t) + SumOf(b, t)
  {
    if b == [] {
      assert a + b == a;
    } else {
      var n := |b| - 1;
      assert (a + b)[..|a + b| - 1] == a + b[..n];
      SumOfAppend(a, b[..n], t);
    }
  }

  lemma {:induction false} SumOfPermutation(a: seq<TestCoverage>, b: seq<TestCoverage>, t: TestKey)
    requires multiset(a) == multiset(b)
    ensures SumOf(a, t) == SumOf(b, t)
    decreases |a|
  {
    assert |a| == |multiset(a)| == |multiset(b)| == |b|;
    if a != [] {
      var n := |a| - 1;
      var r := a[n];
      assert r in multiset(b);
      var j :| 0 <= j < |b| && b[j] == r;
      var rest := b[..j] + b[j + 1..];
      assert b == b[..j] + ([r] + b[j + 1..]);
      TakeOut(a, b, j);
      SumOfPermutation(a[..n], rest, t);
      SumOfAppend(b[..j], b[j + 1..], t);
      SumOfAppend(b[..j], [r] + b[j + 1..], t);
      SumOfAppend([r], b[j + 1..], t);
      assert [r][..0] == [];
    }
  }

  /** In whatever order the workers' results arrive, the map is the same. */
  lemma BuildIsConfluent(a: seq<TestCoverage>, b: seq<TestCoverage>, key: string, t: TestKey)
    requires multiset(a) == multiset(b)
    ensures Covered(a, key, t) <==> Covered(b, key, t)
    ensures SumOf(a, t) == SumOf(b, t)
  {
    SumOfPermutation(a, b, t);
    if Covered(a, key, t) { CoveredPermutation(a, b, key, t); }
    if Covered(b, key, t) { CoveredPermutation(b, a, key, t); }
  }

  lemma CoveredPermutation(a: seq<TestCoverage>, b: seq<TestCoverage>, key: string, t: TestKey)
    requires multiset(a) == multiset(b) && Covered(a, key, t)
    ensures Covered(b, key, t)
  {
    var i :| 0 <= i < |a| && a[i].test == t && Spans(a[i].blocks, key);
    assert a[i] in multiset(b);
    var j :| 0 <= j < |b| && b[j] == a[i];
  }
}
