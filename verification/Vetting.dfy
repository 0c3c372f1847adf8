/**
 Which tests a mutant may be routed to: those that passed alone, and of those that cover a line together only groups
 that pass together (internal/coverage/testmap.go, `routeGroups` in internal/runner/worker.go).
 */
module Vetting {
  import opened Text
  import opened Ordering
  import opened Coverage
  import opened Mutants

  // ----- running every test alone -----

  /** How a test's run alone without any mutant ends: `Failed` also when it leaves no readable profile. */
  datatype Solo = Passed(blocks: seq<Block>, duration: int) | Failed | SoloTimeout

  /** Why a test has no result. */
  ghost predicate Omitted(t: TestKey, bins: set<string>, solo: TestKey -> Solo, stalled: set<string>) {
    || t.pkg !in bins
    || t.pkg in stalled
    || !solo(t).Passed?
    || (solo(t).blocks == [] && solo(t).duration <= 0)
  }

  /**
   One coverage worker, cancelled before its turn `end`. The workers share the set of stalled packages: `others(i)` are
   those the others have added by its turn `i`.
   */
  method ProcessWork(work: seq<TestKey>, bins: set<string>, solo: TestKey -> Solo, others: nat -> set<string>, end: nat)
      returns (results: seq<TestCoverage>, stalled: set<string>)
    ensures forall r | r in results :: r.test in work && solo(r.test) == Passed(r.blocks, r.duration)
    ensures forall p | p in stalled :: exists t | t in work :: t.pkg == p && solo(t) == SoloTimeout
    ensures forall i | 0 <= i < |work| && i < end && (forall r | r in results :: r.test != work[i]) ::
      || work[i].pkg !in bins || work[i].pkg in stalled || work[i].pkg in others(i)
      || solo(work[i]) == Failed || solo(work[i]) == SoloTimeout
      || (solo(work[i]).blocks == [] && solo(work[i]).duration <= 0)
  {
    results, stalled := [], {};
    for i := 0 to |work|
      invariant forall r | r in results :: r.test in work && solo(r.test) == Passed(r.blocks, r.duration)
      invariant forall p | p in stalled :: exists t | t in work :: t.pkg == p && solo(t) == SoloTimeout
      invariant forall j | 0 <= j < i ::
        Omitted(work[j], bins, solo, stalled + others(j)) || exists r | r in results :: r.test == work[j]
    {
      if i >= end {
        return;
      }
      var test := work[i];
      if test.pkg !in bins || test.pkg in stalled + others(i) {
        continue;
      }
      var run := solo(test);
      if !run.Passed? {
        if run.SoloTimeout? {
          stalled := stalled + {test.pkg};
        }
        continue;
      }
      if run.blocks == [] && run.duration <= 0 {
        continue;
      }
      var r := TestCoverage(test, run.duration, run.blocks);
      results := results + [r];
      assert r in results && r.test == work[i];
    }
  }

  // ----- groups -----

  /** The tests of one package that cover a line, sorted. */
  datatype Group = Group(pkg: string, tests: seq<string>)

  ghost predicate InPkgs(s: set<TestKey>, pkg: string) {
    exists k | k in s :: k.pkg == pkg
  }

  ghost function NamesIn(s: set<TestKey>, pkg: string): set<string> {
    set k | k in s && k.pkg == pkg :: k.name
  }

  ghost function GroupAt(s: set<TestKey>, pkg: string): Group {
    Group(pkg, Listed(NamesIn(s, pkg)))
  }

  ghost predicate IsGroupOf(g: Group, s: set<TestKey>) {
    InPkgs(s, g.pkg) && g == GroupAt(s, g.pkg)
  }

  /** Splits the tests covering a line by package; the set gives them in any order. */
  method ByPackage(s: set<TestKey>) returns (byPkg: map<string, seq<string>>)
    ensures forall pkg :: pkg in byPkg <==> InPkgs(s, pkg)
    ensures forall pkg | pkg in byPkg :: Distinct(byPkg[pkg]) && forall name :: name in byPkg[pkg] <==> TestKey(pkg, name) in s
  {
    byPkg := map[];
    var todo := s;
    while todo != {}
      invariant todo <= s
      invariant forall pkg :: pkg in byPkg <==> InPkgs(s - todo, pkg)
      invariant forall pkg | pkg in byPkg ::
        Distinct(byPkg[pkg]) && forall name :: name in byPkg[pkg] <==> TestKey(pkg, name) in s - todo
    {
      var k :| k in todo;
      ghost var done := s - todo;
      todo := todo - {k};
      assert s - todo == done + {k};
      var names := if k.pkg in byPkg then byPkg[k.pkg] else [];
      assert TestKey(k.pkg, k.name) == k && k !in done;
      DistinctSnoc(names, k.name);
      forall pkg ensures InPkgs(s - todo, pkg) <==> InPkgs(done, pkg) || pkg == k.pkg {
        PkgsStep(done, k, pkg);
      }
      assert forall name :: TestKey(k.pkg, name) in done ==> InPkgs(done, k.pkg);
      byPkg := byPkg[k.pkg := names + [k.name]];
    }
    assert s - todo == s;
  }

  lemma PkgsStep(done: set<TestKey>, k: TestKey, pkg: string)
    ensures InPkgs(done + {k}, pkg) <==> InPkgs(done, pkg) || pkg == k.pkg
  {
    if InPkgs(done, pkg) {
      var k' :| k' in done && k'.pkg == pkg;
      assert k' in done + {k};
    }
    if pkg == k.pkg {
      assert k in done + {k};
    }
  }

  method LineGroups(s: set<TestKey>) returns (groups: seq<Group>)
    ensures forall g :: g in groups <==> IsGroupOf(g, s)
  {
    var byPkg := ByPackage(s);
    groups := [];
    var todo := byPkg.Keys;
    while todo != {}
      invariant todo <= byPkg.Keys
      invariant forall g :: g in groups <==> g.pkg !in todo && IsGroupOf(g, s)
    {
      var pkg :| pkg in todo;
      todo := todo - {pkg};
      StrLessIsStrictTotal();
      forall name ensures name in byPkg[pkg] <==> name in NamesIn(s, pkg) {
        NamesInHolds(s, pkg, name);
      }
      SortLists(byPkg[pkg], NamesIn(s, pkg), StrLess);
      groups := groups + [Group(pkg, Sort(byPkg[pkg], StrLess))];
    }
  }

  lemma NamesInHolds(s: set<TestKey>, pkg: string, name: string)
    ensures name in NamesIn(s, pkg) <==> TestKey(pkg, name) in s
  {
    if TestKey(pkg, name) in s {
      var k := TestKey(pkg, name);
      assert k in s && k.pkg == pkg && k.name == name;
    }
  }

  /** The sorted names of the tests of `pkg` in the set. */
  ghost predicate SortedNames(names: seq<string>, s: set<TestKey>, pkg: string) {
    && (forall i, j | 0 <= i < j < |names| :: StrLess(names[i], names[j]))
    && (forall name :: name in names <==> TestKey(pkg, name) in s)
  }

  lemma GroupAtMeans(s: set<TestKey>, g: Group)
    ensures g == GroupAt(s, g.pkg) <==> SortedNames(g.tests, s, g.pkg)
    ensures IsGroupOf(g, s) <==> g.tests != [] && SortedNames(g.tests, s, g.pkg)
  {
    var names := NamesIn(s, g.pkg);
    StrLessIsStrictTotal();
    forall name ensures name in names <==> TestKey(g.pkg, name) in s { NamesInHolds(s, g.pkg, name); }
    if SortedNames(g.tests, s, g.pkg) { StrictlySortedUnique(g.tests, Listed(names), StrLess); }
    if InPkgs(s, g.pkg) {
      var k :| k in s && k.pkg == g.pkg;
      assert k.name in names;
    }
    if g.tests != [] && SortedNames(g.tests, s, g.pkg) { assert g.tests[0] in g.tests && TestKey(g.pkg, g.tests[0]) in s; }
  }

  // ----- keys of groups -----

  function JoinNul(tests: seq<string>): string {
    if tests == [] then "" else ['\0'] + (tests[0] + JoinNul(tests[1..]))
  }

  /** The package and the tests, each behind a NUL but the first. */
  function GroupKey(g: Group): string {
    g.pkg + JoinNul(g.tests)
  }

  ghost predicate NulFree(g: Group) {
    '\0' !in g.pkg && forall t | t in g.tests :: '\0' !in t
  }

  lemma {:induction false} JoinNulInjective(a: string, ts: seq<string>, b: string, us: seq<string>)
    requires '\0' !in a && '\0' !in b
    requires (forall t | t in ts :: '\0' !in t) && (forall u | u in us :: '\0' !in u)
    requires a + JoinNul(ts) == b + JoinNul(us)
    ensures a == b && ts == us
    decreases |ts|
  {
    assert a + "" == a && b + "" == b;
    assert ts != [] ==> (a + JoinNul(ts))[|a|] == '\0';
    assert us != [] ==> (b + JoinNul(us))[|b|] == '\0';
    if ts != [] && us != [] {
      SplitAtFirst(a, ts[0] + JoinNul(ts[1..]), b, us[0] + JoinNul(us[1..]), '\0');
      JoinNulInjective(ts[0], ts[1..], us[0], us[1..]);
      assert ts == [ts[0]] + ts[1..] && us == [us[0]] + us[1..];
    }
  }

  /** Import paths and test names hold no NUL, so a group's key names one group. */
  lemma GroupKeyInjective(g: Group, g': Group)
    requires NulFree(g) && NulFree(g') && GroupKey(g) == GroupKey(g')
    ensures g == g'
  {
    JoinNulInjective(g.pkg, g.tests, g'.pkg, g'.tests);
  }

  ghost predicate NulFreeKeys(s: set<TestKey>) {
    forall k | k in s :: '\0' !in k.pkg && '\0' !in k.name
  }

  lemma GroupsAreNulFree(g: Group, s: set<TestKey>)
    requires NulFreeKeys(s) && IsGroupOf(g, s)
    ensures NulFree(g)
  {
    var k :| k in s && k.pkg == g.pkg;
    forall t | t in g.tests ensures '\0' !in t {
      NamesInHolds(s, g.pkg, t);
    }
  }

  // ----- checking groups -----

  /** The lines whose groups are checked: every covered one, or those of the mutants to be tested. */
  datatype Lines = AllLines | OnlyLines(keys: set<string>)

  predicate Selected(lines: Lines, key: string) {
    lines.OnlyLines? ==> key in lines.keys
  }

  ghost predicate NulFreeIndex(index: Index) {
    forall key | key in index :: NulFreeKeys(index[key])
  }

  /** A group of two or more tests that some selected line has. */
  ghost predicate ToCheck(index: Index, lines: Lines, g: Group) {
    |g.tests| > 1 && exists key | key in index :: Selected(lines, key) && IsGroupOf(g, index[key])
  }

  /** Adds the groups of one line not seen yet. */
  method AddGroups(found: seq<Group>, seen: set<string>, groups: seq<Group>) returns (seen': set<string>, groups': seq<Group>)
    requires forall g | g in found + groups :: NulFree(g)
    requires forall key :: key in seen <==> exists g | g in groups :: GroupKey(g) == key
    ensures forall g :: g in groups' <==> g in groups || (g in found && |g.tests| > 1)
    ensures forall key :: key in seen' <==> exists g | g in groups' :: GroupKey(g) == key
  {
    seen', groups' := seen, groups;
    for i := 0 to |found|
      invariant forall g :: g in groups' <==> g in groups || (g in found[..i] && |g.tests| > 1)
      invariant forall key :: key in seen' <==> exists g | g in groups' :: GroupKey(g) == key
    {
      var g := found[i];
      assert found[..i + 1] == found[..i] + [g];
      if |g.tests| > 1 {
        if GroupKey(g) !in seen' {
          seen' := seen' + {GroupKey(g)};
          ghost var before := groups';
          groups' := groups' + [g];
          assert forall g' :: g' in groups' <==> g' in before || g' == g;
        } else {
          var twin :| twin in groups' && GroupKey(twin) == GroupKey(g);
          assert g in found + groups && twin in found + groups;
          GroupKeyInjective(twin, g);
        }
      }
    }
    assert found[..|found|] == found;
  }

  /** The distinct groups to check. */
  method TestGroups(index: Index, lines: Lines) returns (groups: seq<Group>)
    requires NulFreeIndex(index)
    ensures forall g :: g in groups <==> ToCheck(index, lines, g)
  {
    var seen: set<string> := {};
    groups := [];
    var keys := if lines.OnlyLines? then lines.keys else index.Keys;
    var todo := keys;
    while todo != {}
      invariant todo <= keys
      invariant forall g | g in groups :: NulFree(g)
      invariant forall key :: key in seen <==> exists g | g in groups :: GroupKey(g) == key
      invariant forall g :: g in groups <==>
        |g.tests| > 1 && exists key | key in index :: key in keys && key !in todo && IsGroupOf(g, index[key])
    {
      var key :| key in todo;
      todo := todo - {key};
      var found := [];
      if key in index {
        found := LineGroups(index[key]);
        forall g | g in found ensures NulFree(g) { GroupsAreNulFree(g, index[key]); }
      }
      seen, groups := AddGroups(found, seen, groups);
    }
  }

  /** Runs each group once without any mutant, and returns those that fail. */
  method CheckGroups(groups: seq<Group>, together: Group -> bool) returns (failed: seq<Group>)
    ensures forall g :: g in failed <==> g in groups && !together(g)
  {
    failed := [];
    for i := 0 to |groups|
      invariant forall g :: g in failed <==> g in groups[..i] && !together(g)
    {
      assert groups[..i + 1] == groups[..i] + [groups[i]];
      if !together(groups[i]) {
        failed := failed + [groups[i]];
      }
    }
    assert groups[..|groups|] == groups;
  }

  // ----- dropping groups -----

  /** What is left of a line: the tests of every package but those whose group there failed. */
  ghost function Pruned(s: set<TestKey>, failed: seq<Group>): set<TestKey> {
    set k | k in s && GroupAt(s, k.pkg) !in failed
  }

  /** A test goes from a line exactly when the tests of its package on that line are a failed group. */
  lemma PrunedMeans(s: set<TestKey>, failed: seq<Group>, k: TestKey)
    ensures k in Pruned(s, failed) <==> k in s && !exists g | g in failed :: g.pkg == k.pkg && SortedNames(g.tests, s, k.pkg)
  {
    GroupAtMeans(s, GroupAt(s, k.pkg));
    if g :| g in failed && g.pkg == k.pkg && SortedNames(g.tests, s, k.pkg) { GroupAtMeans(s, g); }
  }

  method DropFromLine(s: set<TestKey>, drop: set<string>, ghost failed: seq<Group>) returns (left: set<TestKey>)
    requires NulFreeKeys(s) && forall g | g in failed :: NulFree(g)
    requires forall key :: key in drop <==> exists g | g in failed :: GroupKey(g) == key
    ensures left == Pruned(s, failed)
  {
    var groups := LineGroups(s);
    left := s;
    for i := 0 to |groups|
      invariant forall k :: k in left <==> k in s && !(GroupAt(s, k.pkg) in groups[..i] && GroupAt(s, k.pkg) in failed)
    {
      var g := groups[i];
      assert g in groups && IsGroupOf(g, s);
      assert groups[..i + 1] == groups[..i] + [g];
      GroupsAreNulFree(g, s);
      DropDecides(g, drop, failed);
      if GroupKey(g) !in drop {
        continue;
      }
      forall k | k in s ensures k.pkg == g.pkg && k.name in g.tests <==> GroupAt(s, k.pkg) == g {
        NamesInHolds(s, g.pkg, k.name);
      }
      left := set k | k in left && !(k.pkg == g.pkg && k.name in g.tests);
    }
    assert groups[..|groups|] == groups;
    forall k | k in s ensures GroupAt(s, k.pkg) in groups {
      assert IsGroupOf(GroupAt(s, k.pkg), s);
    }
  }

  lemma DropDecides(g: Group, drop: set<string>, failed: seq<Group>)
    requires NulFree(g) && forall f | f in failed :: NulFree(f)
    requires forall key :: key in drop <==> exists f | f in failed :: GroupKey(f) == key
    ensures GroupKey(g) in drop <==> g in failed
  {
    if GroupKey(g) in drop {
      var f :| f in failed && GroupKey(f) == GroupKey(g);
      GroupKeyInjective(f, g);
    }
  }

  /** The index once the failed groups are dropped; a line left without tests goes. */
  ghost predicate IsPruned(index: Index, failed: seq<Group>, pruned: Index) {
    && (forall key | key in pruned :: key in index && pruned[key] == Pruned(index[key], failed) && pruned[key] != {})
    && (forall key | key in index && key !in pruned :: Pruned(index[key], failed) == {})
  }

  method DropGroups(index: Index, failed: seq<Group>) returns (pruned: Index)
    requires NulFreeIndex(index) && forall g | g in failed :: NulFree(g)
    ensures IsPruned(index, failed, pruned)
  {
    var drop := set g | g in failed :: GroupKey(g);
    pruned := index;
    var todo := index.Keys;
    while todo != {}
      invariant todo <= index.Keys
      invariant forall key | key in todo :: key in pruned && pruned[key] == index[key]
      invariant forall key | key in pruned && key !in todo ::
        key in index && pruned[key] == Pruned(index[key], failed) && pruned[key] != {}
      invariant forall key | key in index && key !in pruned :: Pruned(index[key], failed) == {}
    {
      var key :| key in todo;
      todo := todo - {key};
      var left := DropFromLine(pruned[key], drop, failed);
      if left == {} {
        pruned := pruned - {key};
      } else {
        pruned := pruned[key := left];
      }
    }
  }

  /** Dropping a package's group from a line leaves every other group of the line as it was. */
  lemma PrunedGroups(s: set<TestKey>, failed: seq<Group>, pkg: string)
    requires InPkgs(Pruned(s, failed), pkg)
    ensures InPkgs(s, pkg) && GroupAt(Pruned(s, failed), pkg) == GroupAt(s, pkg) && GroupAt(s, pkg) !in failed
  {
    var k :| k in Pruned(s, failed) && k.pkg == pkg;
    assert k in s;
    forall name ensures name in NamesIn(Pruned(s, failed), pkg) <==> name in NamesIn(s, pkg) {
      NamesInHolds(Pruned(s, failed), pkg, name);
      NamesInHolds(s, pkg, name);
    }
    assert NamesIn(Pruned(s, failed), pkg) == NamesIn(s, pkg);
  }

  // ----- the pruned map -----

  /** A group that may be routed to: one test that passed alone, or several that passed together. */
  ghost predicate VettedGroup(g: Group, solo: TestKey -> Solo, together: Group -> bool) {
    if |g.tests| == 1 then solo(TestKey(g.pkg, g.tests[0])).Passed? else |g.tests| > 1 && together(g)
  }

  ghost predicate Vetted(index: Index, lines: Lines, solo: TestKey -> Solo, together: Group -> bool) {
    forall key, pkg | key in index && Selected(lines, key) && InPkgs(index[key], pkg) ::
      VettedGroup(GroupAt(index[key], pkg), solo, together)
  }

  /** On every selected line the tests of one package passed alone, if it is one, and together, if they are several. */
  lemma VettedMeans(index: Index, lines: Lines, solo: TestKey -> Solo, together: Group -> bool, key: string, t: TestKey) returns (names: seq<string>)
    requires Vetted(index, lines, solo, together) && key in index && t in index[key] && (lines.OnlyLines? ==> key in lines.keys)
    ensures SortedNames(names, index[key], t.pkg) && t.name in names
    ensures if |names| == 1 then solo(t).Passed? else together(Group(t.pkg, names))
  {
    var g := GroupAt(index[key], t.pkg);
    GroupAtMeans(index[key], g);
    assert InPkgs(index[key], t.pkg) && VettedGroup(g, solo, together);
    names := g.tests;
    assert TestKey(t.pkg, t.name) in index[key];
  }

  ghost predicate PassedAlone(index: Index, solo: TestKey -> Solo) {
    forall key, t | Has(index, key, t) :: solo(t).Passed?
  }

  lemma ListedNonEmpty(s: set<TestKey>, pkg: string)
    requires InPkgs(s, pkg)
    ensures |GroupAt(s, pkg).tests| > 0
    ensures forall i | 0 <= i < |GroupAt(s, pkg).tests| :: TestKey(pkg, GroupAt(s, pkg).tests[i]) in s
  {
    var k :| k in s && k.pkg == pkg;
    NamesInHolds(s, pkg, k.name);
    var g := GroupAt(s, pkg);
    assert k.name in g.tests;
    forall i | 0 <= i < |g.tests| ensures TestKey(pkg, g.tests[i]) in s {
      assert g.tests[i] in g.tests;
      NamesInHolds(s, pkg, g.tests[i]);
    }
  }

  lemma PruningVets(index: Index, lines: Lines, failed: seq<Group>, pruned: Index, solo: TestKey -> Solo, together: Group -> bool)
    requires PassedAlone(index, solo) && IsPruned(index, failed, pruned)
    requires forall g :: g in failed <==> ToCheck(index, lines, g) && !together(g)
    ensures Vetted(pruned, lines, solo, together)
  {
    forall key, pkg | key in pruned && Selected(lines, key) && InPkgs(pruned[key], pkg)
      ensures VettedGroup(GroupAt(pruned[key], pkg), solo, together)
    {
      var s := index[key];
      PrunedGroups(s, failed, pkg);
      ListedNonEmpty(s, pkg);
      var g := GroupAt(s, pkg);
      assert IsGroupOf(g, s);
      assert Has(index, key, TestKey(pkg, g.tests[0]));
      assert |g.tests| > 1 ==> ToCheck(index, lines, g);
    }
  }

  /** The last steps of building a map: check the groups the mutants will run, and stop routing to those that fail. */
  method Vet(tm: TestMap, lines: Lines, solo: TestKey -> Solo, together: Group -> bool) returns (failed: seq<Group>)
    requires NulFreeIndex(tm.index) && PassedAlone(tm.index, solo)
    requires forall key | key in tm.index :: tm.index[key] != {}
    modifies tm`index
    ensures IsPruned(old(tm.index), failed, tm.index)
    ensures forall g :: g in failed <==> ToCheck(old(tm.index), lines, g) && !together(g)
    ensures Vetted(tm.index, lines, solo, together)
  {
    ghost var built := tm.index;
    var groups := TestGroups(tm.index, lines);
    failed := CheckGroups(groups, together);
    if |failed| > 0 {
      forall g | g in failed ensures NulFree(g) {
        var key :| key in built && Selected(lines, key) && IsGroupOf(g, built[key]);
        GroupsAreNulFree(g, built[key]);
      }
      tm.index := DropGroups(tm.index, failed);
    } else {
      NothingToPrune(tm.index, failed);
    }
    PruningVets(built, lines, failed, tm.index, solo, together);
  }

  lemma NothingToPrune(index: Index, failed: seq<Group>)
    requires failed == [] && forall key | key in index :: index[key] != {}
    ensures IsPruned(index, failed, index)
  {
    forall key | key in index ensures Pruned(index[key], failed) == index[key] {
    }
  }

  /** A map from the results of `ProcessWork`, pruned: only groups that pass without a mutant are left to route to. */
  method BuildTestMap(results: seq<TestCoverage>, lines: Lines, solo: TestKey -> Solo, together: Group -> bool)
      returns (tm: TestMap, failed: seq<Group>)
    requires forall r | r in results :: solo(r.test) == Passed(r.blocks, r.duration)
    requires forall r | r in results :: '\0' !in r.test.pkg && '\0' !in r.test.name
    ensures fresh(tm) && Vetted(tm.index, lines, solo, together)
    ensures forall key, t | Has(tm.index, key, t) :: Covered(results, key, t)
    ensures forall key, t | Covered(results, key, t) ::
      Has(tm.index, key, t) || exists g | g in failed :: g.pkg == t.pkg && t.name in g.tests
    ensures forall g | g in failed :: |g.tests| > 1 && !together(g)
  {
    tm := new TestMap();
    tm.Ingest(results);
    ghost var built := tm.index;
    ResultsAreClean(built, results, solo);
    failed := Vet(tm, lines, solo, together);
    forall key, t | Has(built, key, t) && !Has(tm.index, key, t)
      ensures exists g | g in failed :: g.pkg == t.pkg && t.name in g.tests
    {
      DroppedWithItsGroup(built, failed, tm.index, key, t);
    }
  }

  lemma ResultsAreClean(index: Index, results: seq<TestCoverage>, solo: TestKey -> Solo)
    requires forall key, t | Has(index, key, t) :: Covered(results, key, t)
    requires forall r | r in results :: solo(r.test) == Passed(r.blocks, r.duration)
    requires forall r | r in results :: '\0' !in r.test.pkg && '\0' !in r.test.name
    ensures NulFreeIndex(index) && PassedAlone(index, solo)
  {
    forall key, t | Has(index, key, t) ensures solo(t).Passed? && '\0' !in t.pkg && '\0' !in t.name {
      var i :| 0 <= i < |results| && results[i].test == t && Spans(results[i].blocks, key);
      assert results[i] in results;
    }
    forall key | key in index ensures NulFreeKeys(index[key]) {
      forall t | t in index[key] ensures '\0' !in t.pkg && '\0' !in t.name {
        assert Has(index, key, t);
      }
    }
  }

  lemma DroppedWithItsGroup(index: Index, failed: seq<Group>, pruned: Index, key: string, t: TestKey)
    requires IsPruned(index, failed, pruned) && Has(index, key, t) && !Has(pruned, key, t)
    ensures exists g | g in failed :: g.pkg == t.pkg && t.name in g.tests
  {
    var g := GroupAt(index[key], t.pkg);
    assert t !in Pruned(index[key], failed) by {
      assert key in pruned ==> pruned[key] == Pruned(index[key], failed);
      assert key !in pruned ==> Pruned(index[key], failed) == {};
    }
    assert g in failed;
    NamesInHolds(index[key], t.pkg, t.name);
  }

  // ----- routing -----

  /** What a mutant runs of a package: all of it, or the named tests. */
  datatype Suite = Whole | Only(names: seq<string>)

  /** The tests attributed to a mutant's line, by package, or, for want of any, its own package whole. */
  ghost predicate IsRoute(index: Index, key: string, own: string, groups: map<string, Suite>) {
    if key !in index || index[key] == {} then groups == map[own := Whole]
    else
      && (forall pkg :: pkg in groups <==> InPkgs(index[key], pkg))
      && (forall pkg | pkg in groups ::
            groups[pkg].Only? && Distinct(groups[pkg].names) && forall name :: name in groups[pkg].names <==> TestKey(pkg, name) in index[key])
  }

  method RouteGroups(index: Index, file: string, line: nat, own: string) returns (groups: map<string, Suite>)
    ensures IsRoute(index, LineKey(file, line), own, groups)
    ensures var key := LineKey(file, line);
      && (key !in index || index[key] == {} ==> groups == map[own := Whole])
      && (key in index && index[key] != {} ==>
          && (forall t | t in index[key] :: t.pkg in groups && groups[t.pkg].Only? && t.name in groups[t.pkg].names)
          && (forall pkg | pkg in groups :: groups[pkg].Only? && groups[pkg].names != [])
          && (forall pkg | pkg in groups :: forall name | name in groups[pkg].names :: TestKey(pkg, name) in index[key]))
  {
    var key := LineKey(file, line);
    groups := map[];
    if key in index {
      var byPkg := ByPackage(index[key]);
      groups := map pkg | pkg in byPkg :: Only(byPkg[pkg]);
      if index[key] != {} {
        ghost var t :| t in index[key];
        assert InPkgs(index[key], t.pkg) && t.pkg in groups;
      }
    }
    if groups == map[] {
      groups := map[own := Whole];
    }
    if key in index && index[key] != {} {
      forall t | t in index[key] ensures t.pkg in groups && groups[t.pkg].Only? && t.name in groups[t.pkg].names {
        assert InPkgs(index[key], t.pkg) && TestKey(t.pkg, t.name) in index[key];
      }
      forall pkg | pkg in groups ensures groups[pkg].names != [] {
        var t :| t in index[key] && t.pkg == pkg;
        assert t.name in groups[pkg].names;
      }
    }
  }

  /** Whatever a mutant on a line to be tested is routed to is a whole package, or a vetted group's tests. */
  lemma OnlyVettedAreRouted(index: Index, lines: Lines, solo: TestKey -> Solo, together: Group -> bool,
                            key: string, own: string, groups: map<string, Suite>, pkg: string)
    requires Vetted(index, lines, solo, together) && Selected(lines, key)
    requires IsRoute(index, key, own, groups) && pkg in groups
    ensures groups[pkg] == Whole || exists g: Group ::
      && g.pkg == pkg && VettedGroup(g, solo, together)
      && |groups[pkg].names| == |g.tests| && (forall name :: name in groups[pkg].names <==> name in g.tests)
  {
    if groups[pkg] != Whole {
      var s := index[key];
      var g, names := GroupAt(s, pkg), groups[pkg].names;
      forall name ensures name in names <==> name in g.tests {
        NamesInHolds(s, pkg, name);
      }
      SameElementsSameLength(names, g.tests);
      assert VettedGroup(g, solo, together);
    }
  }

  /** The lines of the mutants still to be tested. */
  ghost predicate IsPendingLines(ms: seq<Mutant>, keys: set<string>) {
    && (forall m | m in ms :: 0 <= m.line)
    && forall key :: key in keys <==> exists m | m in ms && m.status == Pending && 0 <= m.line :: LineKey(m.coverageFile, m.line) == key
  }

  method PendingLines(ms: seq<Mutant>) returns (keys: set<string>)
    requires forall m | m in ms :: 0 <= m.line
    ensures IsPendingLines(ms, keys)
  {
    keys := {};
    for i := 0 to |ms|
      invariant forall key :: key in keys <==>
        exists m | m in ms[..i] && m.status == Pending && 0 <= m.line :: LineKey(m.coverageFile, m.line) == key
    {
      var m := ms[i];
      assert ms[..i + 1] == ms[..i] + [m] && m in ms;
      if m.status == Pending { keys := keys + {LineKey(m.coverageFile, m.line)}; }
    }
    assert ms[..|ms|] == ms;
  }

  /** With the map vetted on the pending lines, no pending mutant is routed to tests that fail without it. */
  lemma PendingRunOnlyVetted(index: Index, ms: seq<Mutant>, keys: set<string>, solo: TestKey -> Solo, together: Group -> bool,
                             m: Mutant, groups: map<string, Suite>, pkg: string)
    requires IsPendingLines(ms, keys) && Vetted(index, OnlyLines(keys), solo, together)
    requires m in ms && m.status == Pending && 0 <= m.line
    requires IsRoute(index, LineKey(m.coverageFile, m.line), m.pkg, groups) && pkg in groups
    ensures groups[pkg] == Whole || exists g: Group ::
      && g.pkg == pkg && VettedGroup(g, solo, together)
      && |groups[pkg].names| == |g.tests| && (forall name :: name in groups[pkg].names <==> name in g.tests)
  {
    var key := LineKey(m.coverageFile, m.line);
    assert key in keys;
    OnlyVettedAreRouted(index, OnlyLines(keys), solo, together, key, m.pkg, groups, pkg);
  }

  lemma SameElementsSameLength(a: seq<string>, b: seq<string>)
    requires Distinct(a) && StrictlySorted(b, StrLess) && forall x :: x in a <==> x in b
    ensures |a| == |b|
  {
    StrLessIsStrictTotal();
    assert Distinct(b) by {
      forall i, j | 0 <= i < j < |b| ensures b[i] != b[j] { assert StrLess(b[i], b[j]); }
    }
    SetOfDistinct(a);
    SetOfDistinct(b);
    assert (set x | x in a) == (set x | x in b);
  }

  lemma {:induction false} SetOfDistinct(a: seq<string>)
    requires Distinct(a)
    ensures |set x | x in a| == |a|
  {
    if a != [] {
      var n := |a| - 1;
      SetOfDistinct(a[..n]);
      assert (set x | x in a) == (set x | x in a[..n]) + {a[n]};
      assert a[n] !in a[..n];
    }
  }
}
