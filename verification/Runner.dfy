/** How one mutant gets its verdict (`Worker.Test` in internal/runner/worker.go). */
module Runner {
  import opened Text
  import opened Ordering
  import opened Filtering
  import opened Mutants
  import opened Coverage
  import opened Vetting

  // ----- the suites a verdict rests on -----

  /** The map's scope: its packages with tests, whether tests cover other packages, and what test binaries link. */
  datatype Scope = Scope(suites: seq<Package>, crossPkg: bool, testDeps: map<string, set<string>>)

  /** Whether `p`'s test binary links `pkg`, or what it links is unknown. */
  predicate Links(scope: Scope, p: string, pkg: string) {
    p in scope.testDeps ==> pkg in scope.testDeps[p]
  }

  /** A suite that can kill a mutant in `pkg`. */
  predicate Decides(scope: Scope, p: Package, pkg: string) {
    p.importPath == pkg || (scope.crossPkg && Links(scope, p.importPath, pkg))
  }

  function Deciders(scope: Scope, pkg: string): Package -> bool {
    (p: Package) => Decides(scope, p, pkg)
  }

  function ByImportPath(): (Package, Package) -> bool {
    (p: Package, q: Package) => StrLess(p.importPath, q.importPath)
  }

  /** The deciding suites, in the order the scope lists them: by import path, as the scope is. */
  method SuitePkgs(scope: Scope, pkg: string) returns (pkgs: seq<Package>)
    ensures pkgs == Keep(scope.suites, Deciders(scope, pkg))
    ensures forall p :: p in pkgs <==> p in scope.suites && Decides(scope, p, pkg)
    ensures Sorted(scope.suites, ByImportPath()) ==> Sorted(pkgs, ByImportPath())
  {
    pkgs := [];
    for i := 0 to |scope.suites|
      invariant pkgs == Keep(scope.suites[..i], Deciders(scope, pkg))
    {
      assert scope.suites[..i + 1][..i] == scope.suites[..i];
      if Decides(scope, scope.suites[i], pkg) {
        pkgs := pkgs + [scope.suites[i]];
      }
    }
    assert scope.suites[..|scope.suites|] == scope.suites;
    KeepElements(scope.suites, Deciders(scope, pkg));
    if Sorted(scope.suites, ByImportPath()) { KeepSorted(scope.suites, Deciders(scope, pkg), ByImportPath()); }
  }

  ghost predicate DecidingPkg(scope: Scope, importPath: string, pkg: string) {
    exists p | p in scope.suites :: p.importPath == importPath && Decides(scope, p, pkg)
  }

  /** What is run in full once the routed run has passed. */
  ghost predicate IsRecheck(scope: Scope, own: string, routed: map<string, Suite>, full: set<string>) {
    forall pkg :: pkg in full <==>
      || (pkg in routed && routed[pkg].Only?)
      || (DecidingPkg(scope, pkg, own) && (pkg in routed ==> routed[pkg].Only?))
  }

  method RecheckGroups(scope: Scope, own: string, routed: map<string, Suite>) returns (full: set<string>)
    ensures IsRecheck(scope, own, routed, full)
    ensures forall pkg :: pkg in full <==>
      || (pkg in routed && routed[pkg].Only?)
      || ((pkg in routed ==> routed[pkg].Only?)
          && (pkg == own || (scope.crossPkg && (pkg in scope.testDeps ==> own in scope.testDeps[pkg])))
          && exists p | p in scope.suites :: p.importPath == pkg)
  {
    full := set pkg | pkg in routed && routed[pkg].Only?;
    var suites := SuitePkgs(scope, own);
    for i := 0 to |suites|
      invariant forall pkg :: pkg in full <==>
        || (pkg in routed && routed[pkg].Only?)
        || ((exists p | p in suites[..i] :: p.importPath == pkg) && (pkg in routed ==> routed[pkg].Only?))
    {
      var p := suites[i];
      assert suites[..i + 1] == suites[..i] + [p];
      if p.importPath !in routed || routed[p.importPath].Only? {
        full := full + {p.importPath};
      }
    }
    assert suites[..|suites|] == suites;
    forall pkg ensures DecidingPkg(scope, pkg, own) <==> exists p | p in suites :: p.importPath == pkg {
      if DecidingPkg(scope, pkg, own) {
        var p :| p in scope.suites && p.importPath == pkg && Decides(scope, p, own);
        assert p in suites;
      }
    }
  }

  // ----- the order of the runs -----

  /** One package's part of a mutant's run. */
  datatype PkgRun = PkgRun(pkg: string, suite: Suite)

  /** The mutant's own package first, the rest sorted. */
  ghost function Ordered(pkgs: set<string>, own: string): seq<string> {
    (if own in pkgs then [own] else []) + Listed(pkgs - {own})
  }

  method OrderRoutePackages(pkgs: set<string>, own: string) returns (order: seq<string>)
    ensures order == Ordered(pkgs, own)
  {
    order := SortedMembers(pkgs - {own});
    if own in pkgs {
      order := [own] + order;
    }
  }

  lemma OrderedHolds(pkgs: set<string>, own: string)
    ensures forall p :: p in Ordered(pkgs, own) <==> p in pkgs
    ensures Distinct(Ordered(pkgs, own))
  {
    var rest := Listed(pkgs - {own});
    StrLessIsStrictTotal();
    assert forall i, j | 0 <= i < j < |rest| :: StrLess(rest[i], rest[j]);
    assert Distinct(rest);
    assert own !in rest;
    if own in pkgs {
      assert Ordered(pkgs, own) == [own] + rest;
    }
  }

  function RunsOf(groups: map<string, Suite>, order: seq<string>): (runs: seq<PkgRun>)
    requires forall p | p in order :: p in groups
    ensures |runs| == |order|
    ensures forall i | 0 <= i < |runs| :: runs[i] == PkgRun(order[i], groups[order[i]])
  {
    seq(|order|, i requires 0 <= i < |order| => assert order[i] in order; PkgRun(order[i], groups[order[i]]))
  }

  ghost function Invocations(groups: map<string, Suite>, own: string): (runs: seq<PkgRun>) {
    OrderedHolds(groups.Keys, own);
    RunsOf(groups, Ordered(groups.Keys, own))
  }

  method Invoke(groups: map<string, Suite>, own: string) returns (runs: seq<PkgRun>)
    ensures runs == Invocations(groups, own)
  {
    var order := OrderRoutePackages(groups.Keys, own);
    OrderedHolds(groups.Keys, own);
    runs := RunsOf(groups, order);
  }

  // ----- outcomes -----

  /** A build gives a binary, or none for a package without tests, or ends the mutant's run. */
  datatype Build = Built(hasTests: bool) | BuildFailed(status: Status)

  /** What building a package with the mutant does, and running its suite with so much time left: outcome and time taken. */
  datatype Oracle = Oracle(build: string -> Build, run: (string, Suite, int) -> (Status, int))

  ghost predicate FailedBuildsEndRuns(o: Oracle) {
    forall pkg :: o.build(pkg).BuildFailed? ==> o.build(pkg).status != Lived
  }

  function Outcome(o: Oracle, r: PkgRun, left: int): Status {
    match o.build(r.pkg)
    case BuildFailed(s) => s
    case Built(hasTests) => if hasTests then o.run(r.pkg, r.suite, left).0 else Lived
  }

  function Took(o: Oracle, r: PkgRun, left: int): int {
    if o.build(r.pkg) == Built(true) then o.run(r.pkg, r.suite, left).1 else 0
  }

  /** The first outcome of `runs` that is not Lived, with one deadline for them all. */
  function FirstBad(o: Oracle, runs: seq<PkgRun>, left: int): Status {
    if runs == [] then Lived
    else if Outcome(o, runs[0], left) != Lived then Outcome(o, runs[0], left)
    else FirstBad(o, runs[1..], left - Took(o, runs[0], left))
  }

  /** The same for packages run in full, each with a deadline to itself. */
  function FirstBadFull(o: Oracle, pkgs: seq<string>, deadline: int): Status {
    if pkgs == [] then Lived
    else if Outcome(o, PkgRun(pkgs[0], Whole), deadline) != Lived then Outcome(o, PkgRun(pkgs[0], Whole), deadline)
    else FirstBadFull(o, pkgs[1..], deadline)
  }

  // ----- one worker, one mutant -----

  /** A test binary: none for a package without tests, or the one with this number. */
  datatype Binary = NoTests | Numbered(n: nat)

  /** What keeps a mutant from being tested at all. */
  datatype Setup = Ready | NoSource | BadPatch | WriteFailed(status: Status)

  /** The binary the `i`-th build leaves. */
  function BinaryOf(o: Oracle, pkg: string, i: nat): Binary {
    if o.build(pkg) == Built(true) then Numbered(i) else NoTests
  }

  /** Binaries are numbered in the order of their builds, so none is another package's. */
  ghost predicate Bookkept(o: Oracle, bins: map<string, Binary>, built: seq<string>) {
    && Distinct(built) && |bins| == |built|
    && (forall p | p in bins :: p in built && o.build(p).Built?)
    && (forall i | 0 <= i < |built| :: built[i] in bins && bins[built[i]] == BinaryOf(o, built[i], i))
  }

  lemma KnownBinary(o: Oracle, bins: map<string, Binary>, built: seq<string>, pkg: string)
    requires Bookkept(o, bins, built) && pkg in bins
    ensures o.build(pkg) == Built(bins[pkg].Numbered?)
  {
    var i :| 0 <= i < |built| && built[i] == pkg;
  }

  lemma NewBinary(o: Oracle, bins: map<string, Binary>, built: seq<string>, pkg: string)
    requires Bookkept(o, bins, built) && pkg !in bins
    ensures Distinct(built + [pkg])
    ensures o.build(pkg).Built? ==> Bookkept(o, bins[pkg := BinaryOf(o, pkg, |built|)], built + [pkg])
  {
    assert forall i | 0 <= i < |built| :: built[i] in bins;
    DistinctSnoc(built, pkg);
    if o.build(pkg).Built? {
      var bins', built' := bins[pkg := BinaryOf(o, pkg, |built|)], built + [pkg];
      forall i | 0 <= i < |built'| ensures built'[i] in bins' && bins'[built'[i]] == BinaryOf(o, built'[i], i) {
        if i < |built| { assert built'[i] == built[i]; }
      }
    }
  }

  class Worker {
    /** The current mutant's binaries, by package. */
    var bins: map<string, Binary>
    /** Of the current mutant: the packages of `bins` in the order they were built, every build tried, and every full run. */
    ghost var built: seq<string>
    ghost var tried: seq<string>
    ghost var ranWhole: seq<string>

    constructor ()
      ensures bins == map[] && built == [] && tried == [] && ranWhole == []
    {
      bins, built, tried, ranWhole := map[], [], [], [];
    }

    ghost predicate Valid(o: Oracle)
      reads this
    {
      Bookkept(o, bins, built) && tried == built
    }

    /** Builds `pkg`'s binary on first use. On failure the mutant's run ends. */
    method BuildBin(o: Oracle, pkg: string) returns (bin: Binary, status: Status)
      requires Valid(o) && FailedBuildsEndRuns(o)
      modifies this`bins, this`built, this`tried
      ensures Distinct(tried)
      ensures status == Lived ==> Valid(o) && o.build(pkg) == Built(bin.Numbered?) && pkg in bins && bins[pkg] == bin
      ensures status != Lived ==> o.build(pkg) == BuildFailed(status)
    {
      if pkg in bins {
        KnownBinary(o, bins, built, pkg);
        return bins[pkg], Lived;
      }
      NewBinary(o, bins, built, pkg);
      var n := |bins|;
      var outcome := o.build(pkg);
      tried := tried + [pkg];
      if outcome.BuildFailed? {
        return NoTests, outcome.status;
      }
      bin := if outcome.hasTests then Numbered(n) else NoTests;
      bins := bins[pkg := bin];
      built := built + [pkg];
      status := Lived;
    }

    /** Builds one package and runs its tests. */
    method RunOne(o: Oracle, run: PkgRun, left: int) returns (status: Status, ran: int)
      requires Valid(o) && FailedBuildsEndRuns(o)
      requires Distinct(ranWhole) && (run.suite == Whole ==> run.pkg !in ranWhole)
      modifies this`bins, this`built, this`tried, this`ranWhole
      ensures status == Outcome(o, run, left) && (status == Lived ==> ran == Took(o, run, left) && Valid(o))
      ensures Distinct(tried) && Distinct(ranWhole)
      ensures ranWhole == old(ranWhole) || (run.suite == Whole && ranWhole == old(ranWhole) + [run.pkg])
    {
      var bin, outcome := BuildBin(o, run.pkg);
      if outcome != Lived {
        return outcome, 0;
      }
      if !bin.Numbered? {
        return Lived, 0;
      }
      if run.suite == Whole {
        DistinctSnoc(ranWhole, run.pkg);
        ranWhole := ranWhole + [run.pkg];
      }
      var (ended, took) := o.run(run.pkg, run.suite, left);
      status, ran := ended, took;
    }

    /** Runs each package's tests in turn under one deadline, up to the first outcome that is not Lived. */
    method RunGroups(o: Oracle, runs: seq<PkgRun>, timeout: int) returns (status: Status)
      requires Valid(o) && FailedBuildsEndRuns(o)
      requires forall i, j | 0 <= i < j < |runs| :: runs[i].pkg != runs[j].pkg
      requires Distinct(ranWhole) && forall r | r in runs && r.suite == Whole :: r.pkg !in ranWhole
      modifies this`bins, this`built, this`tried, this`ranWhole
      ensures status == FirstBad(o, runs, timeout)
      ensures Distinct(tried) && Distinct(ranWhole) && (status == Lived ==> Valid(o))
      ensures forall p | p in ranWhole :: p in old(ranWhole) || PkgRun(p, Whole) in runs
    {
      var left := timeout;
      for i := 0 to |runs|
        invariant Valid(o)
        invariant FirstBad(o, runs, timeout) == FirstBad(o, runs[i..], left)
        invariant Distinct(ranWhole)
        invariant forall p | p in ranWhole :: p in old(ranWhole) || exists j | 0 <= j < i :: runs[j] == PkgRun(p, Whole)
      {
        assert runs[i..][1..] == runs[i + 1..];
        var ended, ran := RunOne(o, runs[i], left);
        if ended != Lived {
          return ended;
        }
        left := left - ran;
      }
      status := Lived;
    }

    /** Runs each package in full in turn, each with the ceiling to itself. */
    method Recheck(o: Oracle, order: seq<string>, ceiling: int) returns (status: Status)
      requires Valid(o) && FailedBuildsEndRuns(o)
      requires Distinct(order) && Distinct(ranWhole) && forall p | p in order :: p !in ranWhole
      modifies this`bins, this`built, this`tried, this`ranWhole
      ensures status == FirstBadFull(o, order, ceiling)
      ensures Distinct(tried) && Distinct(ranWhole)
    {
      for i := 0 to |order|
        invariant Valid(o)
        invariant FirstBadFull(o, order, ceiling) == FirstBadFull(o, order[i..], ceiling)
        invariant Distinct(ranWhole) && forall p | p in order[i..] :: p !in ranWhole
      {
        assert order[i..][1..] == order[i + 1..] && order[i] in order[i..];
        var run := PkgRun(order[i], Whole);
        assert FirstBad(o, [run], ceiling) == Outcome(o, run, ceiling) by {
          assert [run][1..] == [];
        }
        status := RunGroups(o, [run], ceiling);
        if status != Lived {
          return;
        }
      }
      status := Lived;
    }

    /** The routed run, and, once it has passed, the re-check. */
    method RunSuites(o: Oracle, own: string, groups: map<string, Suite>, suites: set<string>, timeout: int, ceiling: int)
        returns (status: Status, rechecked: bool)
      requires Valid(o) && FailedBuildsEndRuns(o) && ranWhole == []
      requires forall p | p in suites && p in groups :: groups[p].Only?
      modifies this`bins, this`built, this`tried, this`ranWhole
      ensures status == Verdict(o, groups, suites, own, timeout, ceiling)
      ensures rechecked <==> suites != {} && FirstBad(o, Invocations(groups, own), timeout) == Lived
      ensures Distinct(tried) && Distinct(ranWhole)
    {
      var runs := Invoke(groups, own);
      RunsAreApart(groups, own);
      status := RunGroups(o, runs, timeout);
      rechecked := false;
      if status == Lived && suites != {} {
        var order := OrderRoutePackages(suites, own);
        OrderedHolds(suites, own);
        RoutedWholeIsNotRechecked(groups, suites, own, ranWhole);
        status := Recheck(o, order, ceiling);
        rechecked := true;
      }
    }

    /**
     Tests one mutant: its covering tests, then, if they pass, every suite its verdict rests on. A cancelled run leaves
     the mutant as it came.
     */
    method Test(o: Oracle, scope: Scope, index: Index, m: Mutant, setup: Setup, cancelled: bool, timeout: int, ceiling: int,
                elapsed: nat)
        returns (tested: Mutant, ghost routed: map<string, Suite>, ghost full: set<string>)
      requires FailedBuildsEndRuns(o) && 0 <= m.line
      requires bins == map[]
      modifies this
      ensures bins == map[] && Distinct(tried) && Distinct(ranWhole)
      ensures setup.NoSource? || setup.BadPatch? ==> tested == m.(status := NotViable, duration := elapsed)
      ensures setup.WriteFailed? ==> tested == m.(status := setup.status, duration := elapsed)
      ensures setup.Ready? ==>
        && IsRoute(index, LineKey(m.coverageFile, m.line), m.pkg, routed)
        && IsRecheck(scope, m.pkg, routed, full)
        && tested == if cancelled then m else m.(
             status := Verdict(o, routed, full, m.pkg, timeout, ceiling),
             rechecked := full != {} && FirstBad(o, Invocations(routed, m.pkg), timeout) == Lived,
             duration := elapsed)
      ensures setup.Ready? && !cancelled && tested.status == Lived ==>
        forall p | p in scope.suites && (p.importPath == m.pkg
            || (scope.crossPkg && (p.importPath in scope.testDeps ==> m.pkg in scope.testDeps[p.importPath]))) ::
          && o.build(p.importPath).Built?
          && (o.build(p.importPath) == Built(true) ==>
              o.run(p.importPath, Whole, if routed == map[p.importPath := Whole] then timeout else ceiling).0 == Lived)
    {
      routed, full := map[], {};
      built, tried, ranWhole := [], [], [];
      if setup.NoSource? || setup.BadPatch? {
        tested := m.(status := NotViable, duration := elapsed);
        return;
      }
      if setup.WriteFailed? {
        tested := m.(status := setup.status, duration := elapsed);
        return;
      }
      var groups := RouteGroups(index, m.coverageFile, m.line, m.pkg);
      var suites := RecheckGroups(scope, m.pkg, groups);
      routed, full := groups, suites;
      var status, rechecked := RunSuites(o, m.pkg, groups, suites, timeout, ceiling);
      bins := map[];
      if status == Lived { ghost var steps := LivedIsSound(o, scope, index, m, groups, suites, timeout, ceiling); }
      tested := if cancelled then m else m.(status := status, rechecked := rechecked, duration := elapsed);
    }
  }

  lemma RunsAreApart(groups: map<string, Suite>, own: string)
    ensures var runs := Invocations(groups, own); forall i, j | 0 <= i < j < |runs| :: runs[i].pkg != runs[j].pkg
  {
    OrderedHolds(groups.Keys, own);
  }

  lemma RoutedWholeIsNotRechecked(groups: map<string, Suite>, suites: set<string>, own: string, ranWhole: seq<string>)
    requires forall p | p in suites && p in groups :: groups[p].Only?
    requires forall p | p in ranWhole :: PkgRun(p, Whole) in Invocations(groups, own)
    ensures forall p | p in Ordered(suites, own) :: p !in ranWhole
  {
    OrderedHolds(suites, own);
    OrderedHolds(groups.Keys, own);
  }

  /** The first outcome that is not Lived, of the routed run and then of the re-check. */
  ghost function Verdict(o: Oracle, routed: map<string, Suite>, full: set<string>, own: string, timeout: int, ceiling: int): Status {
    var first := FirstBad(o, Invocations(routed, own), timeout);
    if first != Lived then first else FirstBadFull(o, Ordered(full, own), ceiling)
  }

  // ----- what a verdict says -----

  /** One planned run and the time it has. */
  datatype Step = Step(run: PkgRun, left: int)

  /** The routed run's steps share a deadline: each has what those before it left. */
  function Shared(o: Oracle, runs: seq<PkgRun>, left: int): seq<Step> {
    if runs == [] then []
    else [Step(runs[0], left)] + Shared(o, runs[1..], left - Took(o, runs[0], left))
  }

  function Each(pkgs: seq<string>, ceiling: int): (steps: seq<Step>)
    ensures |steps| == |pkgs| && forall i | 0 <= i < |pkgs| :: steps[i] == Step(PkgRun(pkgs[i], Whole), ceiling)
  {
    if pkgs == [] then [] else [Step(PkgRun(pkgs[0], Whole), ceiling)] + Each(pkgs[1..], ceiling)
  }

  function OutcomeOf(o: Oracle, s: Step): Status {
    Outcome(o, s.run, s.left)
  }

  /** The first step that does not pass, or the number of steps. */
  function FirstFailing(o: Oracle, steps: seq<Step>): (k: nat)
    ensures k <= |steps|
    ensures forall j | 0 <= j < k :: OutcomeOf(o, steps[j]) == Lived
    ensures k < |steps| ==> OutcomeOf(o, steps[k]) != Lived
  {
    if steps == [] || OutcomeOf(o, steps[0]) != Lived then 0 else 1 + FirstFailing(o, steps[1..])
  }

  function ResultOf(o: Oracle, steps: seq<Step>): Status {
    var k := FirstFailing(o, steps);
    if k == |steps| then Lived else OutcomeOf(o, steps[k])
  }

  lemma {:induction false} SharedResult(o: Oracle, runs: seq<PkgRun>, left: int)
    ensures ResultOf(o, Shared(o, runs, left)) == FirstBad(o, runs, left)
  {
    if runs != [] {
      var rest := Shared(o, runs[1..], left - Took(o, runs[0], left));
      assert Shared(o, runs, left)[1..] == rest;
      SharedResult(o, runs[1..], left - Took(o, runs[0], left));
    }
  }

  lemma {:induction false} EachResult(o: Oracle, pkgs: seq<string>, ceiling: int)
    ensures ResultOf(o, Each(pkgs, ceiling)) == FirstBadFull(o, pkgs, ceiling)
  {
    if pkgs != [] {
      assert Each(pkgs, ceiling)[1..] == Each(pkgs[1..], ceiling);
      EachResult(o, pkgs[1..], ceiling);
    }
  }

  lemma {:induction false} FirstFailingOfAppend(o: Oracle, a: seq<Step>, b: seq<Step>)
    ensures FirstFailing(o, a + b) == if FirstFailing(o, a) < |a| then FirstFailing(o, a) else |a| + FirstFailing(o, b)
  {
    if a == [] {
      assert a + b == b;
    } else {
      assert (a + b)[1..] == a[1..] + b;
      FirstFailingOfAppend(o, a[1..], b);
    }
  }

  lemma ResultOfAppend(o: Oracle, a: seq<Step>, b: seq<Step>)
    ensures ResultOf(o, a + b) == if ResultOf(o, a) != Lived then ResultOf(o, a) else ResultOf(o, b)
    ensures FirstFailing(o, a + b) == if FirstFailing(o, a) < |a| then FirstFailing(o, a) else |a| + FirstFailing(o, b)
  {
    FirstFailingOfAppend(o, a, b);
  }

  /** Of what a step has, those behind it have what its tests leave, if it has any. */
  lemma {:induction false} SharedTimes(o: Oracle, runs: seq<PkgRun>, left: int)
    ensures var steps := Shared(o, runs, left);
      && |steps| == |runs| && (forall i | 0 <= i < |runs| :: steps[i].run == runs[i])
      && (steps != [] ==> steps[0].left == left)
      && forall i | 0 < i < |steps| ::
        steps[i - 1].left - steps[i].left ==
          if o.build(runs[i - 1].pkg) == Built(true) then o.run(runs[i - 1].pkg, runs[i - 1].suite, steps[i - 1].left).1 else 0
  {
    if runs != [] {
      var left' := left - Took(o, runs[0], left);
      var rest, steps := Shared(o, runs[1..], left'), Shared(o, runs, left);
      SharedTimes(o, runs[1..], left');
      assert steps[1..] == rest;
      forall i | 0 < i < |steps|
        ensures steps[i - 1].left - steps[i].left ==
          if o.build(runs[i - 1].pkg) == Built(true) then o.run(runs[i - 1].pkg, runs[i - 1].suite, steps[i - 1].left).1 else 0
      {
        assert steps[i] == rest[i - 1];
        if i > 1 { assert steps[i - 1] == rest[i - 2]; }
      }
    }
  }

  /** A package passes when its binary is built and, if there is one, its tests pass. */
  lemma OutcomeMeans(o: Oracle, s: Step)
    requires FailedBuildsEndRuns(o)
    ensures OutcomeOf(o, s) == Lived <==>
      o.build(s.run.pkg).Built? && (o.build(s.run.pkg) == Built(true) ==> o.run(s.run.pkg, s.run.suite, s.left).0 == Lived)
    ensures OutcomeOf(o, s) != Lived ==>
      || o.build(s.run.pkg) == BuildFailed(OutcomeOf(o, s))
      || (o.build(s.run.pkg) == Built(true) && o.run(s.run.pkg, s.run.suite, s.left).0 == OutcomeOf(o, s))
  {
  }

  /** The packages of a run, own first, then sorted. */
  lemma OrderedMeans(pkgs: set<string>, own: string)
    ensures var order := Ordered(pkgs, own);
      && |order| == |pkgs| && (forall p :: p in order <==> p in pkgs)
      && (own in pkgs ==> order[0] == own)
      && (forall i, j | 0 <= i < j < |order| :: order[i] != order[j] && order[j] != own && (order[i] == own || StrLess(order[i], order[j])))
  {
    var order, rest := Ordered(pkgs, own), Listed(pkgs - {own});
    StrLessIsStrictTotal();
    OrderedHolds(pkgs, own);
    SetOfDistinct(order);
    assert (set x | x in order) == pkgs;
    forall j | 0 <= j < |rest| ensures rest[j] != own {
      assert rest[j] in rest;
    }
  }

  /**
   What a run of packages under one deadline comes to: the first whose build fails or whose tests, in the time those in
   front have left, do not pass.
   */
  lemma RunGroupsMeans(o: Oracle, runs: seq<PkgRun>, timeout: int) returns (left: seq<int>, k: nat)
    requires FailedBuildsEndRuns(o)
    ensures |left| == |runs| && k <= |runs| && (runs != [] ==> left[0] == timeout)
    ensures forall i | 0 < i < |runs| ::
      left[i - 1] - left[i] == if o.build(runs[i - 1].pkg) == Built(true) then o.run(runs[i - 1].pkg, runs[i - 1].suite, left[i - 1]).1 else 0
    ensures forall j | 0 <= j < k ::
      o.build(runs[j].pkg).Built? && (o.build(runs[j].pkg) == Built(true) ==> o.run(runs[j].pkg, runs[j].suite, left[j]).0 == Lived)
    ensures k == |runs| ==> FirstBad(o, runs, timeout) == Lived
    ensures k < |runs| ==> FirstBad(o, runs, timeout) != Lived
    ensures k < |runs| ==>
      || o.build(runs[k].pkg) == BuildFailed(FirstBad(o, runs, timeout))
      || (o.build(runs[k].pkg) == Built(true) && o.run(runs[k].pkg, runs[k].suite, left[k]).0 == FirstBad(o, runs, timeout))
  {
    var steps := Shared(o, runs, timeout);
    SharedResult(o, runs, timeout);
    SharedTimes(o, runs, timeout);
    k := FirstFailing(o, steps);
    left := seq(|steps|, i requires 0 <= i < |steps| => steps[i].left);
    forall j | 0 <= j <= k && j < |steps|
      ensures OutcomeOf(o, steps[j]) == Lived <==>
        o.build(runs[j].pkg).Built? && (o.build(runs[j].pkg) == Built(true) ==> o.run(runs[j].pkg, runs[j].suite, left[j]).0 == Lived)
    {
      OutcomeMeans(o, steps[j]);
    }
    if k < |steps| { OutcomeMeans(o, steps[k]); }
  }

  /** The packages of the routed run, each with what was routed to it, and then those run in full. */
  ghost function Plan(o: Oracle, routed: map<string, Suite>, full: set<string>, own: string, timeout: int, ceiling: int): seq<Step> {
    Shared(o, Invocations(routed, own), timeout) + Each(Ordered(full, own), ceiling)
  }

  lemma OrderedSizes(routed: map<string, Suite>, full: set<string>, own: string)
    ensures |Ordered(routed.Keys, own)| == |routed| && |Ordered(full, own)| == |full|
    ensures own in routed ==> |routed| > 0 && Ordered(routed.Keys, own)[0] == own
    ensures own in full ==> |full| > 0 && Ordered(full, own)[0] == own
  {
    OrderedMeans(routed.Keys, own);
    OrderedMeans(full, own);
    assert |routed| == |routed.Keys|;
    if own in routed { assert own in routed.Keys; }
  }

  lemma RoutedPart(o: Oracle, routed: map<string, Suite>, own: string, timeout: int)
    ensures var shared, first := Shared(o, Invocations(routed, own), timeout), Ordered(routed.Keys, own);
      && |shared| == |first|
      && forall i | 0 <= i < |first| :: first[i] in routed && shared[i].run == PkgRun(first[i], routed[first[i]])
  {
    var first := Ordered(routed.Keys, own);
    OrderedHolds(routed.Keys, own);
    SharedTimes(o, Invocations(routed, own), timeout);
    forall i | 0 <= i < |first| ensures first[i] in routed {
      assert first[i] in first;
    }
  }

  /** A list of the packages, each once, the own first, the others sorted. */
  ghost predicate IsOrder(order: seq<string>, pkgs: set<string>, own: string) {
    && |order| == |pkgs| && (forall p :: p in order <==> p in pkgs)
    && (own in pkgs ==> |order| > 0 && order[0] == own)
    && (forall i, j | 0 <= i < j < |order| :: order[j] != own && (order[i] == own || StrLess(order[i], order[j])))
  }

  lemma OrderedIsOrder(pkgs: set<string>, own: string)
    ensures IsOrder(Ordered(pkgs, own), pkgs, own)
  {
    OrderedMeans(pkgs, own);
    if own in pkgs { assert own in Ordered(pkgs, own); }
  }

  /** Step by step: the packages of the one list with what was routed to them, then those of the other. */
  ghost predicate Follows(routed: map<string, Suite>, ceiling: int, first: seq<string>, second: seq<string>, steps: seq<Step>) {
    && |steps| == |first| + |second|
    && (forall i {:trigger first[i]} | 0 <= i < |first| :: first[i] in routed && steps[i].run == PkgRun(first[i], routed[first[i]]))
    && (forall i {:trigger second[i]} | 0 <= i < |second| :: steps[|first| + i] == Step(PkgRun(second[i], Whole), ceiling))
  }

  lemma PlanMeans(o: Oracle, routed: map<string, Suite>, full: set<string>, own: string, timeout: int, ceiling: int)
    ensures Follows(routed, ceiling, Ordered(routed.Keys, own), Ordered(full, own), Plan(o, routed, full, own, timeout, ceiling))
  {
    OrderedSizes(routed, full, own);
    RoutedPart(o, routed, own, timeout);
    Halves(Shared(o, Invocations(routed, own), timeout), Each(Ordered(full, own), ceiling));
  }

  lemma Halves<T>(a: seq<T>, b: seq<T>)
    ensures (a + b)[..|a|] == a
    ensures forall i | 0 <= i < |a| :: (a + b)[i] == a[i]
    ensures forall i | |a| <= i < |a + b| :: (a + b)[i] == b[i - |a|]
  {
  }

  /** The first of the steps that fails gives the verdict. */
  lemma PlanDecides(o: Oracle, routed: map<string, Suite>, full: set<string>, own: string, timeout: int, ceiling: int) returns (k: nat)
    requires FailedBuildsEndRuns(o)
    ensures var steps, v := Plan(o, routed, full, own, timeout, ceiling), Verdict(o, routed, full, own, timeout, ceiling);
      && k <= |steps| && (v == Lived <==> k == |steps|)
      && (forall j | 0 <= j < k :: OutcomeOf(o, steps[j]) == Lived)
      && (k < |steps| ==> OutcomeOf(o, steps[k]) == v)
      && (FirstBad(o, Invocations(routed, own), timeout) == Lived <==> k >= |routed|)
  {
    var a, b := Shared(o, Invocations(routed, own), timeout), Each(Ordered(full, own), ceiling);
    SharedResult(o, Invocations(routed, own), timeout);
    EachResult(o, Ordered(full, own), ceiling);
    ResultOfAppend(o, a, b);
    SharedTimes(o, Invocations(routed, own), timeout);
    OrderedMeans(routed.Keys, own);
    assert |routed| == |routed.Keys| == |a|;
    k := FirstFailing(o, Plan(o, routed, full, own, timeout, ceiling));
  }

  // ----- the plan, and what it decides -----

  /** The first `n` steps are the routed packages with what was routed to them, the others those run in full. */
  ghost predicate Holds(routed: map<string, Suite>, full: set<string>, ceiling: int, steps: seq<Step>) {
    && |steps| == |routed| + |full|
    && (forall pkg | pkg in routed :: exists i | 0 <= i < |routed| :: steps[i].run == PkgRun(pkg, routed[pkg]))
    && (forall pkg | pkg in full :: exists i | |routed| <= i < |steps| :: steps[i] == Step(PkgRun(pkg, Whole), ceiling))
  }

  /** The own package first, if it is there, and the others sorted, each once. */
  ghost predicate OwnFirst(steps: seq<Step>, lo: nat, hi: nat, own: string, present: bool) {
    && hi <= |steps|
    && (present ==> lo < hi && steps[lo].run.pkg == own)
    && (forall i, j | lo <= i < j < hi ::
          steps[j].run.pkg != own && (steps[i].run.pkg == own || StrLess(steps[i].run.pkg, steps[j].run.pkg)))
  }

  /** The first `n` steps share a deadline: each has what the tests in front of it leave, where there are any. */
  ghost predicate ShareDeadline(o: Oracle, steps: seq<Step>, n: nat, timeout: int) {
    && n <= |steps|
    && (n > 0 ==> steps[0].left == timeout)
    && (forall i | 0 < i < n ::
          steps[i - 1].left - steps[i].left ==
            if o.build(steps[i - 1].run.pkg) == Built(true) then o.run(steps[i - 1].run.pkg, steps[i - 1].run.suite, steps[i - 1].left).1 else 0)
  }

  ghost predicate IsPlan(o: Oracle, routed: map<string, Suite>, full: set<string>, own: string, timeout: int, ceiling: int, steps: seq<Step>) {
    && Holds(routed, full, ceiling, steps)
    && OwnFirst(steps, 0, |routed|, own, own in routed)
    && OwnFirst(steps, |routed|, |steps|, own, own in full)
    && ShareDeadline(o, steps, |routed|, timeout)
  }

  lemma PlanHoldsBoth(o: Oracle, routed: map<string, Suite>, full: set<string>, own: string, timeout: int, ceiling: int)
    ensures Holds(routed, full, ceiling, Plan(o, routed, full, own, timeout, ceiling))
  {
    PlanMeans(o, routed, full, own, timeout, ceiling);
    OrderedIsOrder(routed.Keys, own);
    OrderedIsOrder(full, own);
    assert |routed| == |routed.Keys|;
    PlanHolds(routed, full, ceiling, Ordered(routed.Keys, own), Ordered(full, own), Plan(o, routed, full, own, timeout, ceiling));
  }

  lemma PlanRouted(o: Oracle, routed: map<string, Suite>, full: set<string>, own: string, timeout: int, ceiling: int)
    ensures OwnFirst(Plan(o, routed, full, own, timeout, ceiling), 0, |routed|, own, own in routed)
  {
    PlanMeans(o, routed, full, own, timeout, ceiling);
    OrderedIsOrder(routed.Keys, own);
    assert |routed| == |routed.Keys|;
    RoutedOrder(routed, own, Ordered(routed.Keys, own), Plan(o, routed, full, own, timeout, ceiling));
  }

  lemma PlanFull(o: Oracle, routed: map<string, Suite>, full: set<string>, own: string, timeout: int, ceiling: int)
    ensures var steps := Plan(o, routed, full, own, timeout, ceiling); OwnFirst(steps, |routed|, |steps|, own, own in full)
  {
    PlanMeans(o, routed, full, own, timeout, ceiling);
    OrderedSizes(routed, full, own);
    OrderedIsOrder(full, own);
    FullOrder(full, own, ceiling, Ordered(full, own), Plan(o, routed, full, own, timeout, ceiling), |routed|);
  }

  lemma PlanIsPlan(o: Oracle, routed: map<string, Suite>, full: set<string>, own: string, timeout: int, ceiling: int)
    ensures IsPlan(o, routed, full, own, timeout, ceiling, Plan(o, routed, full, own, timeout, ceiling))
  {
    PlanHoldsBoth(o, routed, full, own, timeout, ceiling);
    PlanRouted(o, routed, full, own, timeout, ceiling);
    PlanFull(o, routed, full, own, timeout, ceiling);
    PlanTimes(o, routed, full, own, timeout, ceiling);
  }

  lemma RoutedOrder(routed: map<string, Suite>, own: string, first: seq<string>, steps: seq<Step>)
    requires IsOrder(first, routed.Keys, own) && |first| <= |steps|
    requires forall i {:trigger first[i]} | 0 <= i < |first| :: first[i] in routed && steps[i].run == PkgRun(first[i], routed[first[i]])
    ensures OwnFirst(steps, 0, |first|, own, own in routed)
  {
    forall i | 0 <= i < |first| ensures steps[0 + i].run.pkg == first[i] {
      assert steps[i].run == PkgRun(first[i], routed[first[i]]);
    }
    OrderShows(routed.Keys, first, own, steps, 0);
  }

  lemma FullOrder(full: set<string>, own: string, ceiling: int, second: seq<string>, steps: seq<Step>, n: nat)
    requires IsOrder(second, full, own) && n + |second| == |steps|
    requires forall i {:trigger second[i]} | 0 <= i < |second| :: steps[n + i] == Step(PkgRun(second[i], Whole), ceiling)
    ensures OwnFirst(steps, n, |steps|, own, own in full)
  {
    OrderShows(full, second, own, steps, n);
  }

  /**
   The verdict is the first failure of a plan, LIVED without one. The plan is the routed packages under one shrinking
   deadline, then each package run in full with the ceiling to itself; a step fails with its build, or, if there is a
   binary, with its tests.
   */
  lemma VerdictIsFirstFailing(o: Oracle, routed: map<string, Suite>, full: set<string>, own: string, timeout: int, ceiling: int)
    returns (steps: seq<Step>, k: nat)
    requires FailedBuildsEndRuns(o)
    ensures IsPlan(o, routed, full, own, timeout, ceiling, steps) && k <= |steps|
    ensures forall j | 0 <= j < k :: o.build(steps[j].run.pkg).Built?
    ensures forall j | 0 <= j < k && o.build(steps[j].run.pkg) == Built(true) ::
      o.run(steps[j].run.pkg, steps[j].run.suite, steps[j].left).0 == Lived
    ensures Verdict(o, routed, full, own, timeout, ceiling) == Lived <==> k == |steps|
    ensures k < |steps| ==>
      || o.build(steps[k].run.pkg) == BuildFailed(Verdict(o, routed, full, own, timeout, ceiling))
      || (o.build(steps[k].run.pkg) == Built(true)
          && o.run(steps[k].run.pkg, steps[k].run.suite, steps[k].left).0 == Verdict(o, routed, full, own, timeout, ceiling))
    ensures FirstBad(o, Invocations(routed, own), timeout) == Lived <==> k >= |routed|
  {
    steps := Plan(o, routed, full, own, timeout, ceiling);
    PlanIsPlan(o, routed, full, own, timeout, ceiling);
    k := PlanDecides(o, routed, full, own, timeout, ceiling);
    StepsMean(o, steps, k);
  }

  lemma StepsMean(o: Oracle, steps: seq<Step>, k: nat)
    requires FailedBuildsEndRuns(o) && k <= |steps| && forall j | 0 <= j < k :: OutcomeOf(o, steps[j]) == Lived
    ensures forall j | 0 <= j < k :: o.build(steps[j].run.pkg).Built?
    ensures forall j | 0 <= j < k && o.build(steps[j].run.pkg) == Built(true) ::
      o.run(steps[j].run.pkg, steps[j].run.suite, steps[j].left).0 == Lived
    ensures k < |steps| && OutcomeOf(o, steps[k]) != Lived ==>
      || o.build(steps[k].run.pkg) == BuildFailed(OutcomeOf(o, steps[k]))
      || (o.build(steps[k].run.pkg) == Built(true)
          && o.run(steps[k].run.pkg, steps[k].run.suite, steps[k].left).0 == OutcomeOf(o, steps[k]))
  {
    forall j | 0 <= j < k
      ensures o.build(steps[j].run.pkg).Built?
      ensures o.build(steps[j].run.pkg) == Built(true) ==> o.run(steps[j].run.pkg, steps[j].run.suite, steps[j].left).0 == Lived
    {
      OutcomeMeans(o, steps[j]);
    }
    if k < |steps| { OutcomeMeans(o, steps[k]); }
  }

  lemma OrderShows(pkgs: set<string>, order: seq<string>, own: string, steps: seq<Step>, lo: nat)
    requires IsOrder(order, pkgs, own)
    requires lo + |order| <= |steps| && forall k | 0 <= k < |order| :: steps[lo + k].run.pkg == order[k]
    ensures OwnFirst(steps, lo, lo + |order|, own, own in pkgs)
  {
    assert own in pkgs ==> steps[lo + 0].run.pkg == order[0];
    forall i, j | lo <= i < j < lo + |order|
      ensures steps[j].run.pkg != own && (steps[i].run.pkg == own || StrLess(steps[i].run.pkg, steps[j].run.pkg))
    {
      var a, b := i - lo, j - lo;
      assert steps[lo + a].run.pkg == order[a] && steps[lo + b].run.pkg == order[b];
    }
  }

  lemma PlanHolds(routed: map<string, Suite>, full: set<string>, ceiling: int, first: seq<string>, second: seq<string>, steps: seq<Step>)
    requires Follows(routed, ceiling, first, second, steps) && |first| == |routed| && |second| == |full|
    requires (forall p :: p in first <==> p in routed) && (forall p :: p in second <==> p in full)
    ensures Holds(routed, full, ceiling, steps)
  {
    forall pkg | pkg in routed ensures exists i | 0 <= i < |routed| :: steps[i].run == PkgRun(pkg, routed[pkg]) {
      assert pkg in first;
      var i :| 0 <= i < |first| && first[i] == pkg;
      assert steps[i].run == PkgRun(pkg, routed[pkg]);
    }
    forall pkg | pkg in full ensures exists i | |routed| <= i < |steps| :: steps[i] == Step(PkgRun(pkg, Whole), ceiling) {
      assert pkg in second;
      var i :| 0 <= i < |second| && second[i] == pkg;
      assert steps[|first| + i] == Step(PkgRun(pkg, Whole), ceiling);
    }
  }

  lemma PlanTimes(o: Oracle, routed: map<string, Suite>, full: set<string>, own: string, timeout: int, ceiling: int)
    ensures ShareDeadline(o, Plan(o, routed, full, own, timeout, ceiling), |routed|, timeout)
  {
    OrderedSizes(routed, full, own);
    RoutedPart(o, routed, own, timeout);
    Halves(Shared(o, Invocations(routed, own), timeout), Each(Ordered(full, own), ceiling));
    PrefixShares(o, Plan(o, routed, full, own, timeout, ceiling), Invocations(routed, own), timeout);
  }

  lemma PrefixShares(o: Oracle, steps: seq<Step>, runs: seq<PkgRun>, timeout: int)
    requires |runs| <= |steps| && steps[..|runs|] == Shared(o, runs, timeout)
    ensures ShareDeadline(o, steps, |runs|, timeout)
  {
    SharedTimes(o, runs, timeout);
    assert forall i | 0 <= i < |runs| :: steps[i] == steps[..|runs|][i];
  }

  /**
   A mutant reads LIVED only once of every suite that can kill it the binary was built and all tests, if it has any, have
   passed with the mutant in place: within the re-check's ceiling, or, where the mutant was routed to its whole package,
   within the routed deadline. So has every group it was routed to, each in the time those in front of it left.
   */
  lemma LivedIsSound(o: Oracle, scope: Scope, index: Index, m: Mutant, routed: map<string, Suite>, full: set<string>, timeout: int,
                     ceiling: int) returns (steps: seq<Step>)
    requires FailedBuildsEndRuns(o) && 0 <= m.line && IsRoute(index, LineKey(m.coverageFile, m.line), m.pkg, routed)
    requires IsRecheck(scope, m.pkg, routed, full)
    requires Verdict(o, routed, full, m.pkg, timeout, ceiling) == Lived
    ensures forall p | p in scope.suites && (p.importPath == m.pkg
        || (scope.crossPkg && (p.importPath in scope.testDeps ==> m.pkg in scope.testDeps[p.importPath]))) ::
      && o.build(p.importPath).Built?
      && (o.build(p.importPath) == Built(true) ==>
          o.run(p.importPath, Whole, if routed == map[p.importPath := Whole] then timeout else ceiling).0 == Lived)
    ensures forall pkg | pkg in routed && routed[pkg].Only? && o.build(pkg) == Built(true) :: o.run(pkg, Whole, ceiling).0 == Lived
    ensures |routed| <= |steps| && (routed != map[] ==> steps[0].left == timeout)
    ensures forall pkg | pkg in routed :: exists i | 0 <= i < |routed| :: steps[i].run == PkgRun(pkg, routed[pkg])
    ensures forall i | 0 < i < |routed| ::
      steps[i - 1].left - steps[i].left ==
        if o.build(steps[i - 1].run.pkg) == Built(true) then o.run(steps[i - 1].run.pkg, steps[i - 1].run.suite, steps[i - 1].left).1 else 0
    ensures forall j | 0 <= j < |routed| :: o.build(steps[j].run.pkg).Built?
    ensures forall j | 0 <= j < |routed| && o.build(steps[j].run.pkg) == Built(true) ::
      o.run(steps[j].run.pkg, steps[j].run.suite, steps[j].left).0 == Lived
  {
    var k: nat;
    steps, k := VerdictIsFirstFailing(o, routed, full, m.pkg, timeout, ceiling);
    forall pkg | pkg in full ensures o.build(pkg).Built? && (o.build(pkg) == Built(true) ==> o.run(pkg, Whole, ceiling).0 == Lived) {
      var i :| |routed| <= i < |steps| && steps[i] == Step(PkgRun(pkg, Whole), ceiling);
    }
    forall p | p in scope.suites && Decides(scope, p, m.pkg)
      ensures o.build(p.importPath).Built? && (o.build(p.importPath) == Built(true) ==>
        o.run(p.importPath, Whole, if routed == map[p.importPath := Whole] then timeout else ceiling).0 == Lived)
    {
      assert DecidingPkg(scope, p.importPath, m.pkg);
      if p.importPath in routed && routed[p.importPath] == Whole { OnlyOne(routed, m.pkg, p.importPath, index, m); }
    }
    forall pkg | pkg in routed && routed[pkg].Only? ensures pkg in full {
    }
  }

  /** A package routed whole is the own package alone. */
  lemma OnlyOne(routed: map<string, Suite>, own: string, pkg: string, index: Index, m: Mutant)
    requires 0 <= m.line && IsRoute(index, LineKey(m.coverageFile, m.line), own, routed) && pkg in routed && routed[pkg] == Whole
    ensures routed == map[pkg := Whole] && |routed| == 1
  {
    assert routed == map[own := Whole];
    assert routed.Keys == {pkg};
    assert |routed| == |routed.Keys|;
  }
}
