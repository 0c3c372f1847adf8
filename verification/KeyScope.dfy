/**
 That every file a verdict depends on is in the cache's key: the test index (internal/cache/testindex.go) and the
 resolver from a mutant to its test files (`testFilesResolver` in main.go).
 */
module KeyScope {
  import opened Text
  import opened Ordering
  import opened Mutants
  import opened Coverage
  import opened Vetting
  import opened Runner
  import Hashing

  // ----- the index -----

  /** The regular files of each directory, and the test functions each test file declares: none where it does not parse. */
  datatype Tree = Tree(list: string -> seq<string>, declares: string -> seq<string>)

  datatype TestIndex = TestIndex(
    byName: map<string, seq<string>>,
    byDir: map<string, seq<string>>,
    srcDir: map<string, seq<string>>)

  function TestPaths(dir: string, names: seq<string>): seq<string> {
    if names == [] then []
    else
      var front, last := TestPaths(dir, names[..|names| - 1]), names[|names| - 1];
      if HasSuffix(last, "_test.go") then front + [Join(dir, last)] else front
  }

  function SourcePaths(dir: string, names: seq<string>): seq<string> {
    if names == [] then []
    else
      var front, last := SourcePaths(dir, names[..|names| - 1]), names[|names| - 1];
      if !HasSuffix(last, "_test.go") && HasSuffix(last, ".go") then front + [Join(dir, last)] else front
  }

  predicate Maps(byName: map<string, seq<string>>, name: string, f: string) {
    name in byName && f in byName[name]
  }

  /** The files indexed as declaring `name`. */
  function FilesFor(ti: TestIndex, name: string): seq<string> {
    if name in ti.byName then ti.byName[name] else []
  }

  function AllInDir(ti: TestIndex, dir: string): seq<string> {
    if dir in ti.byDir then ti.byDir[dir] else []
  }

  function SourcesIn(ti: TestIndex, dir: string): seq<string> {
    if dir in ti.srcDir then ti.srcDir[dir] else []
  }

  /** Every directory is indexed with all its files. */
  ghost predicate Indexes(ti: TestIndex, dirs: seq<string>, tree: Tree) {
    forall dir | dir in dirs :: dir in ti.byDir && dir in ti.srcDir
      && ti.byDir[dir] == TestPaths(dir, tree.list(dir)) && ti.srcDir[dir] == SourcePaths(dir, tree.list(dir))
  }

  /** Only Go files are indexed. */
  ghost predicate OnlyGo(files: seq<string>) {
    forall f | f in files :: HasSuffix(f, ".go")
  }

  lemma {:induction false} PathsAreGo(dir: string, names: seq<string>)
    ensures OnlyGo(TestPaths(dir, names)) && OnlyGo(SourcePaths(dir, names))
  {
    if names != [] {
      PathsAreGo(dir, names[..|names| - 1]);
      var name := names[|names| - 1];
      var path := Join(dir, name);
      assert |name| >= 3 ==> path[|path| - 3..] == name[|name| - 3..];
      assert HasSuffix(name, "_test.go") ==> name[|name| - 3..] == "_test.go"[5..] == ".go";
    }
  }

  method IndexDir(dir: string, tree: Tree, byName: map<string, seq<string>>)
      returns (tests: seq<string>, sources: seq<string>, byName': map<string, seq<string>>)
    ensures tests == TestPaths(dir, tree.list(dir)) && sources == SourcePaths(dir, tree.list(dir))
    ensures forall n, f :: Maps(byName', n, f) <==>
      Maps(byName, n, f) || (f in tests && n in tree.declares(f))
  {
    var names := tree.list(dir);
    tests, sources, byName' := [], [], byName;
    for i := 0 to |names|
      invariant tests == TestPaths(dir, names[..i]) && sources == SourcePaths(dir, names[..i])
      invariant forall n, f :: Maps(byName', n, f) <==>
        Maps(byName, n, f) || (f in tests && n in tree.declares(f))
    {
      var path := Join(dir, names[i]);
      assert names[..i + 1][..i] == names[..i];
      if !HasSuffix(names[i], "_test.go") {
        if HasSuffix(names[i], ".go") {
          sources := sources + [path];
        }
        continue;
      }
      byName' := Declare(byName', tree.declares(path), path);
      tests := tests + [path];
    }
    assert names[..|names|] == names;
  }

  method Declare(byName: map<string, seq<string>>, declared: seq<string>, path: string) returns (byName': map<string, seq<string>>)
    ensures forall n, f :: Maps(byName', n, f) <==> Maps(byName, n, f) || (f == path && n in declared)
  {
    byName' := byName;
    for i := 0 to |declared|
      invariant forall n, f :: Maps(byName', n, f) <==>
        Maps(byName, n, f) || (f == path && n in declared[..i])
    {
      var n := declared[i];
      assert declared[..i + 1] == declared[..i] + [n];
      byName' := byName'[n := (if n in byName' then byName'[n] else []) + [path]];
    }
    assert declared[..|declared|] == declared;
  }

  /** A test file of an indexed directory that declares `name`. */
  ghost predicate Declares(dirs: seq<string>, tree: Tree, name: string, f: string) {
    exists dir | dir in dirs :: f in TestPaths(dir, tree.list(dir)) && name in tree.declares(f)
  }

  method BuildTestIndex(dirs: seq<string>, tree: Tree) returns (ti: TestIndex)
    ensures Indexes(ti, dirs, tree)
    ensures forall dir :: dir in ti.byDir <==> dir in dirs
    ensures forall dir :: dir in ti.srcDir <==> dir in dirs
    ensures forall n, f :: f in FilesFor(ti, n) <==> Declares(dirs, tree, n, f)
  {
    ti := TestIndex(map[], map[], map[]);
    for i := 0 to |dirs|
      invariant forall dir :: dir in ti.byDir <==> dir in dirs[..i]
      invariant forall dir :: dir in ti.srcDir <==> dir in dirs[..i]
      invariant Indexes(ti, dirs[..i], tree)
      invariant forall n, f :: f in FilesFor(ti, n) <==> Declares(dirs[..i], tree, n, f)
    {
      var dir := dirs[i];
      assert dirs[..i + 1] == dirs[..i] + [dir];
      forall n, f ensures Declares(dirs[..i + 1], tree, n, f) <==>
        Declares(dirs[..i], tree, n, f) || (f in TestPaths(dir, tree.list(dir)) && n in tree.declares(f))
      {
        DeclaresStep(dirs[..i], dir, tree, n, f);
      }
      if dir in ti.byDir {
        continue;
      }
      var tests, sources, byName := IndexDir(dir, tree, ti.byName);
      ti := TestIndex(byName, ti.byDir[dir := tests], ti.srcDir[dir := sources]);
    }
    assert dirs[..|dirs|] == dirs;
  }

  lemma DeclaresStep(dirs: seq<string>, dir: string, tree: Tree, n: string, f: string)
    ensures Declares(dirs + [dir], tree, n, f) <==>
      Declares(dirs, tree, n, f) || (f in TestPaths(dir, tree.list(dir)) && n in tree.declares(f))
  {
    assert forall d :: d in dirs + [dir] <==> d in dirs || d == dir;
  }

  // ----- from a mutant to its test files -----

  /** A file of an indexed package: a test or a source. */
  predicate InPackage(ti: TestIndex, dir: string, f: string) {
    f in AllInDir(ti, dir) || f in SourcesIn(ti, dir)
  }

  /** What a file declaring a covering test brings in: itself, and, across packages, the package it is in. */
  predicate BroughtIn(ti: TestIndex, pkgDir: string, crossPkg: bool, g: string, f: string) {
    f == g || (crossPkg && Dir(g) != pkgDir && InPackage(ti, Dir(g), f))
  }

  ghost predicate BroughtInBy(ti: TestIndex, pkgDir: string, crossPkg: bool, declaring: seq<string>, f: string) {
    exists g | g in declaring :: BroughtIn(ti, pkgDir, crossPkg, g, f)
  }

  lemma BroughtInStep(ti: TestIndex, pkgDir: string, crossPkg: bool, declaring: seq<string>, i: nat, f: string)
    requires i < |declaring|
    ensures BroughtInBy(ti, pkgDir, crossPkg, declaring[..i + 1], f) <==>
      BroughtInBy(ti, pkgDir, crossPkg, declaring[..i], f) || BroughtIn(ti, pkgDir, crossPkg, declaring[i], f)
  {
    var front, all := declaring[..i], declaring[..i + 1];
    assert all == front + [declaring[i]];
    if BroughtInBy(ti, pkgDir, crossPkg, front, f) {
      var g :| g in front && BroughtIn(ti, pkgDir, crossPkg, g, f);
      assert g in all;
    }
    assert declaring[i] in all;
  }

  ghost predicate Covers(ti: TestIndex, pkgDir: string, names: seq<string>, crossPkg: bool, f: string) {
    f in AllInDir(ti, pkgDir) || exists n | n in names :: BroughtInBy(ti, pkgDir, crossPkg, FilesFor(ti, n), f)
  }

  /** Appends what is not there yet. */
  method Add(files: seq<string>, more: seq<string>) returns (files': seq<string>)
    requires Distinct(files)
    ensures Distinct(files') && forall f :: f in files' <==> f in files || f in more
  {
    files' := files;
    for i := 0 to |more|
      invariant Distinct(files') && forall f :: f in files' <==> f in files || f in more[..i]
    {
      assert more[..i + 1] == more[..i] + [more[i]];
      if more[i] !in files' {
        DistinctSnoc(files', more[i]);
        files' := files' + [more[i]];
      }
    }
    assert more[..|more|] == more;
  }

  /** The files of one covering test's name. */
  method AddDeclaring(ti: TestIndex, pkgDir: string, declaring: seq<string>, crossPkg: bool, files: seq<string>)
      returns (files': seq<string>)
    requires Distinct(files)
    ensures Distinct(files')
    ensures forall f :: f in files' <==> f in files || BroughtInBy(ti, pkgDir, crossPkg, declaring, f)
  {
    files' := files;
    for i := 0 to |declaring|
      invariant Distinct(files')
      invariant forall f :: f in files' <==> f in files || BroughtInBy(ti, pkgDir, crossPkg, declaring[..i], f)
    {
      var g := declaring[i];
      forall f ensures BroughtInBy(ti, pkgDir, crossPkg, declaring[..i + 1], f) <==>
        BroughtInBy(ti, pkgDir, crossPkg, declaring[..i], f) || BroughtIn(ti, pkgDir, crossPkg, g, f)
      {
        BroughtInStep(ti, pkgDir, crossPkg, declaring, i, f);
      }
      files' := Add(files', [g]);
      if crossPkg && Dir(g) != pkgDir {
        files' := Add(files', AllInDir(ti, Dir(g)));
        files' := Add(files', SourcesIn(ti, Dir(g)));
      }
    }
    assert declaring[..|declaring|] == declaring;
  }

  /** The own directory's tests; the files declaring a covering test; across packages all of such a file's package. */
  lemma CoversMeans(ti: TestIndex, pkgDir: string, names: seq<string>, crossPkg: bool, f: string)
    ensures Covers(ti, pkgDir, names, crossPkg, f) <==>
      || (pkgDir in ti.byDir && f in ti.byDir[pkgDir])
      || (exists n | n in names && n in ti.byName :: exists g | g in ti.byName[n] ::
            f == g || (crossPkg && Dir(g) != pkgDir
              && ((Dir(g) in ti.byDir && f in ti.byDir[Dir(g)]) || (Dir(g) in ti.srcDir && f in ti.srcDir[Dir(g)]))))
  {
    if n, g :| n in names && n in ti.byName && g in ti.byName[n]
               && (f == g || (crossPkg && Dir(g) != pkgDir
                   && ((Dir(g) in ti.byDir && f in ti.byDir[Dir(g)]) || (Dir(g) in ti.srcDir && f in ti.srcDir[Dir(g)])))) {
      assert g in FilesFor(ti, n) && BroughtIn(ti, pkgDir, crossPkg, g, f);
      assert BroughtInBy(ti, pkgDir, crossPkg, FilesFor(ti, n), f);
    }
    if n :| n in names && BroughtInBy(ti, pkgDir, crossPkg, FilesFor(ti, n), f) {
      var g :| g in FilesFor(ti, n) && BroughtIn(ti, pkgDir, crossPkg, g, f);
      assert n in ti.byName && g in ti.byName[n];
    }
  }

  lemma {:induction false} PathsMean(dir: string, names: seq<string>)
    ensures forall f :: f in TestPaths(dir, names) <==> exists name | name in names :: HasSuffix(name, "_test.go") && f == Join(dir, name)
    ensures forall f :: f in SourcePaths(dir, names) <==> Hashing.ListsSource(dir, names, f)
  {
    if names != [] {
      var front, last := names[..|names| - 1], names[|names| - 1];
      PathsMean(dir, front);
      assert names == front + [last];
      forall f ensures f in TestPaths(dir, names) <==> exists name | name in names :: HasSuffix(name, "_test.go") && f == Join(dir, name) {
        if f in TestPaths(dir, front) {
          var name :| name in front && HasSuffix(name, "_test.go") && f == Join(dir, name);
          assert name in names;
        }
        assert last in names;
      }
      forall f ensures f in SourcePaths(dir, names) <==> Hashing.ListsSource(dir, names, f) {
        if f in SourcePaths(dir, front) {
          var name :| name in front && HasSuffix(name, ".go") && !HasSuffix(name, "_test.go") && f == Join(dir, name);
          assert name in names;
        }
        assert last in names;
      }
    }
  }

  method CoveringFiles(ti: TestIndex, pkgDir: string, names: seq<string>, crossPkg: bool) returns (files: seq<string>)
    ensures Distinct(files)
    ensures forall f :: f in files <==> Covers(ti, pkgDir, names, crossPkg, f)
  {
    files := Add([], AllInDir(ti, pkgDir));
    for i := 0 to |names|
      invariant Distinct(files)
      invariant forall f :: f in files <==> Covers(ti, pkgDir, names[..i], crossPkg, f)
    {
      assert forall n :: n in names[..i + 1] <==> n in names[..i] || n == names[i];
      files := AddDeclaring(ti, pkgDir, FilesFor(ti, names[i]), crossPkg, files);
    }
    assert names[..|names|] == names;
  }

  function PackageFiles(ti: TestIndex, dir: string): (files: seq<string>)
    ensures forall f :: f in files <==> InPackage(ti, dir, f)
  {
    AllInDir(ti, dir) + SourcesIn(ti, dir)
  }

  /** The names of the tests covering a line, without their packages. */
  method TestsFor(index: Index, file: string, line: nat) returns (names: seq<string>)
    ensures forall n :: n in names <==> exists t :: Has(index, LineKey(file, line), t) && t.name == n
  {
    var key := LineKey(file, line);
    names := [];
    if key in index {
      var found := set t | t in index[key] :: t.name;
      names := SortedMembers(found);
      forall n ensures n in names <==> exists t :: Has(index, key, t) && t.name == n {
        if n in names {
          var t :| t in index[key] && t.name == n;
          assert Has(index, key, t);
        }
      }
    }
  }

  /** A suite besides the mutant's own directory that decides its verdict. */
  ghost predicate Foreign(scope: Scope, m: Mutant, p: Package) {
    p in scope.suites && Decides(scope, p, m.pkg) && p.dir != Dir(m.file)
  }

  /** What the resolver lists for a mutant: no file more. */
  ghost predicate Keyed(ti: TestIndex, index: Index, scope: Scope, m: Mutant, f: string)
    requires 0 <= m.line
  {
    || f in AllInDir(ti, Dir(m.file))
    || (exists t | Has(index, LineKey(m.coverageFile, m.line), t) ::
          BroughtInBy(ti, Dir(m.file), scope.crossPkg, FilesFor(ti, t.name), f))
    || (exists p | Foreign(scope, m, p) :: InPackage(ti, p.dir, f))
  }

  method TestFilesOf(ti: TestIndex, index: Index, scope: Scope, m: Mutant) returns (files: seq<string>)
    requires 0 <= m.line
    ensures forall f :: f in files <==> Keyed(ti, index, scope, m, f)
  {
    var names := TestsFor(index, m.coverageFile, m.line);
    files := CoveringFiles(ti, Dir(m.file), names, scope.crossPkg);
    ghost var covering := files;
    var suites := SuitePkgs(scope, m.pkg);
    for i := 0 to |suites|
      invariant forall f :: f in files <==>
        f in covering || exists p | p in suites[..i] && p.dir != Dir(m.file) :: InPackage(ti, p.dir, f)
    {
      assert forall p :: p in suites[..i + 1] <==> p in suites[..i] || p == suites[i];
      if suites[i].dir != Dir(m.file) {
        files := files + PackageFiles(ti, suites[i].dir);
      }
    }
    assert suites[..|suites|] == suites;
    forall f ensures f in files <==> Keyed(ti, index, scope, m, f) {
      assert f in covering <==> Covers(ti, Dir(m.file), names, scope.crossPkg, f);
    }
  }

  // ----- every input of the verdict is in the key -----

  /** A test records coverage only of packages its binary links, and, without -coverpkg, only of its own. */
  ghost predicate CoversLinked(scope: Scope, r: TestCoverage) {
    && (exists p | p in scope.suites :: p.importPath == r.test.pkg)
    && forall b | b in r.blocks && b.count != 0 ::
      Dir(b.file) == r.test.pkg || (scope.crossPkg && Links(scope, r.test.pkg, Dir(b.file)))
  }

  lemma RoutedDecides(scope: Scope, results: seq<TestCoverage>, index: Index, m: Mutant, t: TestKey)
    requires 0 <= m.line && Dir(m.coverageFile) == m.pkg
    requires forall r | r in results :: CoversLinked(scope, r)
    requires forall key, t | Has(index, key, t) :: Covered(results, key, t)
    requires Has(index, LineKey(m.coverageFile, m.line), t)
    ensures DecidingPkg(scope, t.pkg, m.pkg)
  {
    var key := LineKey(m.coverageFile, m.line);
    var i :| 0 <= i < |results| && results[i].test == t && Spans(results[i].blocks, key);
    var r := results[i];
    assert r in results;
    var j, line: nat :| 0 <= j < |r.blocks| && SpansAt(r.blocks[j], line, key);
    LineKeyInjective(m.coverageFile, m.line, r.blocks[j].file, line);
    assert r.blocks[j] in r.blocks;
    var p :| p in scope.suites && p.importPath == t.pkg;
  }

  /** A package whose tests `Worker.Test` can run for a mutant. */
  ghost predicate CanRun(routed: map<string, Suite>, full: set<string>, pkg: string) {
    pkg in routed || pkg in full
  }

  /** Every package run for a mutant is its own or one of its suites. */
  lemma RunsOnlySuites(scope: Scope, results: seq<TestCoverage>, index: Index, m: Mutant, routed: map<string, Suite>,
                       full: set<string>, pkg: string)
    requires 0 <= m.line && Dir(m.coverageFile) == m.pkg
    requires forall r | r in results :: CoversLinked(scope, r)
    requires forall key, t | Has(index, key, t) :: Covered(results, key, t)
    requires IsRoute(index, LineKey(m.coverageFile, m.line), m.pkg, routed) && IsRecheck(scope, m.pkg, routed, full)
    requires CanRun(routed, full, pkg)
    ensures pkg == m.pkg || DecidingPkg(scope, pkg, m.pkg)
  {
    var key := LineKey(m.coverageFile, m.line);
    if pkg in routed && pkg != m.pkg {
      var t :| t in index[key] && t.pkg == pkg;
      assert Has(index, key, t);
      RoutedDecides(scope, results, index, m, t);
    }
  }

  lemma {:induction false} PathsAreIndexed(dir: string, names: seq<string>, name: string)
    requires name in names && HasSuffix(name, ".go")
    ensures Join(dir, name) in if HasSuffix(name, "_test.go") then TestPaths(dir, names) else SourcePaths(dir, names)
  {
    var n := |names| - 1;
    if name != names[n] {
      assert name in names[..n];
      PathsAreIndexed(dir, names[..n], name);
    }
  }

  /** A file of `dir`, if it is there, is in the tests digest, or it is a source the package digest holds. */
  predicate KeyedIn(tree: Tree, m: Mutant, files: seq<string>, dir: string, name: string) {
    name in tree.list(dir) ==> Join(dir, name) in files || (dir == Dir(m.file) && !HasSuffix(name, "_test.go"))
  }

  /**
   The key holds every input: of every package that can be run for a mutant every .go file is in the tests digest,
   but for the sources of the mutant's own directory, which the package digest holds.
   */
  lemma EveryInputIsKeyed(ti: TestIndex, dirs: seq<string>, tree: Tree, scope: Scope, results: seq<TestCoverage>, index: Index,
                          m: Mutant, routed: map<string, Suite>, full: set<string>, files: seq<string>, pkg: string, name: string)
    requires 0 <= m.line && Dir(m.coverageFile) == m.pkg
    requires Indexes(ti, dirs, tree) && Dir(m.file) in dirs && forall p | p in scope.suites :: p.dir in dirs
    requires forall r | r in results :: CoversLinked(scope, r)
    requires forall key, t | Has(index, key, t) :: Covered(results, key, t)
    requires IsRoute(index, LineKey(m.coverageFile, m.line), m.pkg, routed) && IsRecheck(scope, m.pkg, routed, full)
    requires forall f :: f in files <==> Keyed(ti, index, scope, m, f)
    requires CanRun(routed, full, pkg) && HasSuffix(name, ".go")
    ensures pkg == m.pkg ==> KeyedIn(tree, m, files, Dir(m.file), name)
    ensures pkg != m.pkg ==> exists p | p in scope.suites && p.importPath == pkg :: KeyedIn(tree, m, files, p.dir, name)
  {
    RunsOnlySuites(scope, results, index, m, routed, full, pkg);
    if name in tree.list(Dir(m.file)) {
      PathsAreIndexed(Dir(m.file), tree.list(Dir(m.file)), name);
    }
    if pkg != m.pkg {
      var p :| p in scope.suites && p.importPath == pkg && Decides(scope, p, m.pkg);
      if name in tree.list(p.dir) {
        PathsAreIndexed(p.dir, tree.list(p.dir), name);
        assert InPackage(ti, p.dir, Join(p.dir, name));
        assert p.dir != Dir(m.file) ==> Foreign(scope, m, p);
      }
    }
  }

  // ----- what is not -----

  /** What `BuildTestIndex` builds of `dirs`. */
  ghost predicate IsIndexOf(ti: TestIndex, dirs: seq<string>, tree: Tree) {
    && Indexes(ti, dirs, tree)
    && (forall dir :: dir in ti.byDir <==> dir in dirs)
    && (forall dir :: dir in ti.srcDir <==> dir in dirs)
    && forall n, f :: f in FilesFor(ti, n) <==> Declares(dirs, tree, n, f)
  }

  lemma KeyedIsGo(ti: TestIndex, dirs: seq<string>, tree: Tree, index: Index, scope: Scope, m: Mutant, f: string)
    requires 0 <= m.line && IsIndexOf(ti, dirs, tree) && Keyed(ti, index, scope, m, f)
    ensures HasSuffix(f, ".go")
  {
    forall dir ensures InPackage(ti, dir, f) ==> HasSuffix(f, ".go") {
      PathsAreGo(dir, tree.list(dir));
    }
    forall n | f in FilesFor(ti, n) ensures HasSuffix(f, ".go") {
      var dir :| dir in dirs && f in TestPaths(dir, tree.list(dir)) && n in tree.declares(f);
      PathsAreGo(dir, tree.list(dir));
    }
    if f in AllInDir(ti, Dir(m.file)) {
      assert InPackage(ti, Dir(m.file), f);
    } else if t :| Has(index, LineKey(m.coverageFile, m.line), t)
                   && BroughtInBy(ti, Dir(m.file), scope.crossPkg, FilesFor(ti, t.name), f) {
      var g :| g in FilesFor(ti, t.name) && BroughtIn(ti, Dir(m.file), scope.crossPkg, g, f);
    }
  }

  /** Two disks that may differ in the file at `path` alone. */
  ghost predicate DifferAt(h: Hashing.Host, h': Hashing.Host, path: string) {
    h.list == h'.list && h.sha == h'.sha && forall p | p != path :: h.read(p) == h'.read(p)
  }

  /** A file no key of the mutant's holds: no Go file, nor the mutant's, nor embedded by the mutant's package. */
  ghost predicate Unkeyed(memo: Hashing.Memo, m: Mutant, path: string) {
    && !HasSuffix(path, ".go") && path != m.file
    && !Hashing.Embeds(memo, Dir(m.file), path)
  }

  lemma PkgDigestMisses(h: Hashing.Host, h': Hashing.Host, memo: Hashing.Memo, m: Mutant, path: string)
    requires DifferAt(h, h', path) && Unkeyed(memo, m, path)
    ensures Hashing.PkgDigest(h, memo, Dir(m.file)) == Hashing.PkgDigest(h', memo, Dir(m.file))
  {
    var dir := Dir(m.file);
    if h.list(dir).Ok? { Hashing.PkgSourcesBelow(dir, h.list(dir).value); }
    Hashing.EmbedsAreHashed(memo, dir);
    Hashing.SamePkg(h, memo, h', memo, dir);
  }

  lemma TestsDigestMisses(h: Hashing.Host, h': Hashing.Host, memo: Hashing.Memo, files: seq<string>, path: string)
    requires DifferAt(h, h', path) && path !in files
    ensures Hashing.TestsDigest(h, memo, files) == Hashing.TestsDigest(h', memo, files)
  {
    SortedSetElements(files);
    Hashing.SameReads(h, memo, h', memo, Hashing.TestSources(files));
  }

  /**
   What the key leaves out: edit a file that is no Go file, such as one a foreign suite or its package embeds, and unless
   the mutant's own package embeds it no digest of the mutant's notices.
   */
  lemma OthersEmbedsAreUnkeyed(ti: TestIndex, dirs: seq<string>, tree: Tree, index: Index, scope: Scope, m: Mutant,
                               files: seq<string>, h: Hashing.Host, h': Hashing.Host, memo: Hashing.Memo, path: string)
    requires 0 <= m.line && IsIndexOf(ti, dirs, tree) && forall f :: f in files <==> Keyed(ti, index, scope, m, f)
    requires DifferAt(h, h', path) && Unkeyed(memo, m, path)
    ensures Hashing.FileDigest(h, memo, m.file) == Hashing.FileDigest(h', memo, m.file)
    ensures Hashing.PkgDigest(h, memo, Dir(m.file)) == Hashing.PkgDigest(h', memo, Dir(m.file))
    ensures Hashing.TestsDigest(h, memo, files) == Hashing.TestsDigest(h', memo, files)
  {
    PkgDigestMisses(h, h', memo, m, path);
    if path in files { KeyedIsGo(ti, dirs, tree, index, scope, m, path); }
    TestsDigestMisses(h, h', memo, files, path);
  }
}
