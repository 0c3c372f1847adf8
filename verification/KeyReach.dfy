/**
 How far the cache's key reaches: which edits change it, and that it fixes all that testing a mutant reads of Go files.
 Brings together what is listed for the key (`KeyScope`), how it is hashed (`Hashing`), and the facts a verdict is taken
 to depend on (`CacheHistory`).
 */
module KeyReach {
  import opened Text
  import opened Ordering
  import opened Mutants
  import opened Coverage
  import opened Vetting
  import opened Runner
  import opened Hashing
  import opened KeyScope
  import Cache
  import CacheHistory

  // ----- which edits change the key -----

  /** What is listed for the tests digest: what the resolver finds by an index of the tree. */
  ghost predicate Lists(files: seq<string>, ti: TestIndex, dirs: seq<string>, tree: Tree, index: Index, scope: Scope, m: Mutant) {
    0 <= m.line && IsIndexOf(ti, dirs, tree) && forall f :: f in files <==> Keyed(ti, index, scope, m, f)
  }

  /** The three digests of a mutant's key are the same on both disks. */
  predicate SameKey(h: Host, h': Host, memo: Memo, m: Mutant, files: seq<string>) {
    && FileDigest(h, memo, m.file) == FileDigest(h', memo, m.file)
    && PkgDigest(h, memo, Dir(m.file)) == PkgDigest(h', memo, Dir(m.file))
    && TestsDigest(h, memo, files) == TestsDigest(h', memo, files)
  }

  predicate KeyReads(h: Host, memo: Memo, m: Mutant, files: seq<string>) {
    FileDigest(h, memo, m.file).Ok? && PkgDigest(h, memo, Dir(m.file)).Ok? && TestsDigest(h, memo, files).Ok?
  }

  /** A file of the mutant's package: a source, or one it embeds. */
  ghost predicate OwnInput(h: Host, memo: Memo, m: Mutant, path: string) {
    (h.list(Dir(m.file)).Ok? && ListsSource(Dir(m.file), h.list(Dir(m.file)).value, path)) || Embeds(memo, Dir(m.file), path)
  }

  /** An edit of a file changes the key exactly when the file is the mutant's, of its package, or listed for its tests. */
  lemma EditShowsExactly(ti: TestIndex, dirs: seq<string>, tree: Tree, index: Index, scope: Scope, m: Mutant,
                         files: seq<string>, h: Host, h': Host, memo: Memo, path: string)
    requires Lists(files, ti, dirs, tree, index, scope, m)
    requires Edited(h, h', memo, path) && Dir(m.file) !in memo.dirs && KeyReads(h, memo, m, files)
    ensures !SameKey(h, h', memo, m, files) <==>
      path == m.file || OwnInput(h, memo, m, path) || Keyed(ti, index, scope, m, path)
  {
    FileDigestShows(h, h', memo, path, m.file);
    PkgDigestShows(h, h', memo, path, Dir(m.file));
    TestsDigestShows(h, h', memo, path, files);
  }

  /** So a file that another suite's package embeds, and the mutant's does not, can change without the key changing. */
  lemma ForeignEmbedIsUnkeyed(ti: TestIndex, dirs: seq<string>, tree: Tree, index: Index, scope: Scope, m: Mutant,
                              files: seq<string>, h: Host, h': Host, memo: Memo, p: Package, rel: string)
    requires Lists(files, ti, dirs, tree, index, scope, m)
    requires Foreign(scope, m, p) && p.dir in memo.embeds && rel in memo.embeds[p.dir] && !HasSuffix(rel, ".go")
    requires DifferAt(h, h', Join(p.dir, rel)) && Join(p.dir, rel) != m.file && !Embeds(memo, Dir(m.file), Join(p.dir, rel))
    ensures SameKey(h, h', memo, m, files)
  {
    if HasSuffix(Join(p.dir, rel), ".go") {
      assert '/' !in ".go";
      JoinSuffix(p.dir, rel, ".go");
    }
    OthersEmbedsAreUnkeyed(ti, dirs, tree, index, scope, m, files, h, h', memo, Join(p.dir, rel));
  }

  /** A suite m/e that embeds a golden file and is run for a mutant of d/a.go: no edit of that file changes the mutant's key. */
  lemma GoldenFileIsUnkeyed(ti: TestIndex, dirs: seq<string>, tree: Tree, index: Index, m: Mutant, files: seq<string>, h: Host, h': Host)
    requires m.file == Join("d", "a.go") && m.pkg == "m/d"
    requires Lists(files, ti, dirs, tree, index, Scope([Package("m/e", "e")], true, map[]), m)
    requires DifferAt(h, h', Join("e", "golden.txt"))
    ensures SameKey(h, h', Memo(map[], map[], map[], map["e" := ["golden.txt"]]), m, files)
  {
    var memo, p := Memo(map[], map[], map[], map["e" := ["golden.txt"]]), Package("m/e", "e");
    DirBaseOfJoin("d", "a.go");
    assert Join("e", "golden.txt")[0] == 'e' && m.file[0] == 'd';
    assert "golden.txt"[9] == 't' && ".go"[2] == 'o';
    ForeignEmbedIsUnkeyed(ti, dirs, tree, index, Scope([p], true, map[]), m, files, h, h', memo, p, "golden.txt");
  }

  // ----- the facts fix what testing reads -----

  /** A Go file of the mutant's package, or of a package whose tests can run for it. */
  ghost predicate GoInput(tree: Tree, scope: Scope, m: Mutant, routed: map<string, Suite>, full: set<string>, f: string) {
    exists dir, name | name in tree.list(dir) && HasSuffix(name, ".go") && f == Join(dir, name) ::
      dir == Dir(m.file) || exists p | p in scope.suites :: p.dir == dir && CanRun(routed, full, p.importPath)
  }

  /** Such a file, or one the mutant's package embeds. */
  ghost predicate Reads(tree: Tree, scope: Scope, memo: Memo, m: Mutant, routed: map<string, Suite>, full: set<string>, f: string) {
    GoInput(tree, scope, m, routed, full, f) || Embeds(memo, Dir(m.file), f)
  }

  /** The setting: coverage as it is recorded, the mutant's tests routed by it, and what is listed for its key. */
  ghost predicate Setting(ti: TestIndex, dirs: seq<string>, tree: Tree, scope: Scope, results: seq<TestCoverage>, index: Index, m: Mutant,
                          routed: map<string, Suite>, full: set<string>, files: seq<string>) {
    && Lists(files, ti, dirs, tree, index, scope, m)
    && Dir(m.coverageFile) == m.pkg && Dir(m.file) in dirs && (forall p | p in scope.suites :: p.dir in dirs)
    && (forall r | r in results :: CoversLinked(scope, r))
    && (forall key, t | Has(index, key, t) :: Covered(results, key, t))
    && IsRoute(index, LineKey(m.coverageFile, m.line), m.pkg, routed) && IsRecheck(scope, m.pkg, routed, full)
  }

  lemma GoInputIsKeyed(ti: TestIndex, dirs: seq<string>, tree: Tree, scope: Scope, results: seq<TestCoverage>, index: Index, m: Mutant,
                       routed: map<string, Suite>, full: set<string>, files: seq<string>, f: string)
    requires Setting(ti, dirs, tree, scope, results, index, m, routed, full, files) && GoInput(tree, scope, m, routed, full, f)
    ensures f in files || exists name | name in tree.list(Dir(m.file)) && IsGoSource(name) :: f == Join(Dir(m.file), name)
  {
    var dir, name :| name in tree.list(dir) && HasSuffix(name, ".go") && f == Join(dir, name)
      && (dir == Dir(m.file) || exists p | p in scope.suites :: p.dir == dir && CanRun(routed, full, p.importPath));
    PathsAreIndexed(dir, tree.list(dir), name);
    if dir == Dir(m.file) {
      assert HasSuffix(name, "_test.go") ==> f in AllInDir(ti, dir);
    } else {
      var p :| p in scope.suites && p.dir == dir && CanRun(routed, full, p.importPath);
      RunsOnlySuites(scope, results, index, m, routed, full, p.importPath);
      assert Foreign(scope, m, p);
      assert InPackage(ti, p.dir, f);
    }
  }

  /** A run's world, before it has hashed anything. */
  ghost predicate Fresh(w: Cache.World, sha: string -> string, embeds: map<string, seq<string>>, tree: Tree, m: Mutant, files: seq<string>) {
    && w.host.sha == sha && IsHash(sha) && w.memo == Memo(map[], map[], map[], embeds)
    && w.testFiles(m) == files && w.host.list(Dir(m.file)) == Ok(tree.list(Dir(m.file)))
  }

  ghost predicate Readable(f: CacheHistory.Facts) {
    f.prod.Ok? && f.files.Ok? && f.embeds.Ok? && f.tests.Ok?
  }

  lemma EqualInputs(h: Host, h': Host, m: Memo, sources: seq<Source>, path: string)
    requires h.sha == h'.sha && IsHash(h.sha) && m.files == map[] && m.src == map[]
    requires Inputs(h, m, sources).Ok? && Inputs(h, m, sources) == Inputs(h', m, sources) && Among(sources, path)
    ensures h.read(path) == h'.read(path)
  {
    var i :| 0 <= i < |sources| && sources[i].path == path;
    InputsAt(h, m, sources, i);
    InputsAt(h', m, sources, i);
  }

  lemma {:induction false} SourceIsHashed(dir: string, names: seq<string>, name: string)
    requires name in names && IsGoSource(name)
    ensures Join(dir, name) in Hashing.SourcePaths(dir, names)
  {
    var n := |names| - 1;
    if name != names[n] {
      assert name in names[..n];
      SourceIsHashed(dir, names[..n], name);
    }
  }

  lemma SourceIsAmong(dir: string, names: seq<string>, name: string)
    requires name in names && IsGoSource(name)
    ensures Among(PkgSources(dir, names), Join(dir, name))
  {
    var paths := Hashing.SourcePaths(dir, names);
    var sorted := Sort(paths, StrLess);
    SourceIsHashed(dir, names, name);
    assert Join(dir, name) in multiset(sorted);
    var i :| 0 <= i < |sorted| && sorted[i] == Join(dir, name);
    assert PkgSources(dir, names)[i].path == Join(dir, name);
  }

  lemma TestIsAmong(files: seq<string>, f: string)
    requires f in files
    ensures Among(TestSources(files), f)
  {
    var sorted := SortedSet(files);
    SortedSetElements(files);
    var i :| 0 <= i < |sorted| && sorted[i] == f;
    assert TestSources(files)[i].path == f;
  }

  /** Equal facts are equal bytes of every file testing reads. */
  lemma FactsFixInputs(ti: TestIndex, dirs: seq<string>, tree: Tree, scope: Scope, results: seq<TestCoverage>, index: Index, m: Mutant,
                       routed: map<string, Suite>, full: set<string>, files: seq<string>, sha: string -> string,
                       embeds: map<string, seq<string>>, w: Cache.World, w': Cache.World, f: string)
    requires Setting(ti, dirs, tree, scope, results, index, m, routed, full, files)
    requires Fresh(w, sha, embeds, tree, m, files) && Fresh(w', sha, embeds, tree, m, files)
    requires CacheHistory.FactsOf(w, m) == CacheHistory.FactsOf(w', m) && Readable(CacheHistory.FactsOf(w, m))
    requires Reads(tree, scope, w.memo, m, routed, full, f)
    ensures w.host.read(f) == w'.host.read(f)
  {
    var dir, memo := Dir(m.file), w.memo;
    EmbedsAreHashed(memo, dir);
    if Embeds(memo, dir, f) {
      EqualInputs(w.host, w'.host, memo, EmbedSources(memo, dir), f);
    } else {
      GoInputIsKeyed(ti, dirs, tree, scope, results, index, m, routed, full, files, f);
      if f in files {
        TestIsAmong(files, f);
        EqualInputs(w.host, w'.host, memo, TestSources(files), f);
      } else {
        var name :| name in tree.list(dir) && IsGoSource(name) && f == Join(dir, name);
        SourceIsAmong(dir, tree.list(dir), name);
        EqualInputs(w.host, w'.host, memo, PkgSources(dir, tree.list(dir)), f);
      }
    }
  }

  /** Something said of a mutant by what is on disk, where only files that testing reads can matter. */
  ghost predicate Local<T(!new)>(verdict: (string -> Read<string>) -> T, tree: Tree, scope: Scope, memo: Memo, m: Mutant,
                                 routed: map<string, Suite>, full: set<string>) {
    forall read: string -> Read<string>, read': string -> Read<string> :: (forall f | Reads(tree, scope, memo, m, routed, full, f) :: read(f) == read'(f)) ==> verdict(read) == verdict(read')
  }

  /**
   A verdict by the Go files of the packages that can run for a mutant, and by what its package embeds, is a function of
   the facts the key covers.
   */
  lemma FactsDecideVerdict<T(!new)>(ti: TestIndex, dirs: seq<string>, tree: Tree, scope: Scope, results: seq<TestCoverage>, index: Index,
                                    m: Mutant, routed: map<string, Suite>, full: set<string>, files: seq<string>, sha: string -> string,
                                    embeds: map<string, seq<string>>, verdict: (string -> Read<string>) -> T, w: Cache.World, w': Cache.World)
    requires Setting(ti, dirs, tree, scope, results, index, m, routed, full, files)
    requires Fresh(w, sha, embeds, tree, m, files) && Fresh(w', sha, embeds, tree, m, files)
    requires Local(verdict, tree, scope, w.memo, m, routed, full)
    requires CacheHistory.FactsOf(w, m) == CacheHistory.FactsOf(w', m) && Readable(CacheHistory.FactsOf(w, m))
    ensures verdict(w.host.read) == verdict(w'.host.read)
  {
    forall f | Reads(tree, scope, w.memo, m, routed, full, f) ensures w.host.read(f) == w'.host.read(f) {
      FactsFixInputs(ti, dirs, tree, scope, results, index, m, routed, full, files, sha, embeds, w, w', f);
    }
  }

  /** The verdict as a function of facts: that of some world with them. */
  ghost function OfFacts<T>(verdict: (string -> Read<string>) -> T, none: T, tree: Tree, m: Mutant, files: seq<string>, sha: string -> string,
                            embeds: map<string, seq<string>>, f: CacheHistory.Facts): T
  {
    if w: Cache.World :| Fresh(w, sha, embeds, tree, m, files) && CacheHistory.FactsOf(w, m) == f then verdict(w.host.read) else none
  }

  lemma VerdictIsOfFacts<T(!new)>(ti: TestIndex, dirs: seq<string>, tree: Tree, scope: Scope, results: seq<TestCoverage>, index: Index,
                                  m: Mutant, routed: map<string, Suite>, full: set<string>, files: seq<string>, sha: string -> string,
                                  embeds: map<string, seq<string>>, verdict: (string -> Read<string>) -> T, none: T, w: Cache.World)
    requires Setting(ti, dirs, tree, scope, results, index, m, routed, full, files)
    requires Fresh(w, sha, embeds, tree, m, files) && Readable(CacheHistory.FactsOf(w, m))
    requires Local(verdict, tree, scope, w.memo, m, routed, full)
    ensures verdict(w.host.read) == OfFacts(verdict, none, tree, m, files, sha, embeds, CacheHistory.FactsOf(w, m))
  {
    var w': Cache.World :| Fresh(w', sha, embeds, tree, m, files) && CacheHistory.FactsOf(w', m) == CacheHistory.FactsOf(w, m)
      && OfFacts(verdict, none, tree, m, files, sha, embeds, CacheHistory.FactsOf(w, m)) == verdict(w'.host.read);
    FactsDecideVerdict(ti, dirs, tree, scope, results, index, m, routed, full, files, sha, embeds, verdict, w', w);
  }
}
