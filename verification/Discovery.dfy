/**
 From packages to numbered, named mutants (`DiscoverTo` in internal/discover/discover.go). What parsing a file and
 walking it finds is given; here are the order, the numbering and the names.
 */
module Discovery {
  import opened Text
  import opened Ordering
  import opened Mutants
  import opened RelFile
  import opened StableId

  datatype Package = Package(importPath: string, dir: string, goFiles: seq<string>)

  datatype Candidate = Candidate(
    file: string,
    line: int,
    col: int,
    offset: int,
    typ: string,
    original: string,
    replacement: string,
    startOffset: int,
    endOffset: int)

  /**
   A file as it parses: its declarations, and what the mutators find in it, one mutator after the other. A candidate
   bears the file its position names, which is another than the one it was found in where a `//line` directive says so.
   */
  datatype Source = Parsed(decls: seq<Decl>, found: seq<Candidate>) | Unparseable

  /** What is given of a run: the files, a path's segment in an ID, and its path under the module root. */
  datatype Env = Env(parse: string -> Source, segment: string -> string, rel: string -> string)

  // ----- the order of candidates -----

  predicate CandidateLess(a: Candidate, b: Candidate) {
    if StrLess(a.file, b.file) then true
    else if StrLess(b.file, a.file) then false
    else if a.line < b.line then true
    else if a.line > b.line then false
    else if a.col < b.col then true
    else if a.col > b.col then false
    else if StrLess(a.typ, b.typ) then true
    else if StrLess(b.typ, a.typ) then false
    else if a.endOffset < b.endOffset then true
    else if a.endOffset > b.endOffset then false
    else StrLess(a.replacement, b.replacement)
  }

  type KeyOf = (string, (int, (int, (string, (int, string)))))

  /** The six fields the order looks at. */
  function OrderKey(c: Candidate): KeyOf {
    (c.file, (c.line, (c.col, (c.typ, (c.endOffset, c.replacement)))))
  }

  predicate IntLess(a: int, b: int) {
    a < b
  }

  function Lexicographic<A(==), B>(first: (A, A) -> bool, second: (B, B) -> bool): ((A, B), (A, B)) -> bool {
    (x: (A, B), y: (A, B)) => first(x.0, y.0) || (x.0 == y.0 && second(x.1, y.1))
  }

  lemma LexicographicIsStrictTotal<A(!new), B(!new)>(first: (A, A) -> bool, second: (B, B) -> bool)
    requires StrictTotal(first) && StrictTotal(second)
    ensures StrictTotal(Lexicographic(first, second))
  {
    var less := Lexicographic(first, second);
    forall a, b, c | less(a, b) && less(b, c) ensures less(a, c) {
      assert first(a.0, b.0) && first(b.0, c.0) ==> first(a.0, c.0);
      assert second(a.1, b.1) && second(b.1, c.1) ==> second(a.1, c.1);
    }
    forall a, b ensures a == b || less(a, b) || less(b, a) {
      assert a.0 == b.0 || first(a.0, b.0) || first(b.0, a.0);
      assert a.1 == b.1 || second(a.1, b.1) || second(b.1, a.1);
    }
  }

  function SpanOrder(): ((int, string), (int, string)) -> bool {
    Lexicographic(IntLess, StrLess)
  }

  function TypeOrder(): ((string, (int, string)), (string, (int, string))) -> bool {
    Lexicographic(StrLess, SpanOrder())
  }

  function KeyOrder(): (KeyOf, KeyOf) -> bool {
    Lexicographic(StrLess, Lexicographic(IntLess, Lexicographic(IntLess, TypeOrder())))
  }

  /** The order on the six fields is strict and total. */
  lemma KeyOrderIsStrictTotal()
    ensures StrictTotal(KeyOrder())
  {
    StrLessIsStrictTotal();
    assert StrictTotal(IntLess);
    LexicographicIsStrictTotal(IntLess, StrLess);
    LexicographicIsStrictTotal(StrLess, SpanOrder());
    LexicographicIsStrictTotal(IntLess, TypeOrder());
    LexicographicIsStrictTotal(IntLess, Lexicographic(IntLess, TypeOrder()));
    LexicographicIsStrictTotal(StrLess, Lexicographic(IntLess, Lexicographic(IntLess, TypeOrder())));
  }

  /** The chain of comparisons is the lexicographic order on the six fields. */
  lemma CandidateLessIsKeyOrder(a: Candidate, b: Candidate)
    ensures CandidateLess(a, b) <==> KeyOrder()(OrderKey(a), OrderKey(b))
  {
    StrLessTotal(a.file, b.file);
    StrLessTotal(a.typ, b.typ);
    StrLessIrreflexive(a.file);
    StrLessIrreflexive(a.typ);
    assert StrLess(a.file, b.file) ==> !StrLess(b.file, a.file) by { StrLessIsStrictTotal(); }
    assert StrLess(a.typ, b.typ) ==> !StrLess(b.typ, a.typ) by { StrLessIsStrictTotal(); }
    var ka, kb := OrderKey(a), OrderKey(b);
    assert IntLess(a.endOffset, b.endOffset) <==> a.endOffset < b.endOffset;
    assert IntLess(a.line, b.line) <==> a.line < b.line;
    assert IntLess(a.col, b.col) <==> a.col < b.col;
    assert SpanOrder()(ka.1.1.1.1, kb.1.1.1.1) <==>
      a.endOffset < b.endOffset || (a.endOffset == b.endOffset && StrLess(a.replacement, b.replacement));
    assert TypeOrder()(ka.1.1.1, kb.1.1.1) <==> StrLess(a.typ, b.typ) || (a.typ == b.typ && SpanOrder()(ka.1.1.1.1, kb.1.1.1.1));
    assert KeyOrder()(ka, kb) <==>
      (StrLess(a.file, b.file) || (a.file == b.file
        && (a.line < b.line || (a.line == b.line && (a.col < b.col || (a.col == b.col && TypeOrder()(ka.1.1.1, kb.1.1.1)))))));
  }

  lemma CandidateLessIsWeak()
    ensures WeakOrder(CandidateLess)
  {
    KeyOrderIsStrictTotal();
    StrictTotalIsWeak(KeyOrder());
    forall a, b, c
      ensures CandidateLess(a, b) ==> !CandidateLess(b, a)
      ensures !CandidateLess(b, a) && !CandidateLess(c, b) ==> !CandidateLess(c, a)
    {
      CandidateLessIsKeyOrder(a, b);
      CandidateLessIsKeyOrder(b, a);
      CandidateLessIsKeyOrder(c, b);
      CandidateLessIsKeyOrder(c, a);
      var less, ka, kb, kc := KeyOrder(), OrderKey(a), OrderKey(b), OrderKey(c);
      assert less(ka, kb) ==> !less(kb, ka);
      assert !less(kb, ka) && !less(kc, kb) ==> !less(kc, ka);
    }
  }

  /** What a sort of `s`, stable or not, may return. */
  ghost predicate IsSortOf(sorted: seq<Candidate>, s: seq<Candidate>) {
    multiset(sorted) == multiset(s) && Sorted(sorted, CandidateLess)
  }

  function OrderKeys(s: seq<Candidate>): seq<KeyOf> {
    Mapped(s, OrderKey)
  }

  /** Whatever a sort does with ties, field by field the same keys come out. */
  lemma SortsAgree(s: seq<Candidate>, s': seq<Candidate>)
    requires multiset(s) == multiset(s') && Sorted(s, CandidateLess) && Sorted(s', CandidateLess)
    ensures OrderKeys(s) == OrderKeys(s')
  {
    KeyOrderIsStrictTotal();
    KeysSorted(s);
    KeysSorted(s');
    MappedPermutes(s, s', OrderKey);
    SortedUnique(OrderKeys(s), OrderKeys(s'), KeyOrder());
  }

  lemma KeysSorted(s: seq<Candidate>)
    ensures Sorted(s, CandidateLess) <==> Sorted(OrderKeys(s), KeyOrder())
  {
    var keys := OrderKeys(s);
    forall i, j | 0 <= i < j < |s| ensures CandidateLess(s[j], s[i]) <==> KeyOrder()(keys[j], keys[i]) {
      CandidateLessIsKeyOrder(s[j], s[i]);
    }
  }

  // ----- what is found -----

  /** Go declarations in source order, and types of mutations without a colon. */
  ghost predicate GoodSource(src: Source) {
    src.Parsed? ==>
      && (forall d | d in src.decls :: PlainDecl(d))
      && InOrder(FuncSpans(src.decls))
      && (forall c | c in src.found :: ':' !in c.typ)
  }

  ghost predicate GoodEnv(env: Env) {
    forall path :: GoodSource(env.parse(path))
  }

  /** The paths of the files a directory's package lists. */
  function FilesIn(dir: string, names: seq<string>): seq<string> {
    if names == [] then [] else FilesIn(dir, names[..|names| - 1]) + [Join(dir, names[|names| - 1])]
  }

  /** The files of a run, in the order it parses them. */
  function FilesOf(pkgs: seq<Package>): seq<string> {
    if pkgs == [] then []
    else
      var last := pkgs[|pkgs| - 1];
      FilesOf(pkgs[..|pkgs| - 1]) + FilesIn(last.dir, last.goFiles)
  }

  function Found(env: Env, path: string): seq<Candidate> {
    var src := env.parse(path);
    if src.Parsed? then src.found else []
  }

  function FoundAll(env: Env, paths: seq<string>): seq<Candidate> {
    if paths == [] then [] else FoundAll(env, paths[..|paths| - 1]) + Found(env, paths[|paths| - 1])
  }

  function Gathered(env: Env, pkgs: seq<Package>): seq<Candidate> {
    FoundAll(env, FilesOf(pkgs))
  }

  function SpansOf(env: Env, path: string): seq<Span> {
    var src := env.parse(path);
    if src.Parsed? then FuncSpans(src.decls) else []
  }

  /** The functions a run that parses `paths` knows of a file: none of a file it has not parsed. */
  function SpansIn(env: Env, paths: seq<string>, path: string): seq<Span> {
    if path in paths then SpansOf(env, path) else []
  }

  lemma FoundSnoc(env: Env, paths: seq<string>, path: string)
    ensures FoundAll(env, paths + [path]) == FoundAll(env, paths) + Found(env, path)
  {
    assert (paths + [path])[..|paths|] == paths;
  }

  lemma {:induction false} FoundFrom(env: Env, paths: seq<string>, c: Candidate) returns (path: string)
    requires c in FoundAll(env, paths)
    ensures path in paths && c in Found(env, path)
  {
    var n := |paths| - 1;
    if c in FoundAll(env, paths[..n]) {
      path := FoundFrom(env, paths[..n], c);
    } else {
      path := paths[n];
    }
  }

  lemma {:induction false} FoundIsGathered(env: Env, paths: seq<string>, path: string, c: Candidate)
    requires path in paths && c in Found(env, path)
    ensures c in FoundAll(env, paths)
  {
    var n := |paths| - 1;
    if path != paths[n] {
      assert path in paths[..n];
      FoundIsGathered(env, paths[..n], path, c);
    }
  }

  function SpansAt(spansByFile: map<string, seq<Span>>, path: string): seq<Span> {
    if path in spansByFile then spansByFile[path] else []
  }

  ghost predicate GoodSpans(env: Env, paths: seq<string>, spansByFile: map<string, seq<Span>>) {
    forall path :: SpansAt(spansByFile, path) == SpansIn(env, paths, path)
  }

  /** The table with one more file parsed, or not parsed. */
  lemma SpansOn(env: Env, paths: seq<string>, spansByFile: map<string, seq<Span>>, path: string)
    requires GoodSpans(env, paths, spansByFile)
    ensures env.parse(path).Parsed? ==> GoodSpans(env, paths + [path], spansByFile[path := FuncSpans(env.parse(path).decls)])
    ensures env.parse(path).Unparseable? ==> GoodSpans(env, paths + [path], spansByFile)
  {
    var paths' := paths + [path];
    var more := spansByFile[path := SpansOf(env, path)];
    forall p
      ensures SpansAt(more, p) == SpansIn(env, paths', p)
      ensures env.parse(path).Unparseable? ==> SpansAt(spansByFile, p) == SpansIn(env, paths', p)
    {
      assert p in paths' <==> p in paths || p == path;
      assert SpansAt(spansByFile, p) == SpansIn(env, paths, p);
    }
  }

  method GatherFiles(env: Env, pkg: Package, ghost before: seq<string>, all: seq<Candidate>, spans: map<string, seq<Span>>)
    returns (all': seq<Candidate>, spansByFile: map<string, seq<Span>>)
    requires all == FoundAll(env, before) && GoodSpans(env, before, spans)
    ensures all' == FoundAll(env, before + FilesIn(pkg.dir, pkg.goFiles))
    ensures GoodSpans(env, before + FilesIn(pkg.dir, pkg.goFiles), spansByFile)
  {
    all', spansByFile := all, spans;
    ghost var paths := before;
    for j := 0 to |pkg.goFiles|
      invariant paths == before + FilesIn(pkg.dir, pkg.goFiles[..j])
      invariant all' == FoundAll(env, paths) && GoodSpans(env, paths, spansByFile)
    {
      var absPath := Join(pkg.dir, pkg.goFiles[j]);
      var src := env.parse(absPath);
      assert pkg.goFiles[..j + 1][..j] == pkg.goFiles[..j];
      FoundSnoc(env, paths, absPath);
      SpansOn(env, paths, spansByFile, absPath);
      if src.Parsed? {
        var fileSpans := ListFuncSpans(src.decls);
        spansByFile := spansByFile[absPath := fileSpans];
        all' := all' + src.found;
      }
      paths := paths + [absPath];
    }
    assert pkg.goFiles[..|pkg.goFiles|] == pkg.goFiles;
  }

  method Gather(env: Env, pkgs: seq<Package>) returns (all: seq<Candidate>, spansByFile: map<string, seq<Span>>)
    ensures all == Gathered(env, pkgs) && GoodSpans(env, FilesOf(pkgs), spansByFile)
  {
    all, spansByFile := [], map[];
    for i := 0 to |pkgs|
      invariant all == Gathered(env, pkgs[..i]) && GoodSpans(env, FilesOf(pkgs[..i]), spansByFile)
    {
      assert pkgs[..i + 1][..i] == pkgs[..i];
      all, spansByFile := GatherFiles(env, pkgs[i], FilesOf(pkgs[..i]), all, spansByFile);
    }
    assert pkgs[..|pkgs|] == pkgs;
  }

  // ----- the package of a file -----

  /** The last package that lists the file, "" when none does. */
  function PackageOf(pkgs: seq<Package>, path: string): string {
    if pkgs == [] then ""
    else
      var last := pkgs[|pkgs| - 1];
      if path in FilesIn(last.dir, last.goFiles) then last.importPath else PackageOf(pkgs[..|pkgs| - 1], path)
  }

  function Looked(filePkg: map<string, string>, path: string): string {
    if path in filePkg then filePkg[path] else ""
  }

  method IndexFiles(pkgs: seq<Package>) returns (filePkg: map<string, string>)
    ensures forall path :: Looked(filePkg, path) == PackageOf(pkgs, path)
  {
    filePkg := map[];
    for i := 0 to |pkgs|
      invariant forall path :: Looked(filePkg, path) == PackageOf(pkgs[..i], path)
    {
      var p := pkgs[i];
      assert pkgs[..i + 1][..i] == pkgs[..i];
      for j := 0 to |p.goFiles|
        invariant forall path ::
          Looked(filePkg, path) == (if path in FilesIn(p.dir, p.goFiles[..j]) then p.importPath else PackageOf(pkgs[..i], path))
      {
        ghost var before := filePkg;
        filePkg := filePkg[Join(p.dir, p.goFiles[j]) := p.importPath];
        forall path ensures Looked(filePkg, path)
          == if path in FilesIn(p.dir, p.goFiles[..j + 1]) then p.importPath else PackageOf(pkgs[..i], path)
        {
          assert p.goFiles[..j + 1][..j] == p.goFiles[..j];
          assert path != Join(p.dir, p.goFiles[j]) ==> Looked(filePkg, path) == Looked(before, path);
        }
      }
      assert p.goFiles[..|p.goFiles|] == p.goFiles;
    }
    assert pkgs[..|pkgs|] == pkgs;
  }

  // ----- mutants -----

  function GroupOf(env: Env, paths: seq<string>, c: Candidate): Group {
    Group(env.segment(c.file), AnchorAt(SpansIn(env, paths, c.file), c.offset), c.typ)
  }

  /** How often `x` is in the list. */
  function Count<T(==)>(s: seq<T>, x: T): nat {
    if s == [] then 0 else Count(s[..|s| - 1], x) + if s[|s| - 1] == x then 1 else 0
  }

  /** Which one of its group the element at `i` is, counted from 1. */
  function Ordinal<T(==)>(s: seq<T>, i: nat): nat
    requires i < |s|
  {
    Count(s[..i + 1], s[i])
  }

  function ImportPaths(pkgs: seq<Package>): (paths: seq<string>)
    ensures |paths| == |pkgs| && forall i | 0 <= i < |pkgs| :: paths[i] == pkgs[i].importPath
  {
    seq(|pkgs|, i requires 0 <= i < |pkgs| => pkgs[i].importPath)
  }

  function MakeMutant(c: Candidate, id: int, pkg: string, relFile: string, g: Group, ordinal: nat): Mutant {
    Mutant(id, Render(g, ordinal), c.typ, c.file, relFile, c.line, c.col, c.original, c.replacement, c.startOffset, c.endOffset,
           pkg + "/" + Base(c.file), Pending, 0, pkg, false, false)
  }

  function RelFileOf(env: Env, pkgs: seq<Package>, path: string): string {
    ComputeRelFile(CommonPrefix(ImportPaths(pkgs)), PackageOf(pkgs, path), path, env.rel(path))
  }

  /** What a mutant's fields are looked up by. */
  datatype View = View(groupOf: Candidate -> Group, packageOf: string -> string, relFileOf: string -> string)

  function ViewOf(env: Env, pkgs: seq<Package>): View {
    View(c => GroupOf(env, FilesOf(pkgs), c), path => PackageOf(pkgs, path), path => RelFileOf(env, pkgs, path))
  }

  function GroupsOf(v: View, s: seq<Candidate>): seq<Group> {
    Mapped(s, v.groupOf)
  }

  /** The sorted candidates as mutants: each numbered in the run and, for its name, in its group. */
  function Assembled(v: View, s: seq<Candidate>): seq<Mutant> {
    var groups := GroupsOf(v, s);
    seq(|s|, i requires 0 <= i < |s| =>
      MakeMutant(s[i], i + 1, v.packageOf(s[i].file), v.relFileOf(s[i].file), groups[i], Ordinal(groups, i)))
  }

  /** What discovery may return for the packages. */
  ghost predicate IsDiscovery(env: Env, pkgs: seq<Package>, mutants: seq<Mutant>) {
    exists sorted :: IsSortOf(sorted, Gathered(env, pkgs)) && mutants == Assembled(ViewOf(env, pkgs), sorted)
  }

  lemma CountSnoc<T>(s: seq<T>, i: nat)
    requires i < |s|
    ensures forall x :: Count(s[..i + 1], x) == Count(s[..i], x) + if s[i] == x then 1 else 0
  {
    assert s[..i + 1][..i] == s[..i];
  }

  /** A candidate's package, report path and group, by the tables made beforehand. */
  method LookUp(env: Env, ghost pkgs: seq<Package>, filePkg: map<string, string>, commonPrefix: string,
                spansByFile: map<string, seq<Span>>, c: Candidate)
    returns (pkg: string, relPath: string, key: Group)
    requires GoodEnv(env) && GoodSpans(env, FilesOf(pkgs), spansByFile)
    requires Looked(filePkg, c.file) == PackageOf(pkgs, c.file) && commonPrefix == CommonPrefix(ImportPaths(pkgs))
    ensures pkg == ViewOf(env, pkgs).packageOf(c.file) && relPath == ViewOf(env, pkgs).relFileOf(c.file)
    ensures key == ViewOf(env, pkgs).groupOf(c)
  {
    pkg := Looked(filePkg, c.file);
    relPath := ComputeRelFile(commonPrefix, pkg, c.file, env.rel(c.file));
    assert GoodSource(env.parse(c.file));
    var anchor := AnchorFor(SpansAt(spansByFile, c.file), c.offset);
    key := Group(env.segment(c.file), anchor, c.typ);
  }

  lemma AssembledAt(v: View, s: seq<Candidate>, i: nat)
    requires i < |s|
    ensures |Assembled(v, s)| == |GroupsOf(v, s)| == |s| && GroupsOf(v, s)[i] == v.groupOf(s[i])
    ensures Assembled(v, s)[i]
      == MakeMutant(s[i], i + 1, v.packageOf(s[i].file), v.relFileOf(s[i].file), v.groupOf(s[i]), Ordinal(GroupsOf(v, s), i))
  {
  }

  function Tally(ordinals: map<Group, nat>, g: Group): nat {
    if g in ordinals then ordinals[g] else 0
  }

  ghost predicate Tallied(groups: seq<Group>, ordinals: map<Group, nat>) {
    forall g :: Count(groups, g) == Tally(ordinals, g)
  }

  lemma TallyOne(groups: seq<Group>, i: nat, ordinals: map<Group, nat>)
    requires i < |groups| && Tallied(groups[..i], ordinals)
    ensures Tallied(groups[..i + 1], ordinals[groups[i] := Tally(ordinals, groups[i]) + 1])
    ensures Ordinal(groups, i) == Tally(ordinals, groups[i]) + 1
  {
    CountSnoc(groups, i);
    var key := groups[i];
    var ordinals' := ordinals[key := Tally(ordinals, key) + 1];
    forall g ensures Count(groups[..i + 1], g) == Tally(ordinals', g) {
      assert Count(groups[..i], g) == Tally(ordinals, g);
      assert Count(groups[..i + 1], g) == Count(groups[..i], g) + if key == g then 1 else 0;
    }
  }

  /** One turn of the loop over the sorted candidates. */
  method Next(env: Env, ghost pkgs: seq<Package>, filePkg: map<string, string>, commonPrefix: string,
              spansByFile: map<string, seq<Span>>, sorted: seq<Candidate>, i: nat, ordinals: map<Group, nat>)
    returns (mutant: Mutant, ordinals': map<Group, nat>)
    requires GoodEnv(env) && GoodSpans(env, FilesOf(pkgs), spansByFile) && i < |sorted|
    requires Looked(filePkg, sorted[i].file) == PackageOf(pkgs, sorted[i].file) && commonPrefix == CommonPrefix(ImportPaths(pkgs))
    requires Tallied(GroupsOf(ViewOf(env, pkgs), sorted)[..i], ordinals)
    ensures i < |Assembled(ViewOf(env, pkgs), sorted)| && mutant == Assembled(ViewOf(env, pkgs), sorted)[i]
    ensures Tallied(GroupsOf(ViewOf(env, pkgs), sorted)[..i + 1], ordinals')
  {
    var pkg, relPath, key := LookUp(env, pkgs, filePkg, commonPrefix, spansByFile, sorted[i]);
    ghost var v := ViewOf(env, pkgs);
    AssembledAt(v, sorted, i);
    TallyOne(GroupsOf(v, sorted), i, ordinals);
    ordinals' := ordinals[key := Tally(ordinals, key) + 1];
    mutant := MakeMutant(sorted[i], i + 1, pkg, relPath, key, ordinals'[key]);
  }

  lemma NoneTallied(groups: seq<Group>)
    ensures Tallied(groups[..0], map[])
  {
    assert groups[..0] == [];
  }

  lemma AssembledLength(v: View, s: seq<Candidate>)
    ensures |Assembled(v, s)| == |s|
  {
  }

  method Assemble(env: Env, pkgs: seq<Package>, sorted: seq<Candidate>, spansByFile: map<string, seq<Span>>)
    returns (mutants: seq<Mutant>)
    requires GoodEnv(env) && GoodSpans(env, FilesOf(pkgs), spansByFile)
    ensures mutants == Assembled(ViewOf(env, pkgs), sorted)
  {
    var filePkg := IndexFiles(pkgs);
    var commonPrefix := LongestCommonPrefix(ImportPaths(pkgs));
    ghost var v := ViewOf(env, pkgs);
    ghost var all := Assembled(v, sorted);
    AssembledLength(v, sorted);
    var ordinals: map<Group, nat> := map[];
    mutants := [];
    NoneTallied(GroupsOf(v, sorted));
    for i := 0 to |sorted|
      invariant mutants == all[..i]
      invariant Tallied(GroupsOf(v, sorted)[..i], ordinals)
    {
      var mutant, ordinals' := Next(env, pkgs, filePkg, commonPrefix, spansByFile, sorted, i, ordinals);
      ordinals := ordinals';
      mutants := mutants + [mutant];
      assert all[..i + 1] == all[..i] + [all[i]];
    }
    assert all[..|sorted|] == all;
  }

  method Discover(env: Env, pkgs: seq<Package>) returns (mutants: seq<Mutant>)
    requires GoodEnv(env)
    ensures IsDiscovery(env, pkgs, mutants)
    ensures |mutants| == |Gathered(env, pkgs)| && forall i | 0 <= i < |mutants| :: mutants[i].id == i + 1 && mutants[i].status == Pending
    ensures forall m | m in mutants :: exists c | c in Gathered(env, pkgs) ::
      && m.file == c.file && m.line == c.line && m.col == c.col && m.typ == c.typ
      && m.original == c.original && m.replacement == c.replacement
      && m.startOffset == c.startOffset && m.endOffset == c.endOffset
  {
    var all, spansByFile := Gather(env, pkgs);
    var sorted := Sort(all, CandidateLess);
    CandidateLessIsWeak();
    SortSorts(all, CandidateLess);
    mutants := Assemble(env, pkgs, sorted, spansByFile);
    assert IsSortOf(sorted, Gathered(env, pkgs));
    ghost var s := DiscoveryMeans(env, pkgs, mutants);
    assert |s| == |multiset(s)| == |Gathered(env, pkgs)|;
    forall m | m in mutants ensures exists c | c in Gathered(env, pkgs) ::
      && m.file == c.file && m.line == c.line && m.col == c.col && m.typ == c.typ
      && m.original == c.original && m.replacement == c.replacement
      && m.startOffset == c.startOffset && m.endOffset == c.endOffset
    {
      var i :| 0 <= i < |mutants| && mutants[i] == m;
      assert s[i] in multiset(s);
    }
  }

  // ----- what the names are worth -----

  /** What a mutant shows of a candidate besides its key, its package and its number. */
  predicate ShowAlike(v: View, x: Candidate, y: Candidate) {
    v.groupOf(x) == v.groupOf(y) && x.original == y.original && x.startOffset == y.startOffset
  }

  /** Where the six fields leave a tie, it does not show. */
  ghost predicate TiesAlike(v: View, s: seq<Candidate>) {
    forall x, y | x in s && y in s && OrderKey(x) == OrderKey(y) :: ShowAlike(v, x, y)
  }

  lemma SortsShowAlike(v: View, s: seq<Candidate>, s': seq<Candidate>)
    requires multiset(s) == multiset(s') && Sorted(s, CandidateLess) && Sorted(s', CandidateLess)
    requires TiesAlike(v, s)
    ensures Assembled(v, s) == Assembled(v, s')
  {
    SortsAgree(s, s');
    assert |s| == |OrderKeys(s)| == |OrderKeys(s')| == |s'|;
    forall i | 0 <= i < |s| ensures OrderKey(s[i]) == OrderKey(s'[i]) && ShowAlike(v, s[i], s'[i]) {
      assert OrderKeys(s)[i] == OrderKeys(s')[i];
      assert s'[i] in multiset(s');
    }
    assert GroupsOf(v, s) == GroupsOf(v, s');
    forall i | 0 <= i < |s| ensures Assembled(v, s)[i] == Assembled(v, s')[i] {
      AssembledAt(v, s, i);
      AssembledAt(v, s', i);
    }
  }

  /** The packages alone decide what discovery returns. */
  ghost predicate Deterministic(env: Env, pkgs: seq<Package>) {
    forall mutants, mutants' | IsDiscovery(env, pkgs, mutants) && IsDiscovery(env, pkgs, mutants') :: mutants == mutants'
  }

  /** The order leaves nothing open in what the packages hold. */
  ghost predicate OrderDecides(env: Env, pkgs: seq<Package>) {
    TiesAlike(ViewOf(env, pkgs), Gathered(env, pkgs))
  }

  lemma SortedTies(v: View, s: seq<Candidate>, all: seq<Candidate>)
    requires multiset(s) == multiset(all) && TiesAlike(v, all)
    ensures TiesAlike(v, s)
  {
    forall x | x in s ensures x in all {
      assert x in multiset(s);
    }
  }

  /** Tied candidates may change places. */
  lemma TieSwaps(s: seq<Candidate>, i: nat, j: nat) returns (s': seq<Candidate>)
    requires Sorted(s, CandidateLess) && i < |s| && j < |s| && OrderKey(s[i]) == OrderKey(s[j])
    ensures |s'| == |s| && multiset(s') == multiset(s) && Sorted(s', CandidateLess) && s'[i] == s[j]
  {
    s' := s[i := s[j]][j := s[i]];
    assert OrderKeys(s') == OrderKeys(s);
    KeysSorted(s);
    KeysSorted(s');
  }

  lemma DifferingMutants(v: View, s: seq<Candidate>, s': seq<Candidate>, i: nat)
    requires i < |s| && i < |s'| && !ShowAlike(v, s[i], s'[i])
    requires Separable(v.groupOf(s[i])) && Separable(v.groupOf(s'[i]))
    ensures Assembled(v, s) != Assembled(v, s')
  {
    AssembledAt(v, s, i);
    AssembledAt(v, s', i);
    var g, g' := v.groupOf(s[i]), v.groupOf(s'[i]);
    if g != g' { RenderApart(g, Ordinal(GroupsOf(v, s), i), g', Ordinal(GroupsOf(v, s'), i)); }
    assert Assembled(v, s)[i] != Assembled(v, s')[i];
  }

  /** A tie that shows can come out either way. */
  lemma TieShows(env: Env, pkgs: seq<Package>, x: Candidate, y: Candidate)
    requires GoodEnv(env) && x in Gathered(env, pkgs) && y in Gathered(env, pkgs)
    requires OrderKey(x) == OrderKey(y) && !ShowAlike(ViewOf(env, pkgs), x, y)
    ensures !Deterministic(env, pkgs)
  {
    var all, v := Gathered(env, pkgs), ViewOf(env, pkgs);
    var s := Sort(all, CandidateLess);
    CandidateLessIsWeak();
    SortSorts(all, CandidateLess);
    assert x in multiset(s) && y in multiset(s);
    var i :| 0 <= i < |s| && s[i] == x;
    var j :| 0 <= j < |s| && s[j] == y;
    var s' := TieSwaps(s, i, j);
    assert IsSortOf(s, all) && IsSortOf(s', all);
    GroupIsSeparable(env, pkgs, x);
    GroupIsSeparable(env, pkgs, y);
    DifferingMutants(v, s, s', i);
    assert IsDiscovery(env, pkgs, Assembled(v, s)) && IsDiscovery(env, pkgs, Assembled(v, s'));
  }

  lemma RenderApart(g: Group, n: nat, g': Group, n': nat)
    requires Separable(g) && Separable(g') && g != g'
    ensures Render(g, n) != Render(g', n')
  {
    if Render(g, n) == Render(g', n') { RenderInjective(g, n, g', n'); }
  }

  /** Discovery is deterministic exactly when no tie of the order shows. */
  lemma DiscoveryIsDeterministic(env: Env, pkgs: seq<Package>)
    requires GoodEnv(env)
    ensures Deterministic(env, pkgs) <==> OrderDecides(env, pkgs)
  {
    var all, v := Gathered(env, pkgs), ViewOf(env, pkgs);
    if OrderDecides(env, pkgs) {
      forall ms, ms' | IsDiscovery(env, pkgs, ms) && IsDiscovery(env, pkgs, ms') ensures ms == ms' {
        var s :| IsSortOf(s, all) && ms == Assembled(v, s);
        var s' :| IsSortOf(s', all) && ms' == Assembled(v, s');
        SortedTies(v, s, all);
        SortsShowAlike(v, s, s');
      }
    } else {
      var x, y :| x in all && y in all && OrderKey(x) == OrderKey(y) && !ShowAlike(v, x, y);
      TieShows(env, pkgs, x, y);
    }
  }

  /** Two generated files, an operator in each, both at the line of the source that `//line` directives give them. */
  function Twins(path: string, path': string, source: string): Env {
    Env(p => if p == path then Parsed([], [Candidate(source, 1, 1, 40, "ARITHMETIC_BASE", "/", "*", 40, 41)])
             else if p == path' then Parsed([], [Candidate(source, 1, 1, 40, "ARITHMETIC_BASE", "%", "*", 40, 41)])
             else Unparseable,
        p => p, p => p)
  }

  /** The order leaves such a tie open, and the list differs with how it is broken. */
  lemma TwinsAreUnordered(pkgs: seq<Package>, path: string, path': string, source: string)
    requires path in FilesOf(pkgs) && path' in FilesOf(pkgs) && path != path'
    ensures GoodEnv(Twins(path, path', source)) && !Deterministic(Twins(path, path', source), pkgs)
  {
    var env := Twins(path, path', source);
    var x, y := env.parse(path).found[0], env.parse(path').found[0];
    FoundIsGathered(env, FilesOf(pkgs), path, x);
    FoundIsGathered(env, FilesOf(pkgs), path', y);
    TypeHasNoColon();
    TieShows(env, pkgs, x, y);
  }

  lemma TypeHasNoColon()
    ensures ':' !in "ARITHMETIC_BASE"
  {
  }

  lemma DiscoveryExists(env: Env, pkgs: seq<Package>) returns (mutants: seq<Mutant>)
    ensures IsDiscovery(env, pkgs, mutants)
  {
    var sorted := Sort(Gathered(env, pkgs), CandidateLess);
    CandidateLessIsWeak();
    SortSorts(Gathered(env, pkgs), CandidateLess);
    mutants := Assembled(ViewOf(env, pkgs), sorted);
    assert IsSortOf(sorted, Gathered(env, pkgs));
  }

  /** Two mutants are of one mutation under one stable ID. */
  predicate SameMutation(m: Mutant, m': Mutant) {
    m.stableId == m'.stableId && m.file == m'.file && m.typ == m'.typ && m.original == m'.original && m.startOffset == m'.startOffset
    && m.endOffset == m'.endOffset && m.replacement == m'.replacement
  }

  lemma SameNames(v: View, v': View, s: seq<Candidate>)
    requires forall c :: v.groupOf(c) == v'.groupOf(c)
    ensures |Assembled(v, s)| == |Assembled(v', s)|
    ensures forall i | 0 <= i < |s| :: SameMutation(Assembled(v, s)[i], Assembled(v', s)[i])
  {
    assert GroupsOf(v, s) == GroupsOf(v', s);
    forall i | 0 <= i < |s| ensures SameMutation(Assembled(v, s)[i], Assembled(v', s)[i]) {
      AssembledAt(v, s, i);
      AssembledAt(v', s, i);
    }
  }

  /** The same source files, searched by the mutators in another order. */
  ghost predicate SameFindings(env: Env, env': Env) {
    env.segment == env'.segment && forall path ::
      var src, src' := env.parse(path), env'.parse(path);
      src.Parsed? == src'.Parsed? && (src.Parsed? ==> src.decls == src'.decls && multiset(src.found) == multiset(src'.found))
  }

  lemma {:induction false} FoundPermutes(env: Env, paths: seq<string>, env': Env, paths': seq<string>)
    requires SameFindings(env, env') && multiset(paths) == multiset(paths')
    ensures multiset(FoundAll(env, paths)) == multiset(FoundAll(env', paths'))
    decreases |paths|
  {
    assert |paths| == |multiset(paths)| == |multiset(paths')| == |paths'|;
    if paths != [] {
      var n := |paths| - 1;
      var last := paths[n];
      assert last in multiset(paths');
      var j :| 0 <= j < |paths'| && paths'[j] == last;
      TakeOut(paths, paths', j);
      FoundPermutes(env, paths[..n], env', paths'[..j] + paths'[j + 1..]);
      FoundWithout(env', paths', j);
      assert multiset(Found(env, last)) == multiset(Found(env', last));
    }
  }

  lemma FoundWithout(env: Env, paths: seq<string>, j: nat)
    requires j < |paths|
    ensures multiset(FoundAll(env, paths)) == multiset(FoundAll(env, paths[..j] + paths[j + 1..])) + multiset(Found(env, paths[j]))
  {
    var a, p, b := paths[..j], paths[j], paths[j + 1..];
    assert paths == a + [p] + b;
    FoundAppend(env, a + [p], b);
    FoundSnoc(env, a, p);
    FoundAppend(env, a, b);
    MovedBack(FoundAll(env, a), Found(env, p), FoundAll(env, b));
  }

  lemma MovedBack<T>(a: seq<T>, p: seq<T>, b: seq<T>)
    ensures multiset(a + p + b) == multiset(a + b) + multiset(p)
  {
  }

  lemma Regrouped<T>(a: seq<T>, b: seq<T>, c: seq<T>)
    ensures (a + b) + c == a + (b + c)
  {
  }

  lemma {:induction false} FoundAppend(env: Env, a: seq<string>, b: seq<string>)
    ensures FoundAll(env, a + b) == FoundAll(env, a) + FoundAll(env, b)
  {
    if b == [] {
      assert a + b == a;
    } else {
      FoundAppend(env, a, b[..|b| - 1]);
      FoundAppendLast(env, a, b[..|b| - 1], b[|b| - 1]);
      assert b == b[..|b| - 1] + [b[|b| - 1]];
    }
  }

  lemma FoundAppendLast(env: Env, a: seq<string>, b: seq<string>, path: string)
    requires FoundAll(env, a + b) == FoundAll(env, a) + FoundAll(env, b)
    ensures FoundAll(env, a + (b + [path])) == FoundAll(env, a) + FoundAll(env, b + [path])
  {
    FoundSnoc(env, a + b, path);
    FoundSnoc(env, b, path);
    Regrouped(a, b, [path]);
    Regrouped(FoundAll(env, a), FoundAll(env, b), Found(env, path));
  }

  lemma SameGroup(env: Env, pkgs: seq<Package>, env': Env, pkgs': seq<Package>, c: Candidate)
    requires SameFindings(env, env') && multiset(FilesOf(pkgs)) == multiset(FilesOf(pkgs'))
    ensures GroupOf(env, FilesOf(pkgs), c) == GroupOf(env', FilesOf(pkgs'), c)
  {
    assert c.file in multiset(FilesOf(pkgs)) <==> c.file in multiset(FilesOf(pkgs'));
    assert SpansOf(env, c.file) == SpansOf(env', c.file);
  }

  /** Packages given in another order, and mutators run in another, name the same mutants the same. */
  lemma StableIdsIgnoreOrder(env: Env, pkgs: seq<Package>, mutants: seq<Mutant>, env': Env, pkgs': seq<Package>, mutants': seq<Mutant>)
    requires IsDiscovery(env, pkgs, mutants) && IsDiscovery(env', pkgs', mutants')
    requires SameFindings(env, env') && multiset(FilesOf(pkgs)) == multiset(FilesOf(pkgs')) && OrderDecides(env, pkgs)
    ensures |mutants| == |mutants'|
    ensures forall i | 0 <= i < |mutants| :: SameMutation(mutants[i], mutants'[i])
  {
    var all, all', v, v' := Gathered(env, pkgs), Gathered(env', pkgs'), ViewOf(env, pkgs), ViewOf(env', pkgs');
    var s :| IsSortOf(s, all) && mutants == Assembled(v, s);
    var s' :| IsSortOf(s', all') && mutants' == Assembled(v', s');
    FoundPermutes(env, FilesOf(pkgs), env', FilesOf(pkgs'));
    SortedTies(v, s, all);
    SortsShowAlike(v, s, s');
    forall c ensures v.groupOf(c) == v'.groupOf(c) { SameGroup(env, pkgs, env', pkgs', c); }
    SameNames(v, v', s');
  }

  /** Not so their report paths: the prefix starts from the first package. */
  lemma RelFilesDependOnOrder()
    ensures CommonPrefix(["m/foo", "m/foobar"]) != CommonPrefix(["m/foobar", "m/foo"])
  {
    var a, b := ["m/foo", "m/foobar"], ["m/foobar", "m/foo"];
    assert a[..1] == ["m/foo"] && b[..1] == ["m/foobar"];
    assert HasPrefix(a[1], a[0]);
    assert CommonPrefix(a) == a[0];
    assert CommonPrefix(b) == Shrink(b[0], b[1]);
    assert !HasPrefix(b[1], b[0]);
    CommonPrefixIsLongest(b);
    assert HasPrefix(b[1], CommonPrefix(b));
    assert IsCut(b[0], CommonPrefix(b));
    assert b[0][5] == 'b';
  }

  lemma {:induction false} CountGrows<T>(s: seq<T>, i: nat, j: nat, x: T)
    requires i <= j <= |s|
    ensures Count(s[..i], x) <= Count(s[..j], x)
    decreases j
  {
    if i < j {
      CountSnoc(s, j - 1);
      CountGrows(s, i, j - 1, x);
    }
  }

  /** Of one group the later has the higher ordinal. */
  lemma OrdinalsGrow<T>(s: seq<T>, i: nat, j: nat)
    requires i < j < |s| && s[i] == s[j]
    ensures Ordinal(s, i) < Ordinal(s, j)
  {
    CountSnoc(s, j);
    CountGrows(s, i + 1, j, s[i]);
  }

  /** In each group the ordinals are 1 to the size of the group: with the lemma above, each once and in order. */
  lemma {:induction false} OrdinalsCount<T>(s: seq<T>, x: T, ordinal: nat) returns (i: nat)
    requires 1 <= ordinal <= Count(s, x)
    ensures i < |s| && s[i] == x && Ordinal(s, i) == ordinal
  {
    var n := |s| - 1;
    assert s[..n + 1] == s;
    if ordinal <= Count(s[..n], x) {
      i := OrdinalsCount(s[..n], x, ordinal);
      assert s[..n][..i + 1] == s[..i + 1];
    } else {
      i := n;
    }
  }

  lemma AnchorIsPlain(spans: seq<Span>, offset: int)
    requires forall k | 0 <= k < |spans| :: ':' !in spans[k].name
    ensures ':' !in AnchorAt(spans, offset)
  {
    if spans != [] { AnchorIsPlain(spans[1..], offset); }
  }

  lemma GroupIsSeparable(env: Env, pkgs: seq<Package>, c: Candidate)
    requires GoodEnv(env) && c in Gathered(env, pkgs)
    ensures Separable(GroupOf(env, FilesOf(pkgs), c))
  {
    var path := FoundFrom(env, FilesOf(pkgs), c);
    assert GoodSource(env.parse(path)) && GoodSource(env.parse(c.file));
    if env.parse(c.file).Parsed? { AnchorsPlain(env.parse(c.file).decls); }
    AnchorIsPlain(SpansIn(env, FilesOf(pkgs), c.file), c.offset);
  }

  lemma {:induction false} AnchorsPlain(decls: seq<Decl>)
    requires forall d | d in decls :: PlainDecl(d)
    ensures forall k | 0 <= k < |FuncSpans(decls)| :: ':' !in FuncSpans(decls)[k].name
  {
    if decls != [] {
      var front, last := decls[..|decls| - 1], decls[|decls| - 1];
      assert forall d | d in front :: d in decls;
      AnchorsPlain(front);
      if last.FuncDecl? { FuncNameIsPlain(last); }
    }
  }

  lemma AssembledDistinct(v: View, s: seq<Candidate>)
    requires forall c | c in s :: Separable(v.groupOf(c))
    ensures forall i, j | 0 <= i < j < |Assembled(v, s)| :: Assembled(v, s)[i].stableId != Assembled(v, s)[j].stableId
  {
    var groups, mutants := GroupsOf(v, s), Assembled(v, s);
    forall i, j | 0 <= i < j < |s| ensures mutants[i].stableId != mutants[j].stableId {
      var g, n, g', n' := groups[i], Ordinal(groups, i), groups[j], Ordinal(groups, j);
      AssembledAt(v, s, i);
      AssembledAt(v, s, j);
      if g == g' { OrdinalsGrow(groups, i, j); }
      if Render(g, n) == Render(g', n') { RenderInjective(g, n, g', n'); }
    }
  }

  /** No two mutants of a run have one stable ID. */
  lemma StableIdsDistinct(env: Env, pkgs: seq<Package>, mutants: seq<Mutant>)
    requires GoodEnv(env) && IsDiscovery(env, pkgs, mutants)
    ensures forall i, j | 0 <= i < j < |mutants| :: mutants[i].stableId != mutants[j].stableId
  {
    var all, v := Gathered(env, pkgs), ViewOf(env, pkgs);
    var s :| IsSortOf(s, all) && mutants == Assembled(v, s);
    forall c | c in s ensures Separable(v.groupOf(c)) {
      assert c in multiset(s);
      GroupIsSeparable(env, pkgs, c);
    }
    AssembledDistinct(v, s);
  }

  // ----- what a mutant says of its candidate -----

  /** Some package of the run lists the file. */
  ghost predicate ListedBy(p: Package, path: string) {
    Names(p.dir, p.goFiles, path)
  }

  ghost predicate Names(dir: string, names: seq<string>, path: string) {
    exists name | name in names :: path == Join(dir, name)
  }

  lemma {:induction false} FilesInMeans(dir: string, names: seq<string>)
    ensures forall path :: path in FilesIn(dir, names) <==> Names(dir, names, path)
  {
    if names != [] {
      var front, last := names[..|names| - 1], names[|names| - 1];
      FilesInMeans(dir, front);
      assert names == front + [last];
      forall path ensures Names(dir, names, path) <==> Names(dir, front, path) || path == Join(dir, last) {
        assert last in names;
        if Names(dir, front, path) {
          var name :| name in front && path == Join(dir, name);
          assert name in names;
        }
      }
    }
  }

  /** Of the packages that list a file, the last. */
  ghost predicate LastLists(pkgs: seq<Package>, k: nat, path: string) {
    k < |pkgs| && ListedBy(pkgs[k], path) && forall j | k < j < |pkgs| :: !ListedBy(pkgs[j], path)
  }

  /** The package of a file is the last of the run that lists it, and "" of a file none lists. */
  lemma {:induction false} PackageOfMeans(pkgs: seq<Package>, path: string)
    ensures forall k: nat | LastLists(pkgs, k, path) :: pkgs[k].importPath == PackageOf(pkgs, path)
    ensures (exists p | p in pkgs :: ListedBy(p, path)) ==> exists k: nat :: LastLists(pkgs, k, path)
    ensures (forall p | p in pkgs :: !ListedBy(p, path)) ==> PackageOf(pkgs, path) == ""
  {
    if pkgs != [] {
      var n := |pkgs| - 1;
      var front, last := pkgs[..n], pkgs[n];
      PackageOfMeans(front, path);
      FilesInMeans(last.dir, last.goFiles);
      assert path in FilesIn(last.dir, last.goFiles) <==> ListedBy(last, path);
      assert pkgs == front + [last] && last in pkgs;
      if ListedBy(last, path) {
        assert LastLists(pkgs, n, path);
      } else {
        assert forall k: nat :: LastLists(pkgs, k, path) <==> LastLists(front, k, path);
        assert forall p :: p in pkgs && ListedBy(p, path) <==> p in front && ListedBy(p, path);
      }
    }
  }

  lemma {:induction false} FilesOfMeans(pkgs: seq<Package>)
    ensures forall path :: path in FilesOf(pkgs) <==> exists p | p in pkgs :: ListedBy(p, path)
  {
    if pkgs != [] {
      var front, last := pkgs[..|pkgs| - 1], pkgs[|pkgs| - 1];
      FilesOfMeans(front);
      FilesInMeans(last.dir, last.goFiles);
      assert pkgs == front + [last];
      forall path ensures (exists p | p in pkgs :: ListedBy(p, path)) <==>
        (exists p | p in front :: ListedBy(p, path)) || ListedBy(last, path)
      {
        if ListedBy(last, path) { assert last in pkgs; }
        if p :| p in front && ListedBy(p, path) { assert p in pkgs; }
      }
    }
  }

  /** What is gathered is what the mutators find in the files the packages list, of those that parse. */
  lemma GatheredMeans(env: Env, pkgs: seq<Package>, c: Candidate)
    ensures c in Gathered(env, pkgs) <==>
      exists p, name | p in pkgs && name in p.goFiles :: env.parse(Join(p.dir, name)).Parsed? && c in env.parse(Join(p.dir, name)).found
  {
    FilesOfMeans(pkgs);
    if c in Gathered(env, pkgs) {
      var path := FoundFrom(env, FilesOf(pkgs), c);
      var p :| p in pkgs && ListedBy(p, path);
      var name :| name in p.goFiles && path == Join(p.dir, name);
    }
    if p, name :| p in pkgs && name in p.goFiles && env.parse(Join(p.dir, name)).Parsed? && c in env.parse(Join(p.dir, name)).found {
      assert ListedBy(p, Join(p.dir, name));
      FoundIsGathered(env, FilesOf(pkgs), Join(p.dir, name), c);
    }
  }

  lemma AssembledFields(v: View, s: seq<Candidate>, i: nat)
    requires i < |s|
    ensures |Assembled(v, s)| == |s|
    ensures var m, c := Assembled(v, s)[i], s[i];
      && m.file == c.file && m.line == c.line && m.col == c.col && m.typ == c.typ
      && m.original == c.original && m.replacement == c.replacement
      && m.startOffset == c.startOffset && m.endOffset == c.endOffset
      && m.id == i + 1 && m.status == Pending && m.duration == 0 && !m.fromCache && !m.rechecked
      && m.pkg == v.packageOf(c.file) && m.coverageFile == m.pkg + "/" + Base(m.file)
      && m.stableId == Render(v.groupOf(c), Ordinal(GroupsOf(v, s), i))
  {
    AssembledAt(v, s, i);
  }

  /** A mutant is its candidate: numbered by its place, still to be tested, of the package that lists its file. */
  lemma DiscoveryMeans(env: Env, pkgs: seq<Package>, mutants: seq<Mutant>) returns (s: seq<Candidate>)
    requires IsDiscovery(env, pkgs, mutants)
    ensures |s| == |mutants| && multiset(s) == multiset(Gathered(env, pkgs))
    ensures forall i | 0 <= i < |s| ::
      var m, c := mutants[i], s[i];
      && m.file == c.file && m.line == c.line && m.col == c.col && m.typ == c.typ
      && m.original == c.original && m.replacement == c.replacement
      && m.startOffset == c.startOffset && m.endOffset == c.endOffset
    ensures forall i | 0 <= i < |mutants| ::
      var m := mutants[i];
      m.id == i + 1 && m.status == Pending && m.duration == 0 && !m.fromCache && !m.rechecked
  {
    var v := ViewOf(env, pkgs);
    s :| IsSortOf(s, Gathered(env, pkgs)) && mutants == Assembled(v, s);
    forall i | 0 <= i < |s|
      ensures var m, c := mutants[i], s[i];
        && m.file == c.file && m.line == c.line && m.col == c.col && m.typ == c.typ
        && m.original == c.original && m.replacement == c.replacement
        && m.startOffset == c.startOffset && m.endOffset == c.endOffset
        && m.id == i + 1 && m.status == Pending && m.duration == 0 && !m.fromCache && !m.rechecked
    {
      AssembledFields(v, s, i);
    }
  }

  /** A mutant is of the last package that lists its file; its coverage is looked up under that package. */
  lemma MutantsPackage(env: Env, pkgs: seq<Package>, mutants: seq<Mutant>, m: Mutant)
    requires IsDiscovery(env, pkgs, mutants) && m in mutants
    ensures forall k: nat | LastLists(pkgs, k, m.file) :: m.pkg == pkgs[k].importPath
    ensures (exists p | p in pkgs :: ListedBy(p, m.file)) ==> exists k: nat :: LastLists(pkgs, k, m.file)
    ensures (forall p | p in pkgs :: !ListedBy(p, m.file)) ==> m.pkg == ""
    ensures m.coverageFile == m.pkg + "/" + Base(m.file) && (m.pkg != "" && m.pkg != "/" ==> Dir(m.coverageFile) == m.pkg)
  {
    var v := ViewOf(env, pkgs);
    var s :| IsSortOf(s, Gathered(env, pkgs)) && mutants == Assembled(v, s);
    var i :| 0 <= i < |mutants| && mutants[i] == m;
    AssembledFields(v, s, i);
    PackageOfMeans(pkgs, m.file);
    if m.pkg != "" && m.pkg != "/" { DirBaseOfJoin(m.pkg, Base(m.file)); }
  }

  /**
   A mutant's report path is its package less what all packages share, a slash in front left out, and the file's base
   name; where its package does not have the shared part in front, or nothing is shared, it is the path from the root.
   */
  lemma MutantsReportPath(env: Env, pkgs: seq<Package>, mutants: seq<Mutant>, m: Mutant) returns (shared: string)
    requires IsDiscovery(env, pkgs, mutants) && m in mutants && pkgs != []
    ensures IsLongestCut(ImportPaths(pkgs), shared)
    ensures shared == "" || !(shared <= m.pkg) ==> m.relFile == env.rel(m.file)
    ensures shared != "" && (m.pkg == shared || m.pkg == shared + "/") ==> m.relFile == Base(m.file)
    ensures forall sub | shared != "" && sub != "" && m.pkg == shared + "/" + sub :: m.relFile == sub + "/" + Base(m.file)
    ensures forall sub | shared != "" && sub != "" && sub[0] != '/' && m.pkg == shared + sub :: m.relFile == sub + "/" + Base(m.file)
  {
    var v := ViewOf(env, pkgs);
    var s :| IsSortOf(s, Gathered(env, pkgs)) && mutants == Assembled(v, s);
    var i :| 0 <= i < |mutants| && mutants[i] == m;
    AssembledAt(v, s, i);
    shared := CommonPrefix(ImportPaths(pkgs));
    CommonPrefixIsLongest(ImportPaths(pkgs));
    RelFileMeans(shared, m.pkg, m.file, env.rel(m.file));
  }

  /** The functions a run knows around a candidate are those of its file, if the run has parsed it. */
  ghost predicate Around(env: Env, pkgs: seq<Package>, c: Candidate, span: Span) {
    && env.parse(c.file).Parsed? && (exists p | p in pkgs :: ListedBy(p, c.file))
    && span in FuncSpans(env.parse(c.file).decls) && span.start <= c.offset < span.end
  }

  lemma AnchorIsAround(env: Env, pkgs: seq<Package>, c: Candidate)
    requires GoodEnv(env)
    ensures var anchor := AnchorAt(SpansIn(env, FilesOf(pkgs), c.file), c.offset);
      && (forall span | Around(env, pkgs, c, span) :: anchor == span.name)
      && ((forall span :: !Around(env, pkgs, c, span)) ==> anchor == "")
  {
    var spans := SpansIn(env, FilesOf(pkgs), c.file);
    FilesOfMeans(pkgs);
    forall span | Around(env, pkgs, c, span) ensures AnchorAt(spans, c.offset) == span.name {
      var k :| 0 <= k < |spans| && spans[k] == span;
      SpanIsAnchor(env, FilesOf(pkgs), c, k);
    }
    if forall span :: !Around(env, pkgs, c, span) {
      forall k | 0 <= k < |spans| ensures !Contains(spans[k], c.offset) {
        assert !Around(env, pkgs, c, spans[k]);
      }
      AnchorAtNone(spans, c.offset);
    }
  }

  /** Which one of its kind the candidate at `i` is: those up to it of the same segment, anchor and type, itself included. */
  ghost function Rank(env: Env, s: seq<Candidate>, anchors: seq<string>, i: nat): nat
    requires i < |s| == |anchors|
  {
    |set j: nat | j <= i && env.segment(s[j].file) == env.segment(s[i].file) && anchors[j] == anchors[i] && s[j].typ == s[i].typ|
  }

  /** A stable ID names the file's segment, the function around the candidate, its type, and which one of those it is. */
  lemma StableIdMeans(env: Env, pkgs: seq<Package>, mutants: seq<Mutant>) returns (s: seq<Candidate>, anchors: seq<string>)
    requires GoodEnv(env) && IsDiscovery(env, pkgs, mutants)
    ensures |s| == |anchors| == |mutants| && multiset(s) == multiset(Gathered(env, pkgs))
    ensures forall i, span | 0 <= i < |s| && Around(env, pkgs, s[i], span) :: anchors[i] == span.name
    ensures forall i | 0 <= i < |s| && (forall span :: !Around(env, pkgs, s[i], span)) :: anchors[i] == ""
    ensures forall i | 0 <= i < |mutants| ::
      mutants[i].stableId
        == env.segment(s[i].file) + ":" + anchors[i] + ":" + s[i].typ + "#" + Decimal(Rank(env, s, anchors, i))
  {
    var v := ViewOf(env, pkgs);
    s :| IsSortOf(s, Gathered(env, pkgs)) && mutants == Assembled(v, s);
    anchors := AnchorsOf(env, pkgs, s);
    forall i | 0 <= i < |mutants|
      ensures mutants[i].stableId
        == env.segment(s[i].file) + ":" + anchors[i] + ":" + s[i].typ + "#" + Decimal(Rank(env, s, anchors, i))
    {
      IdIs(env, pkgs, s, anchors, i);
    }
  }

  /** The anchors of the candidates, each the name of the function around it. */
  lemma AnchorsOf(env: Env, pkgs: seq<Package>, s: seq<Candidate>) returns (anchors: seq<string>)
    requires GoodEnv(env)
    ensures |anchors| == |s|
    ensures forall i | 0 <= i < |s| :: anchors[i] == AnchorAt(SpansIn(env, FilesOf(pkgs), s[i].file), s[i].offset)
    ensures forall i, span | 0 <= i < |s| && Around(env, pkgs, s[i], span) :: anchors[i] == span.name
    ensures forall i | 0 <= i < |s| && (forall span :: !Around(env, pkgs, s[i], span)) :: anchors[i] == ""
  {
    anchors := seq(|s|, i requires 0 <= i < |s| => AnchorAt(SpansIn(env, FilesOf(pkgs), s[i].file), s[i].offset));
    forall i | 0 <= i < |s|
      ensures forall span | Around(env, pkgs, s[i], span) :: anchors[i] == span.name
      ensures (forall span :: !Around(env, pkgs, s[i], span)) ==> anchors[i] == ""
    {
      AnchorIsAround(env, pkgs, s[i]);
    }
  }

  lemma OrdinalIsRank(env: Env, pkgs: seq<Package>, s: seq<Candidate>, anchors: seq<string>, i: nat)
    requires i < |s| == |anchors|
    requires forall j | 0 <= j < |s| :: anchors[j] == AnchorAt(SpansIn(env, FilesOf(pkgs), s[j].file), s[j].offset)
    ensures Ordinal(GroupsOf(ViewOf(env, pkgs), s), i) == Rank(env, s, anchors, i)
  {
    var v := ViewOf(env, pkgs);
    var groups := GroupsOf(v, s);
    OrdinalIsCard(groups, i);
    forall j | 0 <= j < |s| ensures groups[j] == Group(env.segment(s[j].file), anchors[j], s[j].typ) {
      assert groups[j] == v.groupOf(s[j]) == GroupOf(env, FilesOf(pkgs), s[j]);
    }
    var alike := set j: nat | j <= i && env.segment(s[j].file) == env.segment(s[i].file) && anchors[j] == anchors[i] && s[j].typ == s[i].typ;
    assert UpTo(groups, i) == alike;
  }

  lemma IdIs(env: Env, pkgs: seq<Package>, s: seq<Candidate>, anchors: seq<string>, i: nat)
    requires i < |s| == |anchors|
    requires forall j | 0 <= j < |s| :: anchors[j] == AnchorAt(SpansIn(env, FilesOf(pkgs), s[j].file), s[j].offset)
    ensures |Assembled(ViewOf(env, pkgs), s)| == |s|
    ensures Assembled(ViewOf(env, pkgs), s)[i].stableId
      == env.segment(s[i].file) + ":" + anchors[i] + ":" + s[i].typ + "#" + Decimal(Rank(env, s, anchors, i))
  {
    OrdinalIsRank(env, pkgs, s, anchors, i);
    AssembledFields(ViewOf(env, pkgs), s, i);
  }

  lemma SpanIsAnchor(env: Env, paths: seq<string>, c: Candidate, k: nat)
    requires GoodEnv(env) && k < |SpansIn(env, paths, c.file)|
    ensures var span := SpansIn(env, paths, c.file)[k];
      span.start <= c.offset < span.end ==> AnchorAt(SpansIn(env, paths, c.file), c.offset) == span.name
  {
    var spans := SpansIn(env, paths, c.file);
    assert GoodSource(env.parse(c.file));
    if spans[k].start <= c.offset < spans[k].end { AnchorAtIsTheOne(spans, k, c.offset); }
  }

  lemma {:induction false} CountIsCard<T>(s: seq<T>, x: T)
    ensures Count(s, x) == |set j: nat | j < |s| && s[j] == x|
  {
    var all := set j: nat | j < |s| && s[j] == x;
    if s == [] {
      assert all == {};
    } else {
      var n := |s| - 1;
      var front := s[..n];
      CountIsCard(front, x);
      var before := set j: nat | j < |front| && front[j] == x;
      assert all == if s[n] == x then before + {n} else before;
    }
  }

  ghost function UpTo<T>(s: seq<T>, i: nat): set<nat>
    requires i < |s|
  {
    set j: nat | j <= i && s[j] == s[i]
  }

  lemma OrdinalIsCard<T>(s: seq<T>, i: nat)
    requires i < |s|
    ensures Ordinal(s, i) == |UpTo(s, i)|
  {
    var front := s[..i + 1];
    CountIsCard(front, s[i]);
    assert UpTo(s, i) == set j: nat | j < |front| && front[j] == s[i];
  }

  /** By file, line, column, type, end and replacement, each only where those in front are the same. */
  lemma DiscoveryIsInOrder(env: Env, pkgs: seq<Package>, mutants: seq<Mutant>, i: nat, j: nat)
    requires IsDiscovery(env, pkgs, mutants) && i < j < |mutants|
    ensures var a, b := mutants[i], mutants[j];
      StrLess(a.file, b.file) || (a.file == b.file
        && (a.line < b.line || (a.line == b.line
        && (a.col < b.col || (a.col == b.col
        && (StrLess(a.typ, b.typ) || (a.typ == b.typ
        && (a.endOffset < b.endOffset || (a.endOffset == b.endOffset && (StrLess(a.replacement, b.replacement) || a.replacement == b.replacement))))))))))
  {
    var v := ViewOf(env, pkgs);
    var s :| IsSortOf(s, Gathered(env, pkgs)) && mutants == Assembled(v, s);
    AssembledAt(v, s, i);
    AssembledAt(v, s, j);
    var x: Candidate, y: Candidate := s[i], s[j];
    assert !CandidateLess(y, x);
    StrLessTotal(x.file, y.file);
    StrLessTotal(x.typ, y.typ);
    StrLessTotal(x.replacement, y.replacement);
    StrLessIsStrictTotal();
  }
}
