/**
 The cache over whole histories: any sequence of runs, complete or killed, over a source tree edited in between.
 A verdict is what an oracle says of the mutant and of the files the cache's key covers.
 */
module CacheHistory {
  import opened Text
  import opened Ordering
  import opened Framing
  import opened Mutants
  import opened Hashing
  import opened Cache

  // ----- the file -----

  /** The fields `Load` compares before it uses a file at all. */
  datatype Identity = Identity(
    schemaVersion: int,
    goModule: string,
    toolVersion: string,
    buildTags: string,
    testFlags: string,
    goToolchain: string)

  /** What the cache path holds: nothing that parses, or a cache. */
  datatype CacheFile = Absent | Written(id: Identity, entries: seq<Entry>)

  function Load(file: CacheFile, id: Identity): seq<Entry> {
    if file.Written? && file.id == id then file.entries else []
  }

  // ----- the oracle -----

  /** The contents the key covers, file by file: each digest stands for the bytes it is the digest of. */
  datatype Facts = Facts(
    prod: Read<string>,
    files: Read<seq<Input>>,
    embeds: Read<seq<Input>>,
    tests: Read<seq<Input>>)

  datatype Result = Kill | Survive | Expire | Fail

  /** A mutant either compiles, which no test file decides, and then has a result; TCE compares what compiled. */
  datatype Oracle = Oracle(
    viable: (Identity, Key, Read<string>, Read<seq<Input>>, Read<seq<Input>>) -> bool,
    result: (Identity, Key, Facts) -> Result,
    equivalent: (Identity, Key, Read<string>, Read<seq<Input>>, Read<seq<Input>>) -> bool)

  function Verdict(o: Oracle, id: Identity, k: Key, f: Facts): Status {
    if !o.viable(id, k, f.prod, f.files, f.embeds) then NotViable
    else
      match o.result(id, k, f)
      case Kill => Killed
      case Survive => Lived
      case Expire => TimedOut
      case Fail => InfraError
  }

  function Detected(o: Oracle, id: Identity, k: Key, f: Facts, s: Status): Status {
    if s == Lived && o.equivalent(id, k, f.prod, f.files, f.embeds) then Equivalent else s
  }

  /** Whether `s` is a true thing to say of a mutant: an equivalent one may be called a survivor. */
  predicate TrueOf(o: Oracle, id: Identity, k: Key, f: Facts, s: Status) {
    s == Verdict(o, id, k, f) || s == Detected(o, id, k, f, Verdict(o, id, k, f))
  }

  // ----- what a world shows the oracle -----

  function PkgFiles(w: World, dir: string): Read<seq<Input>> {
    match w.host.list(dir)
    case Ok(names) => Inputs(w.host, w.memo, PkgSources(dir, names))
    case NotExist => NotExist
    case Unreadable => Unreadable
  }

  function FactsOf(w: World, m: Mutant): Facts {
    var dir := Dir(m.file);
    Facts(Prod(w, m),
          PkgFiles(w, dir),
          Inputs(w.host, w.memo, EmbedSources(w.memo, dir)),
          Inputs(w.host, w.memo, TestSources(w.testFiles(m))))
  }

  /** Directories list distinct plain names; a source of the directory that it embeds is among them. */
  ghost predicate GoodListing(h: Host, m: Memo, dir: string) {
    dir != "" && (h.list(dir).Ok? ==>
      && Distinct(h.list(dir).value)
      && (forall name | name in h.list(dir).value :: '/' !in name)
      && (dir in m.embeds ==> forall rel | rel in m.embeds[dir] && IsSourceName(rel) :: rel in h.list(dir).value))
  }

  /** A run hashes collision-free, from a snapshot no directory of which is memoised yet. */
  ghost predicate GoodWorld(w: World, sha: string -> string) {
    && w.host.sha == sha && IsHash(sha)
    && WellformedMemo(w.memo) && w.memo.dirs == map[]
  }

  /** The same mutant but for what happens to it. */
  ghost predicate SameMutant(m: Mutant, m': Mutant) {
    m' == m.(status := m'.status, duration := m'.duration, fromCache := m'.fromCache, rechecked := m'.rechecked)
  }

  /** The test files a mutant's verdict rests on do not depend on what happened to it. */
  ghost predicate StableTests(w: World) {
    forall m, m' | SameMutant(m, m') :: w.testFiles(m') == w.testFiles(m)
  }

  ghost predicate PlainNames(names: seq<string>) {
    forall name | name in names :: '/' !in name
  }

  lemma {:induction false} SourcePathsListed(dir: string, names: seq<string>)
    requires dir != "" && PlainNames(names)
    ensures forall p | p in SourcePaths(dir, names) :: Base(p) in names && IsGoSource(Base(p)) && p == Join(dir, Base(p))
    ensures forall name | name in names && IsGoSource(name) :: Join(dir, name) in SourcePaths(dir, names)
  {
    if names != [] {
      var n := |names| - 1;
      SourcePathsListed(dir, names[..n]);
      DirBaseOfJoin(dir, names[n]);
      assert names == names[..n] + [names[n]];
    }
  }

  lemma {:induction false} SourcePathsDistinct(dir: string, names: seq<string>)
    requires dir != "" && PlainNames(names) && Distinct(names)
    ensures Distinct(SourcePaths(dir, names))
  {
    if names != [] {
      var rest, name := names[..|names| - 1], names[|names| - 1];
      var front := SourcePaths(dir, rest);
      SourcePathsDistinct(dir, rest);
      assert Join(dir, name) !in front by {
        SourcePathsListed(dir, rest);
        DirBaseOfJoin(dir, name);
      }
      DistinctSnoc(front, Join(dir, name));
    }
  }

  /** The source frames of a package, read against its listing. */
  lemma SourceFrames(h: Host, m: Memo, dir: string)
    requires GoodListing(h, m, dir) && h.list(dir).Ok?
    requires Inputs(h, m, PkgSources(dir, h.list(dir).value)).Ok?
    ensures var names, files := h.list(dir).value, Inputs(h, m, PkgSources(dir, h.list(dir).value)).value;
      && DistinctNames(files)
      && (forall f | f in files :: IsSourceName(f.name))
      && (forall name | name in names && IsGoSource(name) :: Mentions(files, name))
  {
    var names := h.list(dir).value;
    var paths, sources := SourcePaths(dir, names), PkgSources(dir, names);
    var sorted, files := Sort(paths, StrLess), Inputs(h, m, PkgSources(dir, names)).value;
    SourcePathsListed(dir, names);
    SourcePathsDistinct(dir, names);
    DistinctPermutation(paths, sorted);
    forall p ensures p in sorted <==> p in paths {
      assert p in multiset(sorted) <==> p in multiset(paths);
    }
    forall i | 0 <= i < |files| ensures files[i].name == Base(sorted[i]) {
      InputsAt(h, m, sources, i);
    }
    FramesByBase(sorted, files);
    forall name | name in names && IsGoSource(name) ensures Mentions(files, name) {
      DirBaseOfJoin(dir, name);
      var j :| 0 <= j < |sorted| && sorted[j] == Join(dir, name);
      assert files[j].name == name;
    }
  }

  lemma FramesByBase(sorted: seq<string>, files: seq<Input>)
    requires Distinct(sorted) && |files| == |sorted|
    requires forall i | 0 <= i < |files| :: files[i].name == Base(sorted[i])
    requires forall p | p in sorted :: IsGoSource(Base(p))
    requires forall p, q | p in sorted && q in sorted && Base(p) == Base(q) :: p == q
    ensures DistinctNames(files)
    ensures forall f | f in files :: IsSourceName(f.name)
  {
    forall i, j | 0 <= i < j < |files| ensures files[i].name != files[j].name {
      assert sorted[i] in sorted && sorted[j] in sorted && sorted[i] != sorted[j];
    }
    forall f | f in files ensures IsSourceName(f.name) {
      var i :| 0 <= i < |files| && files[i] == f;
      assert sorted[i] in sorted;
    }
  }

  /** The frames of a package satisfy what makes its stream readable. */
  lemma PackageIsListing(w: World, sha: string -> string, dir: string)
    requires GoodWorld(w, sha) && GoodListing(w.host, w.memo, dir)
    requires PkgFiles(w, dir).Ok? && Inputs(w.host, w.memo, EmbedSources(w.memo, dir)).Ok?
    ensures PkgListing(PkgFiles(w, dir).value, Inputs(w.host, w.memo, EmbedSources(w.memo, dir)).value)
  {
    var h, m := w.host, w.memo;
    var embeds := EmbedSources(m, dir);
    var files, frames := PkgFiles(w, dir).value, Inputs(h, m, embeds).value;
    SourceFrames(h, m, dir);
    InputsWellformed(h, m, PkgSources(dir, h.list(dir).value));
    InputsWellformed(h, m, embeds);
    forall f | f in frames && IsSourceName(f.name) ensures Mentions(files, f.name) {
      var i :| 0 <= i < |frames| && frames[i] == f;
      InputsAt(h, m, embeds, i);
      SortedSetElements(m.embeds[dir]);
      assert f.name == embeds[i].name && f.name in m.embeds[dir];
    }
  }

  // ----- the invariant: every entry was once true -----

  /** The facts an entry's digests are the digests of. */
  ghost predicate Describes(sha: string -> string, e: Entry, f: Facts) {
    && f.prod == Ok(e.prodHash)
    && f.files.Ok? && f.embeds.Ok? && PkgListing(f.files.value, f.embeds.value)
    && e.pkgHash == sha(PkgStream(f.files.value, f.embeds.value))
    && (NeedsTestsHash(ParseStatus(e.status)) && e.testsHash != "" ==>
          f.tests.Ok? && Wellformed(f.tests.value) && e.testsHash == sha(TestStream(f.tests.value)))
  }

  /** An entry is true when its status was true of a mutant with its key over files with exactly its digests. */
  ghost predicate TrueEntry(o: Oracle, sha: string -> string, id: Identity, e: Entry) {
    CanReuse(ParseStatus(e.status)) ==>
      exists f :: Describes(sha, e, f) && TrueOf(o, id, e.key, f, ParseStatus(e.status))
  }

  lemma PkgDigestIsStream(w: World, sha: string -> string, dir: string)
    requires GoodWorld(w, sha) && PkgDigest(w.host, w.memo, dir).Ok?
    ensures var files, embeds := PkgFiles(w, dir), Inputs(w.host, w.memo, EmbedSources(w.memo, dir));
      files.Ok? && embeds.Ok? && PkgDigest(w.host, w.memo, dir) == Ok(sha(PkgStream(files.value, embeds.value)))
  {
    var files, embeds := PkgFiles(w, dir), Inputs(w.host, w.memo, EmbedSources(w.memo, dir));
    var names := w.host.list(dir).value;
    assert PkgWritten(w.host, w.memo, dir, names).Ok?;
    assert "" + Frames(files.value, "") == Frames(files.value, "");
    FramesAppend(files.value, Frames(embeds.value, ""));
  }

  lemma TestsDigestIsStream(w: World, sha: string -> string, m: Mutant)
    requires GoodWorld(w, sha) && Tests(w, m).Ok?
    ensures FactsOf(w, m).tests.Ok? && Wellformed(FactsOf(w, m).tests.value)
    ensures Tests(w, m) == Ok(sha(TestStream(FactsOf(w, m).tests.value)))
  {
    var sources := TestSources(w.testFiles(m));
    InputsWellformed(w.host, w.memo, sources);
    var out := Frames(Inputs(w.host, w.memo, sources).value, "");
    assert "" + out == out;
  }

  /** An equal package digest is the digest of an equal package. */
  lemma SamePackage(sha: string -> string, w: World, dir: string, files: seq<Input>, embeds: seq<Input>)
    requires GoodWorld(w, sha) && GoodListing(w.host, w.memo, dir) && PkgListing(files, embeds)
    requires PkgDigest(w.host, w.memo, dir) == Ok(sha(PkgStream(files, embeds)))
    ensures PkgFiles(w, dir) == Ok(files) && Inputs(w.host, w.memo, EmbedSources(w.memo, dir)) == Ok(embeds)
  {
    PkgDigestIsStream(w, sha, dir);
    PackageIsListing(w, sha, dir);
    var files', embeds' := PkgFiles(w, dir).value, Inputs(w.host, w.memo, EmbedSources(w.memo, dir)).value;
    PkgStreamDecodes(files, embeds, files', embeds');
  }

  /** An equal tests digest is the digest of equal test files. */
  lemma SameTests(sha: string -> string, w: World, m: Mutant, tests: seq<Input>)
    requires GoodWorld(w, sha) && Wellformed(tests)
    requires Tests(w, m) == Ok(sha(TestStream(tests)))
    ensures FactsOf(w, m).tests == Ok(tests)
  {
    TestsDigestIsStream(w, sha, m);
    TestStreamDecodes(tests, FactsOf(w, m).tests.value);
  }

  /** Digests that match an entry's are digests of the files it was recorded over, so what it says is true here. */
  lemma MatchIsTrue(o: Oracle, sha: string -> string, id: Identity, w: World, m: Mutant, e: Entry)
    requires GoodWorld(w, sha) && GoodListing(w.host, w.memo, Dir(m.file))
    requires TrueEntry(o, sha, id, e) && Matches(w, m, e)
    ensures TrueOf(o, id, e.key, FactsOf(w, m), ParseStatus(e.status))
  {
    var s, g := ParseStatus(e.status), FactsOf(w, m);
    var f :| Describes(sha, e, f) && TrueOf(o, id, e.key, f, s);
    SamePackage(sha, w, Dir(m.file), f.files.value, f.embeds.value);
    if NeedsTestsHash(s) {
      NoEmptyTestsDigest(sha, w, m, e);
      SameTests(sha, w, m, f.tests.value);
    }
    SameFactsSameTruth(o, id, e.key, f, g, s);
  }

  lemma SameFactsSameTruth(o: Oracle, id: Identity, k: Key, f: Facts, g: Facts, s: Status)
    requires f.prod == g.prod && f.files == g.files && f.embeds == g.embeds
    requires NeedsTestsHash(s) ==> f.tests == g.tests
    requires CanReuse(s) && TrueOf(o, id, k, f, s)
    ensures TrueOf(o, id, k, g, s)
  {
  }

  lemma NoEmptyTestsDigest(sha: string -> string, w: World, m: Mutant, e: Entry)
    requires GoodWorld(w, sha) && Tests(w, m) == Ok(e.testsHash)
    ensures e.testsHash != ""
  {
    TestsDigestIsStream(w, sha, m);
    assert IsDigest(e.testsHash);
  }

  lemma RecordedIsTrue(o: Oracle, sha: string -> string, id: Identity, w: World, m: Mutant)
    requires GoodWorld(w, sha) && GoodListing(w.host, w.memo, Dir(m.file))
    requires Recorded(w, m) && TrueOf(o, id, KeyOf(m), FactsOf(w, m), m.status)
    ensures TrueEntry(o, sha, id, EntryOf(w, m))
  {
    var e, f := EntryOf(w, m), FactsOf(w, m);
    StatusRoundTrip(m.status, "");
    PkgDigestIsStream(w, sha, Dir(m.file));
    PackageIsListing(w, sha, Dir(m.file));
    if NeedsTestsHash(m.status) && Tests(w, m).Ok? {
      TestsDigestIsStream(w, sha, m);
    }
    assert Describes(sha, e, f);
  }

  // ----- what a measurement sees -----

  /** Of the frozen sources a measurement compiles the mutated file; all else it reads from disk. */
  function FrozenFile(src: map<string, string>, file: string): map<string, string> {
    if file in src then map[file := src[file]] else map[]
  }

  /** The contents the key covers, as a measurement of the mutant on disk `h` finds them. */
  function Measured(w: World, h: Host, m: Mutant): Facts {
    FactsOf(World(h, Memo(map[], map[], FrozenFile(w.memo.src, m.file), w.memo.embeds), w.testFiles, w.projectDir), m)
  }

  /** What compiling reads. */
  predicate SameBuild(f: Facts, g: Facts) {
    f.prod == g.prod && f.files == g.files && f.embeds == g.embeds
  }

  // ----- runs -----

  /** A checkpoint: the disk as its update's digests show it, and the mutants as it finds them. */
  datatype Flush = Flush(world: World, slice: seq<Mutant>)

  /**
   One run: the lookup, unless `--run-mutant-id` skips it, then the tests and the equivalence pass, with an update at
   each of `flushes`, whose last landed save is the one after the first `landed` of them. `world` is the disk as the
   lookup's digests show it; a mutant is tested on the disk `tested` gives for its number, and checked on `checked`.
   */
  datatype RunOf = RunOf(
    world: World,
    tested: int -> Host,
    checked: int -> Host,
    id: Identity,
    detect: bool,
    oneMutant: bool,
    mutants: seq<Mutant>,
    flushes: seq<Flush>,
    landed: nat)

  /** `demoteEquivalents` for one mutant. */
  function Demoted(m: Mutant): Mutant {
    if m.status == Equivalent then m.(status := Lived) else m
  }

  function DemotedAll(ms: seq<Mutant>): (r: seq<Mutant>)
    ensures |r| == |ms|
  {
    seq(|ms|, i requires 0 <= i < |ms| => Demoted(ms[i]))
  }

  /** `applyCache`: a replayed EQUIVALENT shows as LIVED while detection is off. */
  function Applied(r: RunOf, entries: seq<Entry>): (ms: seq<Mutant>)
    ensures |ms| == |r.mutants|
  {
    if r.oneMutant || Hits(r.world, entries, r.mutants) == 0 then r.mutants
    else
      var looked := LookedUpAll(r.world, entries, r.mutants);
      if r.detect then looked else DemotedAll(looked)
  }

  /** The status once a pending mutant has been tested. */
  function AfterTest(o: Oracle, r: RunOf, m: Mutant): Status {
    if m.status == Pending then Verdict(o, r.id, KeyOf(m), Measured(r.world, r.tested(m.id), m)) else m.status
  }

  function AfterDetection(o: Oracle, r: RunOf, m: Mutant): Status {
    var s := AfterTest(o, r, m);
    if r.detect then Detected(o, r.id, KeyOf(m), Measured(r.world, r.checked(m.id), m), s) else s
  }

  /** A mutant as some checkpoint may find it: not yet tested, tested, or past the equivalence pass. */
  ghost predicate Reaches(o: Oracle, r: RunOf, m: Mutant, m': Mutant) {
    && SameMutant(m, m')
    && (m'.status == m.status || m'.status == AfterTest(o, r, m) || m'.status == AfterDetection(o, r, m))
  }

  ghost predicate Slice(o: Oracle, r: RunOf, ms: seq<Mutant>, slice: seq<Mutant>) {
    |slice| == |ms| && forall i | 0 <= i < |ms| :: Reaches(o, r, ms[i], slice[i])
  }

  ghost predicate GoodPlaces(r: RunOf, sha: string -> string, w: World) {
    && GoodWorld(w, sha) && w.testFiles == r.world.testFiles
    && forall m | m in r.mutants :: GoodListing(w.host, w.memo, Dir(m.file))
  }

  ghost predicate GoodRun(o: Oracle, sha: string -> string, r: RunOf, file: CacheFile) {
    && GoodPlaces(r, sha, r.world) && StableTests(r.world)
    && (forall m | m in r.mutants :: m.status == Pending || m.status == NotCovered)
    && (forall fl | fl in r.flushes :: GoodPlaces(r, sha, fl.world) && Slice(o, r, Applied(r, Load(file, r.id)), fl.slice))
    && r.landed <= |r.flushes|
  }

  /** No file of the mutant's key changed between being hashed for `w` and the mutant being measured. */
  predicate Steady(r: RunOf, w: World, m: Mutant) {
    && Measured(r.world, r.tested(m.id), m) == FactsOf(w, m)
    && (r.detect ==> SameBuild(Measured(r.world, r.checked(m.id), m), FactsOf(w, m)))
  }

  /**
   What a checkpoint records of a mutant is measured on what it hashes, or replayed with digests that have not changed:
   `m` as discovered, `looked` after the lookup.
   */
  predicate Stamped(r: RunOf, w: World, m: Mutant, looked: Mutant) {
    if looked.status == Pending then Steady(r, w, looked)
    else looked.status != m.status ==>
      && Unchanged(r.world, looked, w, looked)
      && (r.detect ==> SameBuild(Measured(r.world, r.checked(m.id), m), FactsOf(w, m)))
  }

  /** So for all a run records. */
  ghost predicate SteadyRun(r: RunOf, file: CacheFile) {
    var looked := Applied(r, Load(file, r.id));
    forall fl, i | fl in r.flushes && 0 <= i < |r.mutants| && i < |fl.slice| && CanReuse(fl.slice[i].status) ::
      Stamped(r, fl.world, r.mutants[i], looked[i])
  }

  ghost function UpdatedThrough(flushes: seq<Flush>, prior: seq<Entry>): seq<Entry> {
    if flushes == [] then prior
    else
      var last := flushes[|flushes| - 1];
      Updated(last.world, last.slice, UpdatedThrough(flushes[..|flushes| - 1], prior))
  }

  ghost function FileAfter(r: RunOf, file: CacheFile): CacheFile {
    if r.landed == 0 || r.landed > |r.flushes| then file
    else Written(r.id, UpdatedThrough(r.flushes[..r.landed], Load(file, r.id)))
  }

  ghost function FileAfterAll(runs: seq<RunOf>): CacheFile {
    if runs == [] then Absent else FileAfter(runs[|runs| - 1], FileAfterAll(runs[..|runs| - 1]))
  }

  ghost predicate GoodHistory(o: Oracle, sha: string -> string, runs: seq<RunOf>) {
    runs != [] ==>
      && GoodHistory(o, sha, runs[..|runs| - 1])
      && GoodRun(o, sha, runs[|runs| - 1], FileAfterAll(runs[..|runs| - 1]))
      && SteadyRun(runs[|runs| - 1], FileAfterAll(runs[..|runs| - 1]))
  }

  ghost predicate TrueEntries(o: Oracle, sha: string -> string, id: Identity, entries: seq<Entry>) {
    forall e | e in entries :: TrueEntry(o, sha, id, e)
  }

  ghost predicate TrueFile(o: Oracle, sha: string -> string, file: CacheFile) {
    file.Written? ==> TrueEntries(o, sha, file.id, file.entries)
  }

  // ----- what a lookup makes of a run's mutants -----

  lemma {:induction false} HitIsCounted(w: World, entries: seq<Entry>, ms: seq<Mutant>, i: nat)
    requires i < |ms| && Hit(w, Index(entries), ms[i])
    ensures Hits(w, entries, ms) > 0
  {
    if i < |ms| - 1 { HitIsCounted(w, entries, ms[..|ms| - 1], i); }
  }

  /** Unless it is skipped, a lookup replays every mutant that has a matching entry: demoted exactly where detection is off. */
  lemma AppliedMeans(r: RunOf, entries: seq<Entry>, i: nat)
    requires i < |r.mutants| && r.mutants[i].status != Equivalent
    ensures r.oneMutant ==> Applied(r, entries)[i] == r.mutants[i]
    ensures !r.oneMutant ==>
      var looked := LookedUp(r.world, entries, r.mutants[i]);
      Applied(r, entries)[i] == if looked.status == Equivalent && !r.detect then looked.(status := Lived) else looked
  {
    if Hit(r.world, Index(entries), r.mutants[i]) { HitIsCounted(r.world, entries, r.mutants, i); }
  }

  /** A mutant with a matching entry is not tested again. */
  lemma MatchedIsReplayed(r: RunOf, entries: seq<Entry>, i: nat, k: nat)
    requires !r.oneMutant && i < |r.mutants| && r.mutants[i].status == Pending
    requires k < |entries| && (forall j | k < j < |entries| :: entries[j].key != entries[k].key) && entries[k].key == KeyOf(r.mutants[i])
    requires FileDigest(r.world.host, r.world.memo, r.mutants[i].file) == Ok(entries[k].prodHash)
    requires PkgDigest(r.world.host, r.world.memo, Dir(r.mutants[i].file)) == Ok(entries[k].pkgHash)
    requires TestsDigest(r.world.host, r.world.memo, r.world.testFiles(r.mutants[i])) == Ok(entries[k].testsHash)
    requires entries[k].status in {"KILLED", "LIVED", "TIMED OUT", "NOT VIABLE", "EQUIVALENT"}
    ensures var a := Applied(r, entries)[i];
      && a.status != Pending && a.fromCache && a.rechecked == entries[k].rechecked
      && StatusString(a.status) == if entries[k].status == "EQUIVALENT" && !r.detect then "LIVED" else entries[k].status
  {
    LookedUpMeans(r.world, entries, r.mutants[i], k);
    AppliedMeans(r, entries, i);
    EquivalentReads(LookedUp(r.world, entries, r.mutants[i]).status);
  }

  lemma EquivalentReads(s: Status)
    ensures StatusString(s) == "EQUIVALENT" <==> s == Equivalent
  {
    match s {
      case Equivalent =>
      case _ => assert StatusString(s)[0] != 'E';
    }
  }

  // ----- the invariant holds -----

  lemma {:induction false} IndexHolds(es: seq<Entry>, k: Key)
    requires k in Index(es)
    ensures Index(es)[k] in es && Index(es)[k].key == k
  {
    var n := |es| - 1;
    if es[n].key != k { IndexHolds(es[..n], k); }
  }

  /** A replay tells the truth in every world in which the digests are those it matched by. */
  lemma ReplayIsTrue(o: Oracle, sha: string -> string, id: Identity, w: World, w': World, entries: seq<Entry>, m: Mutant)
    requires GoodWorld(w', sha) && GoodListing(w'.host, w'.memo, Dir(m.file)) && TrueEntries(o, sha, id, entries)
    requires Hit(w, Index(entries), m)
    requires Unchanged(w, LookedUp(w, entries, m), w', LookedUp(w, entries, m))
    requires w.testFiles(LookedUp(w, entries, m)) == w.testFiles(m) && w'.testFiles == w.testFiles
    ensures TrueOf(o, id, KeyOf(m), FactsOf(w', m), LookedUp(w, entries, m).status)
  {
    var e := Index(entries)[KeyOf(m)];
    IndexHolds(entries, KeyOf(m));
    assert Matches(w', m, e);
    MatchIsTrue(o, sha, id, w', m, e);
  }

  /** What the lookup leaves of a mutant: itself, or a replay, demoted when detection is off. */
  lemma AppliedCases(r: RunOf, entries: seq<Entry>, i: nat)
    requires i < |r.mutants|
    ensures var m, looked, applied := r.mutants[i], LookedUp(r.world, entries, r.mutants[i]), Applied(r, entries)[i];
      && (applied == m || (Hit(r.world, Index(entries), m) && applied == if r.detect then looked else Demoted(looked))
          || (!Hit(r.world, Index(entries), m) && applied == Demoted(m)))
      && SameMutant(m, applied)
  {
  }

  /** A mutant the lookup changed has a status that is true wherever its digests are the same. */
  lemma AppliedIsTrue(o: Oracle, sha: string -> string, r: RunOf, file: CacheFile, i: nat, w: World)
    requires GoodRun(o, sha, r, file) && TrueFile(o, sha, file) && i < |r.mutants| && GoodPlaces(r, sha, w)
    requires var a := Applied(r, Load(file, r.id))[i]; a.status != r.mutants[i].status && Unchanged(r.world, a, w, a)
    ensures var a := Applied(r, Load(file, r.id))[i];
      TrueOf(o, r.id, KeyOf(a), FactsOf(w, a), a.status) && (a.status == Equivalent ==> r.detect)
  {
    var entries, m, a := Load(file, r.id), r.mutants[i], Applied(r, Load(file, r.id))[i];
    var looked := LookedUp(r.world, entries, m);
    assert m in r.mutants;
    AppliedCases(r, entries, i);
    assert SameMutant(m, looked) && SameMutant(looked, a);
    assert r.world.testFiles(looked) == r.world.testFiles(m) && r.world.testFiles(a) == r.world.testFiles(m);
    assert Unchanged(r.world, looked, w, looked);
    ReplayIsTrue(o, sha, r.id, r.world, w, entries, m);
    assert FactsOf(w, a) == FactsOf(w, m);
    DemotedIsTrue(o, r.id, KeyOf(m), FactsOf(w, m), looked);
  }

  lemma DemotedIsTrue(o: Oracle, id: Identity, k: Key, f: Facts, m: Mutant)
    requires TrueOf(o, id, k, f, m.status)
    ensures TrueOf(o, id, k, f, Demoted(m).status)
  {
  }

  /** What testing and detection make of a mutant measured on the facts `f` is true of them. */
  lemma MeasuredIsTrue(o: Oracle, r: RunOf, w: World, m: Mutant, s: Status)
    requires m.status == Pending && Steady(r, w, m) && CanReuse(s)
    requires s == m.status || s == AfterTest(o, r, m) || s == AfterDetection(o, r, m)
    ensures TrueOf(o, r.id, KeyOf(m), FactsOf(w, m), s)
  {
  }

  /** The equivalence pass goes over replayed survivors too. */
  lemma CheckedIsTrue(o: Oracle, r: RunOf, w: World, m: Mutant, s: Status)
    requires m.status != Pending && TrueOf(o, r.id, KeyOf(m), FactsOf(w, m), m.status)
    requires r.detect ==> SameBuild(Measured(r.world, r.checked(m.id), m), FactsOf(w, m))
    requires s == m.status || s == AfterTest(o, r, m) || s == AfterDetection(o, r, m)
    ensures TrueOf(o, r.id, KeyOf(m), FactsOf(w, m), s)
  {
  }

  lemma SliceIsTrue(o: Oracle, sha: string -> string, r: RunOf, file: CacheFile, fl: Flush, i: nat)
    requires GoodRun(o, sha, r, file) && TrueFile(o, sha, file) && SteadyRun(r, file)
    requires fl in r.flushes && i < |fl.slice| && CanReuse(fl.slice[i].status)
    ensures TrueOf(o, r.id, KeyOf(fl.slice[i]), FactsOf(fl.world, fl.slice[i]), fl.slice[i].status)
    ensures GoodListing(fl.world.host, fl.world.memo, Dir(fl.slice[i].file))
  {
    var m, a, s := r.mutants[i], Applied(r, Load(file, r.id))[i], fl.slice[i];
    assert m in r.mutants && Reaches(o, r, a, s) && GoodPlaces(r, sha, fl.world);
    AppliedCases(r, Load(file, r.id), i);
    assert Stamped(r, fl.world, m, a);
    SameFacts(r, fl.world, m, a);
    SameFacts(r, fl.world, a, s);
    assert GoodListing(fl.world.host, fl.world.memo, Dir(m.file));
    if a.status != Pending && a.status != m.status { AppliedIsTrue(o, sha, r, file, i, fl.world); }
    StampIsTrue(o, r, fl.world, m, a, s.status);
  }

  lemma StampIsTrue(o: Oracle, r: RunOf, w: World, m: Mutant, a: Mutant, s: Status)
    requires (m.status == Pending || m.status == NotCovered) && m.id == a.id && Stamped(r, w, m, a) && CanReuse(s)
    requires a.status != Pending && a.status != m.status ==> TrueOf(o, r.id, KeyOf(a), FactsOf(w, a), a.status)
    requires FactsOf(w, m) == FactsOf(w, a) && forall h :: Measured(r.world, h, m) == Measured(r.world, h, a)
    requires s == a.status || s == AfterTest(o, r, a) || s == AfterDetection(o, r, a)
    ensures TrueOf(o, r.id, KeyOf(a), FactsOf(w, a), s)
  {
    if a.status == Pending {
      MeasuredIsTrue(o, r, w, a, s);
    } else if a.status == m.status {
      NotCoveredStays(o, r, a);
    } else {
      CheckedIsTrue(o, r, w, a, s);
    }
  }

  lemma SameFacts(r: RunOf, w: World, m: Mutant, m': Mutant)
    requires StableTests(r.world) && w.testFiles == r.world.testFiles && SameMutant(m, m')
    ensures FactsOf(w, m') == FactsOf(w, m) && KeyOf(m') == KeyOf(m) && m'.file == m.file && m'.id == m.id
    ensures forall h :: Measured(r.world, h, m') == Measured(r.world, h, m)
  {
  }

  lemma NotCoveredStays(o: Oracle, r: RunOf, m: Mutant)
    requires m.status == NotCovered
    ensures AfterTest(o, r, m) == NotCovered && AfterDetection(o, r, m) == NotCovered
  {
  }

  lemma UpdateKeepsTruth(o: Oracle, sha: string -> string, r: RunOf, file: CacheFile, fl: Flush, prior: seq<Entry>)
    requires GoodRun(o, sha, r, file) && TrueFile(o, sha, file) && SteadyRun(r, file) && fl in r.flushes
    requires TrueEntries(o, sha, r.id, prior)
    ensures TrueEntries(o, sha, r.id, Updated(fl.world, fl.slice, prior))
  {
    var w, slice := fl.world, fl.slice;
    MergedKeyed(w, slice, prior);
    EmitHolds(Merged(w, slice, prior));
    forall e | e in Updated(w, slice, prior) ensures TrueEntry(o, sha, r.id, e) {
      CarryOverAt(w, Fresh(w, slice), prior, e.key);
      FreshAt(w, slice, e.key);
      if e.key in Fresh(w, slice) {
        var i := LastRecorded(w, slice, e.key);
        SliceIsTrue(o, sha, r, file, fl, i);
        RecordedIsTrue(o, sha, r.id, w, slice[i]);
      } else {
        assert e == prior[FirstKept(w, prior, e.key)];
      }
    }
  }

  lemma LoadedIsTrue(o: Oracle, sha: string -> string, file: CacheFile, id: Identity)
    requires TrueFile(o, sha, file)
    ensures TrueEntries(o, sha, id, Load(file, id))
  {
  }

  lemma UpdatedSnoc(flushes: seq<Flush>, k: nat, prior: seq<Entry>)
    requires k < |flushes|
    ensures UpdatedThrough(flushes[..k + 1], prior) == Updated(flushes[k].world, flushes[k].slice, UpdatedThrough(flushes[..k], prior))
  {
    assert flushes[..k + 1][..k] == flushes[..k];
  }

  lemma {:induction false} UpdatesKeepTruth(o: Oracle, sha: string -> string, r: RunOf, file: CacheFile, n: nat)
    requires GoodRun(o, sha, r, file) && TrueFile(o, sha, file) && SteadyRun(r, file) && n <= |r.flushes|
    ensures TrueEntries(o, sha, r.id, UpdatedThrough(r.flushes[..n], Load(file, r.id)))
  {
    var loaded := Load(file, r.id);
    if n == 0 {
      LoadedIsTrue(o, sha, file, r.id);
      assert r.flushes[..0] == [];
    } else {
      UpdatesKeepTruth(o, sha, r, file, n - 1);
      UpdatedSnoc(r.flushes, n - 1, loaded);
      assert r.flushes[n - 1] in r.flushes;
      UpdateKeepsTruth(o, sha, r, file, r.flushes[n - 1], UpdatedThrough(r.flushes[..n - 1], loaded));
    }
  }

  /** Every entry any history leaves on disk is true, where what its runs recorded was measured on what they hashed. */
  lemma {:induction false} HistoryKeepsTruth(o: Oracle, sha: string -> string, runs: seq<RunOf>)
    requires GoodHistory(o, sha, runs)
    ensures TrueFile(o, sha, FileAfterAll(runs))
  {
    if runs != [] {
      var n := |runs| - 1;
      HistoryKeepsTruth(o, sha, runs[..n]);
      UpdatesKeepTruth(o, sha, runs[n], FileAfterAll(runs[..n]), runs[n].landed);
    }
  }

  /**
   Transparency: after any history of runs, killed ones included, over any edits between and during them that spare a
   mutant's key from its hashing to its measurement, a run that consults the cache ends with the statuses of a run
   without one.
   */
  lemma CacheIsTransparent(o: Oracle, sha: string -> string, history: seq<RunOf>, now: RunOf, i: nat)
    requires GoodHistory(o, sha, history) && GoodRun(o, sha, now, FileAfterAll(history)) && i < |now.mutants|
    requires Applied(now, Load(FileAfterAll(history), now.id))[i].status != now.mutants[i].status ==>
      Steady(now, now.world, now.mutants[i])
    ensures AfterDetection(o, now, Applied(now, Load(FileAfterAll(history), now.id))[i])
         == AfterDetection(o, now, now.mutants[i])
  {
    var file, m := FileAfterAll(history), now.mutants[i];
    var a := Applied(now, Load(file, now.id))[i];
    HistoryKeepsTruth(o, sha, history);
    AppliedCases(now, Load(file, now.id), i);
    SameFacts(now, now.world, m, a);
    assert m in now.mutants;
    if a.status != m.status {
      AppliedIsTrue(o, sha, now, file, i, now.world);
      TrueEndsAlike(o, now, m, a);
    }
  }

  lemma TrueEndsAlike(o: Oracle, r: RunOf, m: Mutant, a: Mutant)
    requires m.status == Pending && SameMutant(m, a) && StableTests(r.world) && Steady(r, r.world, m)
    requires a.status != Pending && TrueOf(o, r.id, KeyOf(m), FactsOf(r.world, m), a.status) && (a.status == Equivalent ==> r.detect)
    ensures AfterDetection(o, r, a) == AfterDetection(o, r, m)
  {
    SameFacts(r, r.world, m, a);
  }

  // ----- exactly when a replay is right -----

  /** The bytes an equal tests digest stands for are equal too, and so for the rest of the key. */
  lemma SameDigestsSameFacts(sha: string -> string, w: World, w': World, m: Mutant)
    requires GoodWorld(w, sha) && GoodWorld(w', sha)
    requires GoodListing(w.host, w.memo, Dir(m.file)) && GoodListing(w'.host, w'.memo, Dir(m.file))
    requires Prod(w, m).Ok? && Pkg(w, m).Ok? && Tests(w, m).Ok?
    requires Prod(w', m) == Prod(w, m) && Pkg(w', m) == Pkg(w, m) && Tests(w', m) == Tests(w, m)
    ensures FactsOf(w', m) == FactsOf(w, m)
  {
    PkgDigestIsStream(w, sha, Dir(m.file));
    PackageIsListing(w, sha, Dir(m.file));
    SamePackage(sha, w', Dir(m.file), FactsOf(w, m).files.value, FactsOf(w, m).embeds.value);
    TestsDigestIsStream(w, sha, m);
    SameTests(sha, w', m, FactsOf(w, m).tests.value);
  }

  /** A mutant once tested. */
  function Tested(o: Oracle, r: RunOf, m: Mutant): Mutant {
    m.(status := AfterTest(o, r, m))
  }

  /** What run `next` reports of a mutant that run `r` tested and recorded by the digests of `w`. */
  ghost function Replay(o: Oracle, r: RunOf, w: World, next: RunOf, m: Mutant): Status {
    AfterTest(o, next, LookedUp(next.world, Updated(w, [Tested(o, r, m)], []), m))
  }

  /** A pending mutant all of whose files hash, and a later run over the same contents that measures what it hashes. */
  ghost predicate Revisited(sha: string -> string, r: RunOf, w: World, next: RunOf, m: Mutant) {
    && m.status == Pending && next.id == r.id
    && GoodWorld(w, sha) && GoodWorld(next.world, sha) && StableTests(w) && StableTests(next.world)
    && GoodListing(w.host, w.memo, Dir(m.file)) && GoodListing(next.world.host, next.world.memo, Dir(m.file))
    && Prod(w, m).Ok? && Pkg(w, m).Ok? && Tests(w, m).Ok?
    && Prod(next.world, m) == Prod(w, m) && Pkg(next.world, m) == Pkg(w, m) && Tests(next.world, m) == Tests(w, m)
    && Measured(next.world, next.tested(m.id), m) == FactsOf(next.world, m)
  }

  lemma ReplayOfSteady(o: Oracle, sha: string -> string, r: RunOf, w: World, next: RunOf, m: Mutant)
    requires Revisited(sha, r, w, next, m)
    requires Measured(r.world, r.tested(m.id), m) == FactsOf(w, m)
    ensures Replay(o, r, w, next, m) == AfterTest(o, next, m)
  {
    SameDigestsSameFacts(sha, w, next.world, m);
    ReplayIsStatus(o, sha, r, w, next, m);
  }

  /** A cacheable status is replayed, any other measured again. */
  lemma ReplayIsStatus(o: Oracle, sha: string -> string, r: RunOf, w: World, next: RunOf, m: Mutant)
    requires Revisited(sha, r, w, next, m)
    ensures Replay(o, r, w, next, m) == if CanReuse(AfterTest(o, r, m)) then AfterTest(o, r, m) else AfterTest(o, next, m)
  {
    var t := Tested(o, r, m);
    assert SameMutant(m, t) && w.testFiles(t) == w.testFiles(m);
    if CanReuse(t.status) {
      OneIsReplayed(w, t, next.world, m);
    } else {
      NoneIsReplayed(w, t, next.world, m);
    }
  }

  lemma OneIsReplayed(w: World, t: Mutant, w': World, m: Mutant)
    requires Recorded(w, t) && Tests(w, t).Ok? && Rediscovered(m, t) && Unchanged(w, t, w', m)
    ensures LookedUp(w', Updated(w, [t], []), m).status == t.status
  {
    assert [t][..0] == [];
    assert Recorded(w, [t][0]);
    assert LastRecorded(w, [t], KeyOf(t)) == 0;
    LookupRestores(w, [t], [], 0, w', m);
  }

  lemma NoneIsReplayed(w: World, t: Mutant, w': World, m: Mutant)
    requires !CanReuse(t.status)
    ensures LookedUp(w', Updated(w, [t], []), m) == m
  {
    assert [t][..0] == [] && [t][0] == t;
    assert Fresh(w, [t]) == map[];
    assert Merged(w, [t], []) == map[];
    var es := Emit(map[]);
    assert |es| > 0 ==> es[0] in es;
    EmitHolds(map[]);
  }

  /** An oracle to which it matters whether a mutant is measured on `f`. */
  function Telling(f: Facts): Oracle {
    Oracle((i, k, p, s, e) => true, (i, k, g) => if g == f then Kill else Survive, (i, k, p, s, e) => false)
  }

  lemma ReplayOfUnsteady(sha: string -> string, r: RunOf, w: World, next: RunOf, m: Mutant)
    requires Revisited(sha, r, w, next, m)
    requires Measured(r.world, r.tested(m.id), m) != FactsOf(w, m)
    ensures var o := Telling(Measured(r.world, r.tested(m.id), m)); Replay(o, r, w, next, m) != AfterTest(o, next, m)
  {
    var o := Telling(Measured(r.world, r.tested(m.id), m));
    SameDigestsSameFacts(sha, w, next.world, m);
    ReplayIsStatus(o, sha, r, w, next, m);
    assert AfterTest(o, r, m) == Killed;
    assert AfterTest(o, next, m) == Lived;
  }

  /**
   A verdict replays rightly, whatever decides verdicts, exactly when no file of the mutant's key changed between being
   hashed and the mutant being measured.
   */
  lemma ReplayIsRightExactly(sha: string -> string, r: RunOf, w: World, next: RunOf, m: Mutant)
    requires Revisited(sha, r, w, next, m)
    ensures (forall o :: Replay(o, r, w, next, m) == AfterTest(o, next, m)) <==> Measured(r.world, r.tested(m.id), m) == FactsOf(w, m)
  {
    if Measured(r.world, r.tested(m.id), m) == FactsOf(w, m) {
      forall o ensures Replay(o, r, w, next, m) == AfterTest(o, next, m) { ReplayOfSteady(o, sha, r, w, next, m); }
    } else {
      ReplayOfUnsteady(sha, r, w, next, m);
    }
  }

  // ----- a test file edited during a run, and back -----

  /** A package of two files, its test file with the contents given. */
  function TestedPackage(sha: string -> string, test: string): Host {
    Host((p: string) => Ok(if p == Join("d", "a_test.go") then test else "package d"), (d: string) => Ok(["a.go", "a_test.go"]), sha)
  }

  function PackageWorld(sha: string -> string, test: string): World {
    World(TestedPackage(sha, test), Memo(map[], map[], map[], map[]), (m: Mutant) => [Join("d", "a_test.go")], ".")
  }

  function MutantOfA(): Mutant {
    Mutant(1, "", "", Join("d", "a.go"), "a.go", 1, 1, "", "", 0, 0, "", Pending, 0, "d", false, false)
  }

  /** A run that hashes one version of the test file and measures on another. */
  function RunWith(sha: string -> string, hashed: string, measured: string): RunOf {
    RunOf(PackageWorld(sha, hashed), (id: int) => TestedPackage(sha, measured), (id: int) => TestedPackage(sha, measured),
          Identity(0, "", "", "", "", ""), false, false, [MutantOfA()], [], 0)
  }

  lemma PlainListing()
    ensures var names := ["a.go", "a_test.go"]; Distinct(names) && forall name | name in names :: '/' !in name
  {
    var names := ["a.go", "a_test.go"];
    assert names[0][1] == '.' && names[1][1] == '_';
  }

  lemma PackageReads(sha: string -> string, test: string)
    ensures var w, m := PackageWorld(sha, test), MutantOfA(); Prod(w, m).Ok? && Pkg(w, m).Ok? && Tests(w, m).Ok?
  {
    var w, m := PackageWorld(sha, test), MutantOfA();
    ReadableInputs(w.host, w.memo, PkgSources(Dir(m.file), ["a.go", "a_test.go"]));
    ReadableInputs(w.host, w.memo, EmbedSources(w.memo, Dir(m.file)));
    ReadableInputs(w.host, w.memo, TestSources(w.testFiles(m)));
  }

  lemma PackageIsPlain(sha: string -> string, test: string)
    requires IsHash(sha)
    ensures var w, m := PackageWorld(sha, test), MutantOfA();
      && GoodWorld(w, sha) && StableTests(w) && GoodListing(w.host, w.memo, Dir(m.file))
      && Prod(w, m).Ok? && Pkg(w, m).Ok? && Tests(w, m).Ok?
  {
    DirBaseOfJoin("d", "a.go");
    PlainListing();
    PackageReads(sha, test);
  }

  /** The bytes of the one test file show in the facts. */
  lemma TestShows(sha: string -> string, test: string)
    requires IsHash(sha)
    ensures var f := FactsOf(PackageWorld(sha, test), MutantOfA());
      f.tests.Ok? && |f.tests.value| == 1 && f.tests.value[0].digest == sha(test)
  {
    var w, m := PackageWorld(sha, test), MutantOfA();
    var sources := TestSources(w.testFiles(m));
    PackageIsPlain(sha, test);
    assert SortedSet(w.testFiles(m)) == w.testFiles(m);
    assert |sources| == 1 && sources[0].path == Join("d", "a_test.go");
    InputsAt(w.host, w.memo, sources, 0);
  }

  lemma MeasuredElsewhere(sha: string -> string, hashed: string, measured: string)
    ensures var r := RunWith(sha, hashed, measured);
      Measured(r.world, r.tested(1), MutantOfA()) == FactsOf(PackageWorld(sha, measured), MutantOfA())
  {
    var r := RunWith(sha, hashed, measured);
    assert FrozenFile(r.world.memo.src, MutantOfA().file) == map[];
  }

  /**
   Such a run: the test file is hashed as A, edited to B, the mutant measured, and the edit taken back. The next run,
   over A again, replays the verdict of B, where measuring tells otherwise.
   */
  lemma RevertReplays(sha: string -> string, a: string, b: string)
    requires IsHash(sha) && a != b
    ensures var r, next, m := RunWith(sha, a, b), RunWith(sha, a, a), MutantOfA();
      exists o :: Replay(o, r, PackageWorld(sha, a), next, m) != AfterTest(o, next, m)
  {
    var r, next, w, m := RunWith(sha, a, b), RunWith(sha, a, a), PackageWorld(sha, a), MutantOfA();
    PackageIsPlain(sha, a);
    MeasuredElsewhere(sha, a, a);
    MeasuredElsewhere(sha, a, b);
    TestShows(sha, a);
    TestShows(sha, b);
    assert Revisited(sha, r, w, next, m);
    assert Measured(r.world, r.tested(m.id), m) != FactsOf(w, m);
    ReplayIsRightExactly(sha, r, w, next, m);
  }
}
