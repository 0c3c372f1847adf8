/** The cache's memoising hasher (`Hasher` in internal/cache/cache.go). */
module Hashing {
  import opened Text
  import opened Ordering
  import opened Framing

  datatype Read<+T> = Ok(value: T) | NotExist | Unreadable

  /**
   The disk at one moment, and the hash function. `read` gives a file's bytes, `list` the names of a directory's
   regular files; both may fail, by the file being absent or otherwise.
   */
  datatype Host = Host(read: string -> Read<string>, list: string -> Read<seq<string>>, sha: string -> string)

  /** sha256, taken to be free of collisions. Nothing rests on the length of a digest. */
  ghost predicate IsHash(sha: string -> string) {
    && (forall x :: IsDigest(sha(x)))
    && (forall x, y :: sha(x) == sha(y) ==> x == y)
  }

  /** The state of a `Hasher`. */
  datatype Memo = Memo(
    files: map<string, string>,
    dirs: map<string, string>,
    src: map<string, string>,
    embeds: map<string, seq<string>>)

  function DigestOf(h: Host, r: Read<string>): Read<string> {
    match r
    case Ok(bytes) => Ok(h.sha(bytes))
    case NotExist => NotExist
    case Unreadable => Unreadable
  }

  function FileDigest(h: Host, m: Memo, p: string): Read<string> {
    if p in m.files then Ok(m.files[p])
    else if p in m.src then Ok(h.sha(m.src[p]))
    else DigestOf(h, h.read(p))
  }

  /** A file to hash and the name its frame carries. */
  datatype Source = Source(path: string, name: string)

  /** The frames of `sources`, or the first error in their order. */
  function Inputs(h: Host, m: Memo, sources: seq<Source>): (r: Read<seq<Input>>)
    ensures r.Ok? ==> |r.value| == |sources|
  {
    if sources == [] then Ok([])
    else
      var front, last := Inputs(h, m, sources[..|sources| - 1]), sources[|sources| - 1];
      if !front.Ok? then front else AddInput(front.value, last.name, FileDigest(h, m, last.path))
  }

  function AddInput(front: seq<Input>, name: string, digest: Read<string>): Read<seq<Input>> {
    match digest
    case Ok(d) => Ok(front + [Input(name, d)])
    case NotExist => NotExist
    case Unreadable => Unreadable
  }

  /** Files framed by their basenames. */
  function ByBase(paths: seq<string>): seq<Source> {
    seq(|paths|, i requires 0 <= i < |paths| => Source(paths[i], Base(paths[i])))
  }

  /** Files framed by their paths relative to `dir`. */
  function Beneath(dir: string, rels: seq<string>): seq<Source> {
    seq(|rels|, i requires 0 <= i < |rels| => Source(Join(dir, rels[i]), rels[i]))
  }

  function TestSources(paths: seq<string>): seq<Source> {
    ByBase(SortedSet(paths))
  }

  predicate IsGoSource(name: string) {
    HasSuffix(name, ".go") && !HasSuffix(name, "_test.go")
  }

  /** The non-test sources among a directory's files, as `goFilesIn` collects them. */
  function SourcePaths(dir: string, names: seq<string>): seq<string> {
    if names == [] then []
    else
      var front, last := SourcePaths(dir, names[..|names| - 1]), names[|names| - 1];
      if IsGoSource(last) then front + [Join(dir, last)] else front
  }

  function PkgSources(dir: string, names: seq<string>): seq<Source> {
    ByBase(Sort(SourcePaths(dir, names), StrLess))
  }

  function EmbedSources(m: Memo, dir: string): seq<Source> {
    Beneath(dir, if dir in m.embeds then SortedSet(m.embeds[dir]) else [])
  }

  /** The stream of a package: its sources, then what it embeds. */
  function PkgWritten(h: Host, m: Memo, dir: string, names: seq<string>): Read<string> {
    var out := Written("", Inputs(h, m, PkgSources(dir, names)));
    if !out.Ok? then out else Written(out.value, Inputs(h, m, EmbedSources(m, dir)))
  }

  /** The package digest as computed, whatever the memo of directories holds. */
  function FreshPkgDigest(h: Host, m: Memo, dir: string): Read<string> {
    match h.list(dir)
    case NotExist => NotExist
    case Unreadable => Unreadable
    case Ok(names) => DigestOf(h, PkgWritten(h, m, dir, names))
  }

  function PkgDigest(h: Host, m: Memo, dir: string): Read<string> {
    if dir in m.dirs then Ok(m.dirs[dir]) else FreshPkgDigest(h, m, dir)
  }

  function TestsDigest(h: Host, m: Memo, paths: seq<string>): Read<string> {
    DigestOf(h, Written("", Inputs(h, m, TestSources(paths))))
  }

  // ----- which files a digest is of -----

  /** The package of `dir` embeds the file at `path`. */
  ghost predicate Embeds(m: Memo, dir: string, path: string) {
    dir in m.embeds && exists rel | rel in m.embeds[dir] :: path == Join(dir, rel)
  }

  /** A Go file of the directory, tests aside. */
  ghost predicate ListsSource(dir: string, names: seq<string>, path: string) {
    exists name | name in names :: HasSuffix(name, ".go") && !HasSuffix(name, "_test.go") && path == Join(dir, name)
  }

  ghost predicate Among(sources: seq<Source>, path: string) {
    exists s | s in sources :: s.path == path
  }

  /** The package digest takes in every embedded file under the path it is embedded by, and no other. */
  lemma EmbedsAreHashed(m: Memo, dir: string)
    ensures forall s :: s in EmbedSources(m, dir) <==> dir in m.embeds && s.name in m.embeds[dir] && s.path == Join(dir, s.name)
    ensures forall path :: Among(EmbedSources(m, dir), path) <==> Embeds(m, dir, path)
  {
    var rels := if dir in m.embeds then m.embeds[dir] else [];
    var sorted, sources := SortedSet(rels), EmbedSources(m, dir);
    SortedSetElements(rels);
    if dir !in m.embeds { assert sorted == []; }
    forall s ensures s in sources <==> s.name in rels && s.path == Join(dir, s.name) {
      if s.name in rels && s.path == Join(dir, s.name) {
        var i :| 0 <= i < |sorted| && sorted[i] == s.name;
        assert sources[i] == s;
      }
    }
    forall path | Embeds(m, dir, path) ensures Among(sources, path) {
      var rel :| rel in m.embeds[dir] && path == Join(dir, rel);
      assert Source(path, rel) in sources;
    }
  }

  lemma {:induction false} SourcePathsHold(dir: string, names: seq<string>)
    ensures forall path :: path in SourcePaths(dir, names) <==> ListsSource(dir, names, path)
  {
    if names != [] {
      var front, last := names[..|names| - 1], names[|names| - 1];
      SourcePathsHold(dir, front);
      assert names == front + [last];
      forall path ensures ListsSource(dir, names, path) <==>
        ListsSource(dir, front, path) || (IsGoSource(last) && path == Join(dir, last))
      {
        if ListsSource(dir, front, path) {
          var name :| name in front && IsGoSource(name) && path == Join(dir, name);
          assert name in names;
        }
        assert last in names;
      }
    }
  }

  lemma AmongByBase(paths: seq<string>)
    ensures forall path :: Among(ByBase(paths), path) <==> path in paths
    ensures forall s | s in ByBase(paths) :: s.name == Base(s.path)
  {
    var sources := ByBase(paths);
    forall path | path in paths ensures Among(sources, path) {
      var i :| 0 <= i < |paths| && paths[i] == path;
      assert sources[i].path == path && sources[i] in sources;
    }
  }

  /** And every Go file of its directory that is no test, and no other. */
  lemma SourcesAreHashed(dir: string, names: seq<string>)
    ensures forall s | s in PkgSources(dir, names) :: s.name == Base(s.path)
    ensures forall path :: Among(PkgSources(dir, names), path) <==> ListsSource(dir, names, path)
  {
    var paths, sources := SourcePaths(dir, names), PkgSources(dir, names);
    var sorted := Sort(paths, StrLess);
    SourcePathsHold(dir, names);
    forall path ensures path in sorted <==> path in paths {
      assert path in multiset(sorted) <==> path in multiset(paths);
    }
    AmongByBase(sorted);
    assert sources == ByBase(sorted);
  }

  /** The tests digest takes in every file listed, by its base name. */
  lemma TestsAreHashed(paths: seq<string>)
    ensures forall s :: s in TestSources(paths) <==> s.path in paths && s.name == Base(s.path)
  {
    var sorted, sources := SortedSet(paths), TestSources(paths);
    SortedSetElements(paths);
    forall s: Source | s.path in paths && s.name == Base(s.path) ensures s in sources {
      var i :| 0 <= i < |sorted| && sorted[i] == s.path;
      assert sources[i] == s;
    }
  }

  /** Neither the order of the test files nor a repeat shows in their digest. */
  lemma TestsDigestIgnoresOrder(h: Host, m: Memo, paths: seq<string>, paths': seq<string>)
    requires forall p :: p in paths <==> p in paths'
    ensures TestsDigest(h, m, paths) == TestsDigest(h, m, paths')
  {
    SortedSetCanonical(paths, paths');
  }

  // ----- memoisation -----

  /** The hasher has memoised more, every new memo the digest it had while the disk was `h`. */
  ghost predicate Grows(h: Host, m: Memo, m': Memo) {
    && m'.src == m.src && m'.embeds == m.embeds
    && (forall p | p in m.files :: p in m'.files && m'.files[p] == m.files[p])
    && (forall p | p in m'.files && p !in m.files :: FileDigest(h, m, p) == Ok(m'.files[p]))
    && (forall d | d in m.dirs :: d in m'.dirs && m'.dirs[d] == m.dirs[d])
    && (forall d | d in m'.dirs && d !in m.dirs :: FreshPkgDigest(h, m, d) == Ok(m'.dirs[d]) && Settled(h, m', d))
  }

  /** Every file the package was hashed from is memoised. */
  ghost predicate Settled(h: Host, m: Memo, dir: string) {
    h.list(dir).Ok? && Memoised(m.files, PkgSources(dir, h.list(dir).value)) && Memoised(m.files, EmbedSources(m, dir))
  }

  ghost predicate Memoised(files: map<string, string>, sources: seq<Source>) {
    forall i | 0 <= i < |sources| :: sources[i].path in files
  }

  lemma SettledStays(h: Host, m: Memo, m': Memo, dir: string)
    requires Settled(h, m, dir) && m'.embeds == m.embeds && forall p | p in m.files :: p in m'.files
    ensures Settled(h, m', dir)
  {
  }

  lemma GrowsKeepsFileDigests(h: Host, m: Memo, m': Memo, p: string)
    requires Grows(h, m, m')
    ensures FileDigest(h, m', p) == FileDigest(h, m, p)
  {
    assert p in m.files ==> p in m'.files;
    assert p in m'.files && p !in m.files ==> FileDigest(h, m, p) == Ok(m'.files[p]);
  }

  lemma {:induction false} GrowsKeepsInputs(h: Host, m: Memo, m': Memo, sources: seq<Source>)
    requires Grows(h, m, m')
    ensures Inputs(h, m', sources) == Inputs(h, m, sources)
  {
    if sources != [] {
      GrowsKeepsInputs(h, m, m', sources[..|sources| - 1]);
      GrowsKeepsFileDigests(h, m, m', sources[|sources| - 1].path);
    }
  }

  lemma GrowsKeepsFreshPkgDigests(h: Host, m: Memo, m': Memo, dir: string)
    requires Grows(h, m, m')
    ensures FreshPkgDigest(h, m', dir) == FreshPkgDigest(h, m, dir)
  {
    GrowsKeepsInputs(h, m, m', EmbedSources(m, dir));
    match h.list(dir)
    case Ok(names) => GrowsKeepsInputs(h, m, m', PkgSources(dir, names));
    case _ =>
  }

  /** While the disk stands still, what a hasher has memoised so far shows in no digest. */
  lemma GrowsKeepsDigests(h: Host, m: Memo, m': Memo, p: string, dir: string, paths: seq<string>)
    requires Grows(h, m, m')
    ensures FileDigest(h, m', p) == FileDigest(h, m, p)
    ensures PkgDigest(h, m', dir) == PkgDigest(h, m, dir)
    ensures TestsDigest(h, m', paths) == TestsDigest(h, m, paths)
  {
    GrowsKeepsFileDigests(h, m, m', p);
    GrowsKeepsFreshPkgDigests(h, m, m', dir);
    assert dir in m.dirs ==> dir in m'.dirs;
    assert dir in m'.dirs && dir !in m.dirs ==> FreshPkgDigest(h, m, dir) == Ok(m'.dirs[dir]);
    GrowsKeepsInputs(h, m, m', TestSources(paths));
  }

  lemma GrowsTransitive(h: Host, m: Memo, m': Memo, m'': Memo)
    requires Grows(h, m, m') && Grows(h, m', m'')
    ensures Grows(h, m, m'')
  {
    forall p | p in m''.files && p !in m.files ensures FileDigest(h, m, p) == Ok(m''.files[p]) {
      GrowsKeepsFileDigests(h, m, m', p);
      assert p in m'.files ==> m''.files[p] == m'.files[p];
      assert p !in m'.files ==> FileDigest(h, m', p) == Ok(m''.files[p]);
    }
    assert forall p | p in m'.files :: p in m''.files;
    forall d | d in m''.dirs && d !in m.dirs ensures FreshPkgDigest(h, m, d) == Ok(m''.dirs[d]) && Settled(h, m'', d) {
      GrowsKeepsFreshPkgDigests(h, m, m', d);
      if d in m'.dirs {
        assert m''.dirs[d] == m'.dirs[d] && Settled(h, m', d);
        SettledStays(h, m', m'', d);
      } else {
        assert FreshPkgDigest(h, m', d) == Ok(m''.dirs[d]) && Settled(h, m'', d);
      }
    }
    assert forall p | p in m.files :: p in m'.files;
    assert forall d | d in m.dirs :: d in m'.dirs;
  }

  lemma GrowsByFile(h: Host, m: Memo, p: string, d: string)
    requires FileDigest(h, m, p) == Ok(d)
    ensures Grows(h, m, m.(files := m.files[p := d]))
  {
  }

  lemma GrowsByDir(h: Host, m: Memo, m': Memo, dir: string, d: string)
    requires Grows(h, m, m') && m'.dirs == m.dirs && dir !in m.dirs
    requires FreshPkgDigest(h, m, dir) == Ok(d) && Settled(h, m', dir)
    ensures Grows(h, m, m'.(dirs := m'.dirs[dir := d]))
  {
  }

  /** The first error is the whole's. */
  lemma {:induction false} InputsFail(h: Host, m: Memo, sources: seq<Source>, i: nat)
    requires i <= |sources| && !Inputs(h, m, sources[..i]).Ok?
    ensures Inputs(h, m, sources) == Inputs(h, m, sources[..i])
    decreases |sources| - i
  {
    if i < |sources| {
      assert sources[..i + 1][..i] == sources[..i];
      InputsFail(h, m, sources, i + 1);
    } else {
      assert sources[..i] == sources;
    }
  }

  /** A stream that held `written`, with a frame for each input behind it. */
  function Written(written: string, fs: Read<seq<Input>>): Read<string> {
    match fs
    case Ok(v) => Ok(written + Frames(v, ""))
    case NotExist => NotExist
    case Unreadable => Unreadable
  }

  lemma MemoisedStep(h: Host, m: Memo, m': Memo, sources: seq<Source>, i: nat)
    requires i < |sources| && Grows(h, m, m')
    requires Memoised(m.files, sources[..i]) && sources[i].path in m'.files
    ensures Memoised(m'.files, sources[..i + 1])
  {
    var front := sources[..i + 1];
    forall j | 0 <= j < |front| ensures front[j].path in m'.files {
      assert j < i ==> front[j] == sources[..i][j];
    }
  }

  /** One turn of the loop that writes frames. */
  lemma WriteStep(h: Host, m: Memo, sources: seq<Source>, i: nat, written: string, out: string)
    requires i < |sources|
    requires Ok(out) == Written(written, Inputs(h, m, sources[..i]))
    ensures var d := FileDigest(h, m, sources[i].path);
      if d.Ok? then Written(written, Inputs(h, m, sources[..i + 1])) == Ok(out + Frame(Input(sources[i].name, d.value), ""))
      else Written(written, Inputs(h, m, sources)) == d
  {
    var d, front := FileDigest(h, m, sources[i].path), Inputs(h, m, sources[..i]).value;
    assert sources[..i + 1][..i] == sources[..i];
    if d.Ok? {
      var f := Input(sources[i].name, d.value);
      FramesSnoc(front, f);
      assert written + (Frames(front, "") + Frame(f, "")) == out + Frame(f, "");
    } else {
      InputsFail(h, m, sources, i + 1);
    }
  }

  /** The in-place pass `HashTestFiles` makes over its sorted paths: keeps one of each, in the array it reads from. */
  method CompactInPlace(sorted: array<string>) returns (n: nat)
    modifies sorted
    ensures n <= sorted.Length
    ensures sorted[..n] == Compact(old(sorted[..]))
  {
    ghost var was := sorted[..];
    n := 0;
    for i := 0 to sorted.Length
      invariant n <= i
      invariant forall j | n <= j < sorted.Length :: sorted[j] == was[j]
      invariant i > 0 ==> sorted[i - 1] == was[i - 1]
      invariant sorted[..n] == Compact(was[..i])
    {
      var p := sorted[i];
      assert was[..i + 1][..i] == was[..i];
      if i > 0 && p == sorted[i - 1] {
        continue;
      }
      ghost var kept := sorted[..n];
      sorted[n] := p;
      n := n + 1;
      assert sorted[..n] == kept + [p];
    }
    assert was[..sorted.Length] == was;
  }

  method SortAndCompact(paths: seq<string>) returns (uniq: seq<string>)
    ensures uniq == SortedSet(paths)
  {
    var s := Sort(paths, StrLess);
    var sorted := new string[|s|](i requires 0 <= i < |s| => s[i]);
    assert sorted[..] == s;
    var n := CompactInPlace(sorted);
    uniq := sorted[..n];
  }

  class Hasher {
    var files: map<string, string>
    var dirs: map<string, string>
    var srcCache: map<string, string>
    var embeds: map<string, seq<string>>

    ghost function State(): Memo
      reads this
    {
      Memo(files, dirs, srcCache, embeds)
    }

    constructor (src: map<string, string>)
      ensures State() == Memo(map[], map[], src, map[])
    {
      files, dirs, srcCache, embeds := map[], map[], src, map[];
    }

    /** A hit or a successful read is memoised; an error is not. */
    method File(h: Host, p: string) returns (r: Read<string>)
      modifies this`files
      ensures r == FileDigest(h, old(State()), p)
      ensures Grows(h, old(State()), State())
      ensures r.Ok? ==> p in files && files[p] == r.value
    {
      if p in files {
        return Ok(files[p]);
      }
      if p in srcCache {
        r := Ok(h.sha(srcCache[p]));
      } else {
        r := DigestOf(h, h.read(p));
      }
      if r.Ok? {
        GrowsByFile(h, State(), p, r.value);
        files := files[p := r.value];
      }
    }

    /** Writes a frame for each source to a stream that already holds `written`, up to the first error. */
    method WriteFrames(h: Host, sources: seq<Source>, written: string) returns (r: Read<string>)
      modifies this`files
      ensures Grows(h, old(State()), State())
      ensures r == Written(written, Inputs(h, old(State()), sources))
      ensures r.Ok? ==> Memoised(files, sources)
    {
      ghost var m0 := State();
      var out := written;
      assert sources[..0] == [] && written + "" == written;
      for i := 0 to |sources|
        invariant Grows(h, m0, State())
        invariant Ok(out) == Written(written, Inputs(h, m0, sources[..i]))
        invariant Memoised(files, sources[..i])
      {
        ghost var m1 := State();
        GrowsKeepsFileDigests(h, m0, m1, sources[i].path);
        WriteStep(h, m0, sources, i, written, out);
        var d := File(h, sources[i].path);
        GrowsTransitive(h, m0, m1, State());
        if !d.Ok? {
          return d;
        }
        MemoisedStep(h, m1, State(), sources, i);
        out := out + Frame(Input(sources[i].name, d.value), "");
      }
      assert sources[..|sources|] == sources;
      r := Ok(out);
    }

    method HashTestFiles(h: Host, paths: seq<string>) returns (r: Read<string>)
      modifies this`files
      ensures r == TestsDigest(h, old(State()), paths)
      ensures Grows(h, old(State()), State())
      ensures r.Ok? ==> Memoised(files, TestSources(paths))
    {
      var uniq := SortAndCompact(paths);
      var out := WriteFrames(h, ByBase(uniq), "");
      r := DigestOf(h, out);
    }

    /** `goFilesIn` for one directory, without its test files. */
    method GoFilesIn(h: Host, dir: string) returns (r: Read<seq<string>>)
      ensures r == (match h.list(dir)
                    case NotExist => NotExist
                    case Unreadable => Unreadable
                    case Ok(names) => Ok(Sort(SourcePaths(dir, names), StrLess)))
    {
      var listing := h.list(dir);
      if listing.NotExist? {
        return NotExist;
      }
      if listing.Unreadable? {
        return Unreadable;
      }
      var found: seq<string> := [];
      for i := 0 to |listing.value|
        invariant found == SourcePaths(dir, listing.value[..i])
      {
        var name := listing.value[i];
        assert listing.value[..i + 1][..i] == listing.value[..i];
        if !HasSuffix(name, ".go") {
          continue;
        }
        if HasSuffix(name, "_test.go") {
          continue;
        }
        found := found + [Join(dir, name)];
      }
      assert listing.value[..|listing.value|] == listing.value;
      r := Ok(Sort(found, StrLess));
    }

    /** Writes a package to a stream: its sources, then what it embeds. */
    method WritePkg(h: Host, dir: string, paths: seq<string>) returns (out: Read<string>)
      requires h.list(dir).Ok? && ByBase(paths) == PkgSources(dir, h.list(dir).value)
      modifies this`files
      ensures out == PkgWritten(h, old(State()), dir, h.list(dir).value)
      ensures Grows(h, old(State()), State())
      ensures out.Ok? ==> Settled(h, State(), dir)
    {
      out := WriteFrames(h, ByBase(paths), "");
      if !out.Ok? {
        return;
      }
      ghost var m1 := State();
      GrowsKeepsInputs(h, old(State()), m1, EmbedSources(m1, dir));
      out := WriteFrames(h, Beneath(dir, if dir in embeds then SortedSet(embeds[dir]) else []), out.value);
      GrowsTransitive(h, old(State()), m1, State());
      assert forall p | p in m1.files :: p in files;
    }

    /** Memoised per directory for the life of the hasher. */
    method HashPkgFiles(h: Host, dir: string) returns (r: Read<string>)
      modifies this`files, this`dirs
      ensures r == PkgDigest(h, old(State()), dir)
      ensures Grows(h, old(State()), State())
      ensures r.Ok? ==> dir in dirs && dirs[dir] == r.value
    {
      if dir in dirs {
        return Ok(dirs[dir]);
      }
      var paths := GoFilesIn(h, dir);
      if paths.NotExist? {
        return NotExist;
      }
      if paths.Unreadable? {
        return Unreadable;
      }
      var out := WritePkg(h, dir, paths.value);
      r := DigestOf(h, out);
      if r.Ok? {
        GrowsByDir(h, old(State()), State(), dir, r.value);
        dirs := dirs[dir := r.value];
      }
    }

    method Retake(src: map<string, string>)
      modifies this
      ensures State() == Retaken(old(State()), src)
    {
      srcCache := src;
      files := map p | p in files && HasSuffix(p, "_test.go") :: files[p];
      dirs := map d | d in dirs && d !in (set p | p in src :: Dir(p)) :: dirs[d];
    }

    /** Freezes the mutants' sources: drops every memo of a file that is no test file, and hashes their packages anew. */
    method SetSrcCache(h: Host, src: map<string, string>)
      modifies this
      ensures Grows(h, Retaken(old(State()), src), State())
      ensures forall p | p in src :: FreshPkgDigest(h, Retaken(old(State()), src), Dir(p)).Ok? ==> Dir(p) in dirs
    {
      ghost var m := Retaken(State(), src);
      Retake(src);
      var todo := src.Keys;
      while todo != {}
        invariant todo <= src.Keys
        invariant Grows(h, m, State())
        invariant forall p | p in src && p !in todo :: FreshPkgDigest(h, m, Dir(p)).Ok? ==> Dir(p) in dirs
      {
        var p :| p in todo;
        todo := todo - {p};
        ghost var m1 := State();
        GrowsKeepsFreshPkgDigests(h, m, m1, Dir(p));
        var _ := HashPkgFiles(h, Dir(p));
        GrowsTransitive(h, m, m1, State());
      }
    }
  }

  /** The hasher as `SetSrcCache` leaves it before it hashes the packages. */
  function Retaken(m: Memo, src: map<string, string>): Memo {
    Memo(
      map p | p in m.files && HasSuffix(p, "_test.go") :: m.files[p],
      map d | d in m.dirs && d !in (set p | p in src :: Dir(p)) :: m.dirs[d],
      src,
      m.embeds)
  }

  // ----- the snapshot -----

  /** A run of the hasher over a disk that may change before every step. */
  ghost predicate Run(hosts: seq<Host>, memos: seq<Memo>) {
    && |memos| == |hosts| + 1
    && forall i | 0 <= i < |hosts| :: Grows(hosts[i], memos[i], memos[i + 1])
  }

  /** Memos and frozen sources stay for the whole run. */
  lemma {:induction false} RunKeeps(hosts: seq<Host>, memos: seq<Memo>, n: nat)
    requires Run(hosts, memos) && n < |memos|
    ensures memos[n].src == memos[0].src && memos[n].embeds == memos[0].embeds
    ensures forall p | p in memos[0].files :: p in memos[n].files && memos[n].files[p] == memos[0].files[p]
    ensures forall d | d in memos[0].dirs :: d in memos[n].dirs && memos[n].dirs[d] == memos[0].dirs[d]
  {
    if n > 0 {
      RunKeeps(hosts, memos, n - 1);
      assert Grows(hosts[n - 1], memos[n - 1], memos[n]);
    }
  }

  /** A frozen source is only ever memoised by its frozen bytes. */
  lemma {:induction false} RunKeepsSource(hosts: seq<Host>, memos: seq<Memo>, n: nat, sha: string -> string, p: string)
    requires Run(hosts, memos) && n < |memos|
    requires forall host | host in hosts :: host.sha == sha
    requires p in memos[0].src
    requires p in memos[0].files ==> memos[0].files[p] == sha(memos[0].src[p])
    ensures p in memos[n].src && memos[n].src[p] == memos[0].src[p]
    ensures p in memos[n].files ==> memos[n].files[p] == sha(memos[0].src[p])
  {
    RunKeeps(hosts, memos, n);
    if n > 0 {
      RunKeepsSource(hosts, memos, n - 1, sha, p);
      RunKeeps(hosts, memos, n - 1);
      var host, m, m' := hosts[n - 1], memos[n - 1], memos[n];
      assert host in hosts && Grows(host, m, m');
      assert p in m'.files && p !in m.files ==> FileDigest(host, m, p) == Ok(m'.files[p]);
    }
  }

  /**
   The snapshot: `memos[0]` is a hasher just after `SetSrcCache(frozen, src)`. Whatever the disk does from then on,
   the package of every frozen source that hashed then keeps that digest, every frozen source has the digest of its
   frozen bytes, and a test file memoised before the freeze keeps its digest.
   */
  lemma Snapshot(frozen: Host, before: Memo, src: map<string, string>, hosts: seq<Host>, memos: seq<Memo>, n: nat,
                 later: Host, p: string, test: string)
    requires Run(hosts, memos) && n < |memos|
    requires later.sha == frozen.sha && forall host | host in hosts :: host.sha == frozen.sha
    requires Grows(frozen, Retaken(before, src), memos[0])
    requires forall q | q in src :: FreshPkgDigest(frozen, Retaken(before, src), Dir(q)).Ok? ==> Dir(q) in memos[0].dirs
    requires p in src && !HasSuffix(p, "_test.go")
    requires test in before.files && HasSuffix(test, "_test.go")
    ensures FreshPkgDigest(frozen, Retaken(before, src), Dir(p)).Ok? ==>
        PkgDigest(later, memos[n], Dir(p)) == FreshPkgDigest(frozen, Retaken(before, src), Dir(p))
    ensures FileDigest(later, memos[n], p) == Ok(frozen.sha(src[p]))
    ensures FileDigest(later, memos[n], test) == Ok(before.files[test])
  {
    var m := Retaken(before, src);
    RunKeeps(hosts, memos, n);
    assert p !in m.files && FileDigest(frozen, m, p) == Ok(frozen.sha(src[p]));
    RunKeepsSource(hosts, memos, n, frozen.sha, p);
    assert test in m.files && test in memos[0].files;
    assert Dir(p) !in m.dirs;
  }

  // ----- what the snapshot is a snapshot of -----

  /** A hasher that knows nothing but the frozen sources: every other file is read when the snapshot is taken. */
  function Unmemoised(m: Memo, src: map<string, string>): Memo {
    Memo(map[], map[], src, m.embeds)
  }

  /** The memo of an embedded file that survives the freeze because the file's name ends like a test file's. */
  predicate KeptEmbed(m: Memo, path: string) {
    HasSuffix(path, "_test.go") && path in m.files
  }

  ghost predicate WellformedMemo(m: Memo) {
    forall p | p in m.files :: IsDigest(m.files[p])
  }

  lemma {:induction false} SameInputs(h: Host, m: Memo, m': Memo, sources: seq<Source>)
    requires forall s | s in sources :: FileDigest(h, m, s.path) == FileDigest(h, m', s.path)
    ensures Inputs(h, m, sources) == Inputs(h, m', sources)
  {
    if sources != [] {
      SameInputs(h, m, m', sources[..|sources| - 1]);
      assert sources[|sources| - 1] in sources;
    }
  }

  lemma {:induction false} InputsAt(h: Host, m: Memo, sources: seq<Source>, i: nat)
    requires i < |sources| && Inputs(h, m, sources).Ok?
    ensures FileDigest(h, m, sources[i].path).Ok?
    ensures Inputs(h, m, sources).value[i] == Input(sources[i].name, FileDigest(h, m, sources[i].path).value)
  {
    if i < |sources| - 1 { InputsAt(h, m, sources[..|sources| - 1], i); }
  }

  lemma {:induction false} InputsWellformed(h: Host, m: Memo, sources: seq<Source>)
    requires IsHash(h.sha) && WellformedMemo(m) && Inputs(h, m, sources).Ok?
    ensures Wellformed(Inputs(h, m, sources).value)
  {
    if sources != [] { InputsWellformed(h, m, sources[..|sources| - 1]); }
  }

  lemma {:induction false} SourcePathsAreNoTests(dir: string, names: seq<string>)
    ensures forall p | p in SourcePaths(dir, names) :: !HasSuffix(p, "_test.go")
  {
    if names != [] {
      SourcePathsAreNoTests(dir, names[..|names| - 1]);
      var name := names[|names| - 1];
      if HasSuffix(Join(dir, name), "_test.go") { JoinSuffix(dir, name, "_test.go"); }
    }
  }

  lemma JoinSuffix(dir: string, name: string, suffix: string)
    requires HasSuffix(Join(dir, name), suffix) && '/' !in suffix
    ensures HasSuffix(name, suffix)
  {
    var p := Join(dir, name);
    assert p[|p| - |name| - 1] == '/';
    assert forall i | 0 <= i < |suffix| :: p[|p| - |suffix| + i] == suffix[i];
    assert |suffix| <= |name|;
    assert p[|p| - |suffix|..] == name[|name| - |suffix|..];
  }

  lemma {:induction false} SourcePathsBelow(dir: string, names: seq<string>)
    ensures forall p | p in SourcePaths(dir, names) :: HasPrefix(p, dir) && HasSuffix(p, ".go")
  {
    if names != [] {
      SourcePathsBelow(dir, names[..|names| - 1]);
      var name := names[|names| - 1];
      assert HasSuffix(name, ".go") ==> Join(dir, name)[|Join(dir, name)| - 3..] == name[|name| - 3..];
    }
  }

  /** A package's sources are .go files of its directory. */
  lemma PkgSourcesBelow(dir: string, names: seq<string>)
    ensures forall s | s in PkgSources(dir, names) :: HasPrefix(s.path, dir) && HasSuffix(s.path, ".go")
  {
    SourcePathsBelow(dir, names);
    var paths := SourcePaths(dir, names);
    var sorted := Sort(paths, StrLess);
    forall p | p in sorted ensures p in paths {
      assert p in multiset(sorted);
    }
  }

  lemma PkgSourcesAreNoTests(dir: string, names: seq<string>)
    ensures forall s | s in PkgSources(dir, names) :: !HasSuffix(s.path, "_test.go")
  {
    SourcePathsAreNoTests(dir, names);
    var paths := SourcePaths(dir, names);
    var sorted := Sort(paths, StrLess);
    forall p | p in sorted ensures p in paths {
      assert p in multiset(sorted);
    }
  }

  /** Equal streams behind equal source frames have equal embedded frames. */
  lemma EqualEmbedStreams(files: seq<Input>, es: seq<Input>, es': seq<Input>, w: string, w': string)
    requires Wellformed(es) && Wellformed(es')
    requires Ok(w) == Written(Frames(files, ""), Ok(es)) && Ok(w') == Written(Frames(files, ""), Ok(es'))
    ensures w == w' <==> es == es'
  {
    if w == w' {
      SplitAtLength(Frames(files, ""), Frames(es, ""), Frames(files, ""), Frames(es', ""));
      TestStreamDecodes(es, es');
    }
  }

  /**
   The digest the freeze takes is that of the bytes it finds exactly when no embedded file whose name ends in
   `_test.go` was memoised before under another digest.
   */
  lemma SnapshotIsOfFrozenBytes(h: Host, before: Memo, src: map<string, string>, dir: string)
    requires IsHash(h.sha) && WellformedMemo(before)
    requires FreshPkgDigest(h, Retaken(before, src), dir).Ok? && FreshPkgDigest(h, Unmemoised(before, src), dir).Ok?
    ensures FreshPkgDigest(h, Retaken(before, src), dir) == FreshPkgDigest(h, Unmemoised(before, src), dir) <==>
      forall path | Embeds(before, dir, path) && KeptEmbed(before, path) ::
        FileDigest(h, Unmemoised(before, src), path) == Ok(before.files[path])
  {
    EmbedsAreHashed(before, dir);
    var m, m' := Retaken(before, src), Unmemoised(before, src);
    var names := h.list(dir).value;
    var embeds := EmbedSources(before, dir);
    assert EmbedSources(m, dir) == embeds && EmbedSources(m', dir) == embeds;
    PkgSourcesAreNoTests(dir, names);
    SameInputs(h, m, m', PkgSources(dir, names));
    var files := Inputs(h, m, PkgSources(dir, names)).value;
    var es, es' := Inputs(h, m, embeds), Inputs(h, m', embeds);
    var w, w' := PkgWritten(h, m, dir, names).value, PkgWritten(h, m', dir, names).value;
    assert "" + Frames(files, "") == Frames(files, "");
    InputsWellformed(h, m, embeds);
    InputsWellformed(h, m', embeds);
    EqualEmbedStreams(files, es.value, es'.value, w, w');
    KeptMemosDecide(h, before, src, embeds);
  }

  lemma KeptMemosDecide(h: Host, before: Memo, src: map<string, string>, embeds: seq<Source>)
    requires Inputs(h, Retaken(before, src), embeds).Ok? && Inputs(h, Unmemoised(before, src), embeds).Ok?
    ensures Inputs(h, Retaken(before, src), embeds) == Inputs(h, Unmemoised(before, src), embeds) <==>
      forall path | Among(embeds, path) && KeptEmbed(before, path) ::
        FileDigest(h, Unmemoised(before, src), path) == Ok(before.files[path])
  {
    var m, m' := Retaken(before, src), Unmemoised(before, src);
    if Inputs(h, m, embeds) == Inputs(h, m', embeds) {
      forall path | Among(embeds, path) && KeptEmbed(before, path) ensures FileDigest(h, m', path) == Ok(before.files[path]) {
        var i :| 0 <= i < |embeds| && embeds[i].path == path;
        InputsAt(h, m, embeds, i);
        InputsAt(h, m', embeds, i);
      }
    }
    if forall path | Among(embeds, path) && KeptEmbed(before, path) :: FileDigest(h, m', path) == Ok(before.files[path]) {
      SameInputs(h, m, m', embeds);
    }
  }

  /** A package `d` that embeds `d/x_test.go`, memoised before the freeze. */
  function EmbeddingMemo(digest: string): Memo {
    Memo(map["d/x_test.go" := digest], map[], map[], map["d" := ["x_test.go"]])
  }

  lemma EmbeddingSources(digest: string)
    ensures Embeds(EmbeddingMemo(digest), "d", "d/x_test.go") && KeptEmbed(EmbeddingMemo(digest), "d/x_test.go")
  {
    assert Join("d", "x_test.go") == "d/x_test.go";
    assert "d/x_test.go"[|"d/x_test.go"| - 8..] == "_test.go";
  }

  lemma {:induction false} ReadableInputs(h: Host, m: Memo, sources: seq<Source>)
    requires forall s | s in sources :: FileDigest(h, m, s.path).Ok?
    ensures Inputs(h, m, sources).Ok?
  {
    if sources != [] {
      assert sources[|sources| - 1] in sources;
      ReadableInputs(h, m, sources[..|sources| - 1]);
    }
  }

  /** The disk of that package: `a.go`, and the edited file it embeds. */
  function EditedDisk(sha: string -> string): Host {
    Host((p: string) => Ok(if p == "d/a.go" then "package d" else "new"), (d: string) => Ok(["a.go", "x_test.go"]), sha)
  }

  /** Such a memo can be stale: the package of an edited `x_test.go` it embeds keeps the digest from before the edit. */
  lemma EmbeddedTestFileStaysStale(sha: string -> string)
    requires IsHash(sha)
    ensures var h, before, src := EditedDisk(sha), EmbeddingMemo(sha("old")), map["d/a.go" := "package d"];
      && FreshPkgDigest(h, Retaken(before, src), "d").Ok?
      && FreshPkgDigest(h, Retaken(before, src), "d") != FreshPkgDigest(h, Unmemoised(before, src), "d")
  {
    var h, before, src := EditedDisk(sha), EmbeddingMemo(sha("old")), map["d/a.go" := "package d"];
    var s := Source("d/x_test.go", "x_test.go");
    EmbeddingSources(sha("old"));
    assert Embeds(before, "d", s.path);
    forall m ensures FreshPkgDigest(h, m, "d").Ok? {
      ReadableInputs(h, m, PkgSources("d", ["a.go", "x_test.go"]));
      ReadableInputs(h, m, EmbedSources(m, "d"));
    }
    assert s.path !in src && s.path != "d/a.go" by {
      assert s.path[2] == 'x' && "d/a.go"[2] == 'a';
    }
    assert FileDigest(h, Unmemoised(before, src), s.path) == Ok(sha("new"));
    SnapshotIsOfFrozenBytes(h, before, src, "d");
  }

  // ----- which edits show -----

  /** Two disks that differ in the bytes of one file, of which the hasher knows nothing yet. */
  ghost predicate Edited(h: Host, h': Host, m: Memo, path: string) {
    && h.list == h'.list && h.sha == h'.sha && IsHash(h.sha) && WellformedMemo(m)
    && (forall p | p != path :: h.read(p) == h'.read(p))
    && h.read(path).Ok? && h'.read(path).Ok? && h.read(path) != h'.read(path)
    && path !in m.files && path !in m.src
  }

  lemma FileDigestShows(h: Host, h': Host, m: Memo, path: string, p: string)
    requires Edited(h, h', m, path)
    ensures FileDigest(h, m, p) == FileDigest(h', m, p) <==> p != path
    ensures FileDigest(h, m, p).Ok? <==> FileDigest(h', m, p).Ok?
  {
  }

  lemma InputsShow(h: Host, h': Host, m: Memo, path: string, sources: seq<Source>)
    requires Edited(h, h', m, path) && Inputs(h, m, sources).Ok?
    ensures Inputs(h', m, sources).Ok?
    ensures Inputs(h, m, sources) == Inputs(h', m, sources) <==> !Among(sources, path)
  {
    forall s | s in sources ensures FileDigest(h', m, s.path).Ok? {
      var i :| 0 <= i < |sources| && sources[i] == s;
      InputsAt(h, m, sources, i);
      FileDigestShows(h, h', m, path, s.path);
    }
    ReadableInputs(h', m, sources);
    if Among(sources, path) {
      var i :| 0 <= i < |sources| && sources[i].path == path;
      InputsAt(h, m, sources, i);
      InputsAt(h', m, sources, i);
      FileDigestShows(h, h', m, path, path);
    } else {
      forall s | s in sources ensures FileDigest(h, m, s.path) == FileDigest(h', m, s.path) {
        FileDigestShows(h, h', m, path, s.path);
      }
      SameReads(h, m, h', m, sources);
    }
  }

  lemma TestsDigestShows(h: Host, h': Host, m: Memo, path: string, paths: seq<string>)
    requires Edited(h, h', m, path) && TestsDigest(h, m, paths).Ok?
    ensures TestsDigest(h, m, paths) == TestsDigest(h', m, paths) <==> path !in paths
  {
    var sources := TestSources(paths);
    InputsShow(h, h', m, path, sources);
    InputsWellformed(h, m, sources);
    InputsWellformed(h', m, sources);
    var fs, fs' := Inputs(h, m, sources).value, Inputs(h', m, sources).value;
    assert "" + Frames(fs, "") == Frames(fs, "") && "" + Frames(fs', "") == Frames(fs', "");
    if Frames(fs, "") == Frames(fs', "") { TestStreamDecodes(fs, fs'); }
    SortedSetElements(paths);
    var sorted := SortedSet(paths);
    assert Among(sources, path) <==> path in sorted by {
      if path in sorted {
        var i :| 0 <= i < |sorted| && sorted[i] == path;
        assert sources[i].path == path && sources[i] in sources;
      }
    }
  }

  lemma PkgDigestShows(h: Host, h': Host, m: Memo, path: string, dir: string)
    requires Edited(h, h', m, path) && dir !in m.dirs && PkgDigest(h, m, dir).Ok?
    ensures PkgDigest(h, m, dir) == PkgDigest(h', m, dir) <==>
      !ListsSource(dir, h.list(dir).value, path) && !Embeds(m, dir, path)
  {
    SourcesAreHashed(dir, h.list(dir).value);
    EmbedsAreHashed(m, dir);
    var sources, embeds := PkgSources(dir, h.list(dir).value), EmbedSources(m, dir);
    StreamIs(h, m, dir, h.list(dir).value);
    InputsShow(h, h', m, path, sources);
    InputsShow(h, h', m, path, embeds);
    StreamIs(h', m, dir, h.list(dir).value);
    InputsWellformed(h, m, sources);
    InputsWellformed(h, m, embeds);
    InputsWellformed(h', m, sources);
    InputsWellformed(h', m, embeds);
    EqualPkgStreams(Inputs(h, m, sources).value, Inputs(h, m, embeds).value, Inputs(h', m, sources).value, Inputs(h', m, embeds).value);
  }

  lemma StreamIs(h: Host, m: Memo, dir: string, names: seq<string>)
    ensures var fs, es := Inputs(h, m, PkgSources(dir, names)), Inputs(h, m, EmbedSources(m, dir));
      && (PkgWritten(h, m, dir, names).Ok? <==> fs.Ok? && es.Ok?)
      && (fs.Ok? && es.Ok? ==> PkgWritten(h, m, dir, names) == Ok(Frames(fs.value, "") + Frames(es.value, "")))
  {
    var fs := Inputs(h, m, PkgSources(dir, names));
    if fs.Ok? { assert "" + Frames(fs.value, "") == Frames(fs.value, ""); }
  }

  /** Streams of as many sources are equal only where both parts are. */
  lemma EqualPkgStreams(fs: seq<Input>, es: seq<Input>, fs': seq<Input>, es': seq<Input>)
    requires Wellformed(fs) && Wellformed(es) && Wellformed(fs') && Wellformed(es') && |fs| == |fs'|
    ensures Frames(fs, "") + Frames(es, "") == Frames(fs', "") + Frames(es', "") <==> fs == fs' && es == es'
  {
    FramesAppend(fs, Frames(es, ""));
    FramesAppend(fs', Frames(es', ""));
    FramesConcat(fs, es, "");
    FramesConcat(fs', es', "");
    if Frames(fs + es, "") == Frames(fs' + es', "") {
      TestStreamDecodes(fs + es, fs' + es');
      SplitAtLength(fs, es, fs', es');
    }
  }

  // ----- a disk that changes while the hasher runs -----

  /** `before` where the hasher has been, `now` elsewhere. */
  function Overlay(m: Memo, before: Host, now: Host): Host {
    Host((p: string) => if p in m.files then before.read(p) else now.read(p),
         (d: string) => if d in m.dirs then before.list(d) else now.list(d),
         now.sha)
  }

  /**
   The disk the hasher sees at its `n`-th step, when the real one is `now`: each file and listing as it was when the
   hasher came to it, all others as they are.
   */
  function Seen(hosts: seq<Host>, memos: seq<Memo>, n: nat, now: Host): Host
    requires |memos| == |hosts| + 1 && n < |memos|
  {
    if n == 0 then now else Overlay(memos[n], Seen(hosts, memos, n - 1, hosts[n - 1]), now)
  }

  lemma {:induction false} SameReads(h: Host, m: Memo, h': Host, m': Memo, sources: seq<Source>)
    requires forall s | s in sources :: FileDigest(h, m, s.path) == FileDigest(h', m', s.path)
    ensures Inputs(h, m, sources) == Inputs(h', m', sources)
  {
    if sources != [] {
      SameReads(h, m, h', m', sources[..|sources| - 1]);
      assert sources[|sources| - 1] in sources;
    }
  }

  /** Two disks that agree where a package was hashed give it one digest. */
  lemma SamePkg(h: Host, m: Memo, h': Host, m': Memo, dir: string)
    requires h.list(dir) == h'.list(dir) && h.sha == h'.sha && m.embeds == m'.embeds
    requires h.list(dir).Ok? ==> forall s | s in PkgSources(dir, h.list(dir).value) + EmbedSources(m, dir) ::
      FileDigest(h, m, s.path) == FileDigest(h', m', s.path)
    ensures FreshPkgDigest(h, m, dir) == FreshPkgDigest(h', m', dir)
  {
    if h.list(dir).Ok? {
      SameReads(h, m, h', m', PkgSources(dir, h.list(dir).value));
      SameReads(h, m, h', m', EmbedSources(m, dir));
    }
  }

  /** What the hasher memoised on the old disk it could have memoised on the overlaid one. */
  lemma OverlayGrows(m0: Memo, m: Memo, before: Host, now: Host)
    requires Grows(before, m0, m) && before.sha == now.sha
    ensures Grows(Overlay(m, before, now), m0, m)
  {
    var e := Overlay(m, before, now);
    forall p | p in m.files ensures FileDigest(e, m0, p) == FileDigest(before, m0, p) {
    }
    forall d | d in m.dirs && d !in m0.dirs ensures FreshPkgDigest(e, m0, d) == Ok(m.dirs[d]) && Settled(e, m, d) {
      assert Settled(before, m, d) && e.list(d) == before.list(d);
      forall s | s in PkgSources(d, e.list(d).value) + EmbedSources(m, d)
        ensures FileDigest(e, m0, s.path) == FileDigest(before, m0, s.path)
      {
        assert s.path in m.files;
      }
      SamePkg(e, m0, before, m0, d);
    }
  }

  /** Over the overlaid disk and the first memo every digest is what it is over the real disk and the memo now. */
  lemma OverlayDigests(m0: Memo, m: Memo, before: Host, now: Host, p: string, dir: string, paths: seq<string>)
    requires Grows(before, m0, m) && before.sha == now.sha
    ensures var e := Overlay(m, before, now);
      && FileDigest(e, m0, p) == FileDigest(now, m, p)
      && PkgDigest(e, m0, dir) == PkgDigest(now, m, dir)
      && TestsDigest(e, m0, paths) == TestsDigest(now, m, paths)
  {
    var e := Overlay(m, before, now);
    OverlayGrows(m0, m, before, now);
    GrowsKeepsDigests(e, m0, m, p, dir, paths);
    forall q ensures FileDigest(e, m, q) == FileDigest(now, m, q) {
    }
    SameReads(e, m, now, m, TestSources(paths));
    if dir !in m.dirs { SamePkg(e, m, now, m, dir); }
  }

  /** What a step memoises on the real disk it memoises on the disk the hasher sees. */
  lemma StepOnOverlay(m0: Memo, m: Memo, m': Memo, before: Host, now: Host)
    requires Grows(before, m0, m) && before.sha == now.sha && Grows(now, m, m')
    ensures Grows(Overlay(m, before, now), m0, m')
  {
    var e := Overlay(m, before, now);
    OverlayGrows(m0, m, before, now);
    forall q ensures FileDigest(e, m, q) == FileDigest(now, m, q) {
    }
    forall d | d in m'.dirs && d !in m.dirs ensures FreshPkgDigest(e, m, d) == Ok(m'.dirs[d]) && Settled(e, m', d) {
      SamePkg(e, m, now, m, d);
      assert Settled(now, m', d) && e.list(d) == now.list(d);
    }
    assert Grows(e, m, m');
    GrowsTransitive(e, m0, m, m');
  }

  lemma {:induction false} SeenGrows(hosts: seq<Host>, memos: seq<Memo>, n: nat, sha: string -> string)
    requires Run(hosts, memos) && 0 < n < |memos| && forall h | h in hosts :: h.sha == sha
    ensures Seen(hosts, memos, n - 1, hosts[n - 1]).sha == sha
    ensures Grows(Seen(hosts, memos, n - 1, hosts[n - 1]), memos[0], memos[n])
  {
    var last := hosts[n - 1];
    assert last in hosts && Grows(last, memos[n - 1], memos[n]);
    if n > 1 {
      SeenGrows(hosts, memos, n - 1, sha);
      StepOnOverlay(memos[0], memos[n - 1], memos[n], Seen(hosts, memos, n - 2, hosts[n - 2]), last);
    }
  }

  /**
   However the disk changes between its steps, at any moment all a hasher's digests are those of one disk, hashed from the
   state the run began with: the disk on which every file is as it was when the hasher came to it.
   */
  lemma OneDisk(hosts: seq<Host>, memos: seq<Memo>, n: nat, now: Host, p: string, dir: string, paths: seq<string>)
    requires Run(hosts, memos) && n < |memos| && forall h | h in hosts :: h.sha == now.sha
    ensures var e := Seen(hosts, memos, n, now);
      && FileDigest(e, memos[0], p) == FileDigest(now, memos[n], p)
      && PkgDigest(e, memos[0], dir) == PkgDigest(now, memos[n], dir)
      && TestsDigest(e, memos[0], paths) == TestsDigest(now, memos[n], paths)
  {
    if n > 0 {
      SeenGrows(hosts, memos, n, now.sha);
      OverlayDigests(memos[0], memos[n], Seen(hosts, memos, n - 1, hosts[n - 1]), now, p, dir, paths);
    }
  }

  /** A digest once taken stays for the rest of the run, whatever becomes of its files. */
  lemma DigestsStay(hosts: seq<Host>, memos: seq<Memo>, n: nat, now: Host, k: nat, later: Host, p: string, dir: string, paths: seq<string>)
    requires Run(hosts, memos) && n <= k < |memos| && now.sha == later.sha
    ensures p in memos[n].files ==> FileDigest(later, memos[k], p) == FileDigest(now, memos[n], p)
    ensures dir in memos[n].dirs ==> PkgDigest(later, memos[k], dir) == PkgDigest(now, memos[n], dir)
    ensures Memoised(memos[n].files, TestSources(paths)) ==> TestsDigest(later, memos[k], paths) == TestsDigest(now, memos[n], paths)
  {
    var rest, restMemos := hosts[n..], memos[n..];
    assert Run(rest, restMemos) by {
      forall i | 0 <= i < |rest| ensures Grows(rest[i], restMemos[i], restMemos[i + 1]) {
        assert Grows(hosts[n + i], memos[n + i], memos[n + i + 1]);
      }
    }
    RunKeeps(rest, restMemos, k - n);
    assert restMemos[0] == memos[n] && restMemos[k - n] == memos[k];
    if Memoised(memos[n].files, TestSources(paths)) {
      SameReads(later, memos[k], now, memos[n], TestSources(paths));
    }
  }
}
