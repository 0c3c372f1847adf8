/**
 Which unchanged entries a later run carries over: `Update` (internal/cache/cache.go) looks for an entry's source where the
 entry's relative file points below the project, and `computeRelFile` (internal/discover/discover.go) may have taken a
 package prefix off that file.
 */
module CarryOver {
  import opened Text
  import opened Mutants
  import opened Hashing
  import opened RelFile
  import opened Cache

  // ----- the packages of a module -----

  /** The import path of the package at `sub` below the module's root, and its directory. */
  function PkgPath(mod: string, sub: string): string {
    if sub == "" then mod else mod + "/" + sub
  }

  function PkgDir(root: string, sub: string): string {
    if sub == "" then root else Join(root, sub)
  }

  function FileOf(root: string, sub: string, base: string): string {
    Join(PkgDir(root, sub), base)
  }

  /** A file's path below the root: what `filepath.Rel` makes of it. */
  function Below(sub: string, base: string): string {
    if sub == "" then base else sub + "/" + base
  }

  function PkgPaths(mod: string, subs: seq<string>): (paths: seq<string>)
    ensures |paths| == |subs| && forall k | 0 <= k < |subs| :: paths[k] == PkgPath(mod, subs[k])
  {
    seq(|subs|, k requires 0 <= k < |subs| => PkgPath(mod, subs[k]))
  }

  /** What a run over the packages at `subs` shares of their import paths. */
  function Shared(mod: string, subs: seq<string>): string {
    CommonPrefix(PkgPaths(mod, subs))
  }

  /** The report path such a run gives a file. */
  function ReportPath(mod: string, root: string, subs: seq<string>, sub: string, base: string): string {
    ComputeRelFile(Shared(mod, subs), PkgPath(mod, sub), FileOf(root, sub, base), Below(sub, base))
  }

  /** Packages of one module. */
  ghost predicate OfModule(mod: string, subs: seq<string>) {
    mod != "" && forall s | s in subs :: !HasPrefix(s, "/")
  }

  // ----- when a report path leads back to its file -----

  lemma BaseOfFile(root: string, sub: string, base: string)
    requires '/' !in base
    ensures Base(FileOf(root, sub, base)) == base
  {
    var file := FileOf(root, sub, base);
    var n := |file| - |base|;
    assert file[n - 1] == '/' && file[n..] == base;
    assert forall j | n <= j < |file| :: file[j] == base[j - n];
    assert LastIndex(file, '/') == n - 1;
  }

  lemma JoinBelow(root: string, sub: string, base: string, name: string)
    ensures Join(root, name) == FileOf(root, sub, base) <==> name == Below(sub, base)
  {
    var top := if root == "/" then root else root + "/";
    assert FileOf(root, sub, base) == top + Below(sub, base);
    if top + name == top + Below(sub, base) { SplitAtLength(top, name, top, Below(sub, base)); }
  }

  /** Under any prefix: it has to be none of the package's, the module's path, or that with its slash. */
  lemma LeadsBack(prefix: string, mod: string, root: string, sub: string, base: string)
    requires '/' !in base && !HasPrefix(sub, "/") && |mod| <= |prefix|
    ensures Join(root, ComputeRelFile(prefix, PkgPath(mod, sub), FileOf(root, sub, base), Below(sub, base))) == FileOf(root, sub, base)
      <==> prefix == "" || !HasPrefix(PkgPath(mod, sub), prefix) || prefix == mod || prefix == mod + "/"
  {
    var p, file := PkgPath(mod, sub), FileOf(root, sub, base);
    BaseOfFile(root, sub, base);
    JoinBelow(root, sub, base, ComputeRelFile(prefix, p, file, Below(sub, base)));
    if prefix != "" && HasPrefix(p, prefix) {
      var rest := p[|prefix|..];
      assert p == prefix + rest;
      RelFileParts(TrimSlash(rest), base, sub, base);
    }
  }

  /** A run's prefix holds the module's path and does not end behind its slash. */
  lemma SharedHoldsModule(mod: string, subs: seq<string>)
    requires OfModule(mod, subs) && subs != []
    ensures mod <= Shared(mod, subs) && Shared(mod, subs) != mod + "/"
    ensures forall k | 0 <= k < |subs| :: HasPrefix(PkgPath(mod, subs[k]), Shared(mod, subs))
  {
    var paths, c := PkgPaths(mod, subs), Shared(mod, subs);
    CommonPrefixIsLongest(paths);
    forall k | 0 <= k < |paths| ensures HasPrefix(paths[k], mod) {
    }
    assert |mod| <= |c|;
    NoCutBehindSlash(mod, subs[0], c);
  }

  lemma NoCutBehindSlash(mod: string, sub: string, c: string)
    requires mod != "" && !HasPrefix(sub, "/") && IsCut(PkgPath(mod, sub), c)
    ensures c != mod + "/"
  {
    if sub != "" { assert PkgPath(mod, sub)[|mod| + 1] == sub[0] != '/'; }
  }

  /** A run's report paths lead back to its files exactly when its packages share no more than the module's path. */
  lemma ReportPathLeadsBack(mod: string, root: string, subs: seq<string>, sub: string, base: string)
    requires OfModule(mod, subs) && sub in subs && '/' !in base
    ensures Join(root, ReportPath(mod, root, subs, sub, base)) == FileOf(root, sub, base) <==> Shared(mod, subs) == mod
  {
    var k :| 0 <= k < |subs| && subs[k] == sub;
    SharedHoldsModule(mod, subs);
    LeadsBack(Shared(mod, subs), mod, root, sub, base);
  }

  /** The first package is in a directory whose name every package's path below the root starts with. */
  ghost predicate ShareDirectory(subs: seq<string>)
    requires subs != []
  {
    subs[0] != "" && forall k | 0 <= k < |subs| :: HasPrefix(subs[k], CutBefore(subs[0], '/'))
  }

  /** `d` shortened by the module's path and its slash. */
  lemma PrefixBelow(mod: string, sub: string, d: string)
    requires d != "" && !HasPrefix(sub, "/")
    ensures HasPrefix(PkgPath(mod, sub), mod + "/" + d) <==> HasPrefix(sub, d)
  {
    var p, top := PkgPath(mod, sub), mod + "/" + d;
    if sub != "" {
      assert p == mod + "/" + sub && forall i | 0 <= i < |sub| :: p[|mod| + 1 + i] == sub[i];
      assert forall i | 0 <= i < |d| :: top[|mod| + 1 + i] == d[i];
    }
  }

  lemma SharedDirectoryShows(mod: string, subs: seq<string>)
    requires OfModule(mod, subs) && subs != [] && ShareDirectory(subs)
    ensures Shared(mod, subs) != mod
  {
    var paths, dir := PkgPaths(mod, subs), CutBefore(subs[0], '/');
    var d := mod + "/" + dir;
    assert subs[0] in subs && dir != "";
    CommonPrefixIsLongest(paths);
    forall k | 0 <= k < |paths| ensures HasPrefix(paths[k], d) {
      assert subs[k] in subs;
      PrefixBelow(mod, subs[k], dir);
    }
    assert paths[0] == mod + "/" + subs[0];
    DirectoryIsCut(mod, subs[0]);
  }

  lemma DirectoryIsCut(mod: string, first: string)
    ensures IsCut(mod + "/" + first, mod + "/" + CutBefore(first, '/'))
  {
    var p, dir := mod + "/" + first, CutBefore(first, '/');
    var d := mod + "/" + dir;
    assert p[..|d|] == d;
    assert |dir| < |first| ==> p[|d|] == first[|dir|] == '/';
  }

  lemma LongerCutHoldsDirectory(mod: string, first: string, c: string)
    requires first != "" && first[0] != '/'
    requires IsCut(mod + "/" + first, c) && |mod| < |c| && c != mod + "/"
    ensures mod + "/" + CutBefore(first, '/') <= c
  {
    var p, dir, n := mod + "/" + first, CutBefore(first, '/'), |c| - |mod| - 1;
    assert c == p[..|c|] && p[..|mod| + 1] == mod + "/";
    assert c != p ==> first[n] == p[|c|] == '/';
    assert |dir| <= n;
    assert mod + "/" + dir == p[..|mod| + 1 + |dir|];
  }

  lemma LongerPrefixIsDirectory(mod: string, subs: seq<string>)
    requires OfModule(mod, subs) && subs != [] && Shared(mod, subs) != mod
    ensures ShareDirectory(subs)
  {
    var paths, c := PkgPaths(mod, subs), Shared(mod, subs);
    var dir := CutBefore(subs[0], '/');
    CommonPrefixIsLongest(paths);
    SharedHoldsModule(mod, subs);
    assert subs[0] in subs;
    LongerCutHoldsDirectory(mod, subs[0], c);
    forall k | 0 <= k < |subs| ensures HasPrefix(subs[k], dir) {
      assert subs[k] in subs;
      PrefixBelow(mod, subs[k], dir);
    }
  }

  /** Which can be told from the packages. */
  lemma SharedIsModuleExactly(mod: string, subs: seq<string>)
    requires OfModule(mod, subs) && subs != []
    ensures Shared(mod, subs) == mod <==> !ShareDirectory(subs)
  {
    if ShareDirectory(subs) {
      SharedDirectoryShows(mod, subs);
    } else if Shared(mod, subs) != mod {
      LongerPrefixIsDirectory(mod, subs);
    }
  }

  // ----- when an unchanged entry is carried over -----

  /** The entry's source still has the digests it was recorded under. */
  predicate Untouched(w: World, e: Entry, file: string) {
    FileDigest(w.host, w.memo, file) == Ok(e.prodHash) && PkgDigest(w.host, w.memo, Dir(file)) == Ok(e.pkgHash)
  }

  /** Nothing stands at `path`. */
  predicate Vacant(w: World, path: string) {
    FileDigest(w.host, w.memo, path).NotExist?
  }

  /**
   An entry for an untouched file is carried over exactly when the packages of the run that wrote it share no more than
   the module's path: unless something else happens to stand where the shortened path leads.
   */
  lemma UntouchedCarriedExactly(w: World, mod: string, subs: seq<string>, sub: string, base: string, e: Entry,
                                prior: seq<Entry>, ms: seq<Mutant>)
    requires OfModule(mod, subs) && sub in subs && '/' !in base
    requires e.key.relFile == ReportPath(mod, w.projectDir, subs, sub, base) && Untouched(w, e, FileOf(w.projectDir, sub, base))
    requires ShareDirectory(subs) ==> Vacant(w, Join(w.projectDir, e.key.relFile))
    requires DistinctKeys(prior) && e in prior && e.key !in Fresh(w, ms)
    ensures e in Updated(w, ms, prior) <==> !ShareDirectory(subs)
  {
    CarriedExactly(w, e, prior, ms);
    SharedIsModuleExactly(mod, subs);
    ReportPathLeadsBack(mod, w.projectDir, subs, sub, base);
  }

  // ----- a run over a part of the module -----

  /** A mutant as a run over the packages at `subs` discovers it. */
  ghost predicate Discovered(m: Mutant, mod: string, root: string, subs: seq<string>) {
    exists sub, base | sub in subs && '/' !in base ::
      m.file == FileOf(root, sub, base) && m.relFile == ReportPath(mod, root, subs, sub, base)
  }

  /** If no report path leads anywhere, an update forgets what the run before it left, though the disk is the same. */
  lemma RunIsForgotten(w: World, run: seq<Mutant>, next: seq<Mutant>)
    requires forall m | m in run :: Vacant(w, Join(w.projectDir, m.relFile))
    ensures Updated(w, next, Updated(w, run, [])) == Updated(w, next, [])
  {
    var own := Fresh(w, run);
    MergedKeyed(w, run, []);
    EmitHolds(own);
    forall e | e in Updated(w, run, []) ensures !Keep(w, e) {
      FreshAt(w, run, e.key);
      assert run[LastRecorded(w, run, e.key)] in run;
    }
    NoneCarried(w, Updated(w, run, []), next);
  }

  /** A part of a module: two packages side by side in `top`, none of them named like it. */
  datatype Part = Part(mod: string, root: string, top: string, a: string, b: string) {
    predicate Proper() {
      && mod != "" && root != "" && root != "/"
      && top != "" && top[0] != '/' && IsElement(a) && IsElement(b)
      && a[0] != top[0] && b[0] != top[0] && |a| == |b| && a != b
    }

    function Subs(): seq<string> {
      [top + "/" + a, top + "/" + b]
    }

    /** Where its files are. */
    function Home(): string {
      root + "/" + top + "/"
    }
  }

  predicate IsElement(s: string) {
    s != "" && '/' !in s
  }

  /** A disk with sources in the part of the module the run is over, and nowhere else. */
  function PartDisk(part: Part, sha: string -> string): Host {
    Host(p => if HasPrefix(p, part.Home()) then Ok("package p") else NotExist,
         d => if HasPrefix(d, part.Home()) then Ok(["x.go"]) else NotExist, sha)
  }

  function PartWorld(part: Part, sha: string -> string): World {
    World(PartDisk(part, sha), Memo(map[], map[], map[], map[]), _ => [], part.root)
  }

  /** Two packages side by side share the directory they are in. */
  lemma SideBySide(top: string, a: string, b: string)
    requires |a| == |b| && a != b && '/' !in a
    ensures CommonPrefix([top + "/" + a, top + "/" + b]) == top
  {
    var p, q := top + "/" + a, top + "/" + b;
    assert [p, q][..1] == [p];
    assert p[|top| + 1..] == a && q[|top| + 1..] == b;
    assert p[|top|] == '/';
    forall j | |top| < j < |p| ensures p[j] != '/' {
      assert p[j] == a[j - |top| - 1] && a[j - |top| - 1] in a;
    }
    assert LastIndex(p, '/') == |top|;
    assert p[..|top|] == top == q[..|top|];
    assert |p| == |q| && p != q;
    assert Shrink(p, q) == Shrink(top, q);
  }

  lemma PkgPathIn(mod: string, top: string, leaf: string)
    requires top != ""
    ensures PkgPath(mod, top + "/" + leaf) == (mod + "/" + top) + "/" + leaf
  {
  }

  lemma PartShares(part: Part)
    requires part.Proper()
    ensures OfModule(part.mod, part.Subs()) && Shared(part.mod, part.Subs()) == part.mod + "/" + part.top
  {
    var prefix, subs := part.mod + "/" + part.top, part.Subs();
    forall s | s in subs ensures !HasPrefix(s, "/") {
      assert s[0] == part.top[0];
    }
    PkgPathIn(part.mod, part.top, part.a);
    PkgPathIn(part.mod, part.top, part.b);
    assert PkgPaths(part.mod, subs) == [prefix + "/" + part.a, prefix + "/" + part.b];
    SideBySide(prefix, part.a, part.b);
  }

  lemma ReportBehindPrefix(prefix: string, leaf: string, file: string, rel: string)
    requires prefix != "" && leaf != "" && leaf[0] != '/'
    ensures ComputeRelFile(prefix, prefix + "/" + leaf, file, rel) == leaf + "/" + Base(file)
  {
    var p := prefix + "/" + leaf;
    assert p == prefix + ("/" + leaf);
    assert p[|prefix|..] == "/" + leaf;
    assert ("/" + leaf)[1..] == leaf;
  }

  /** Its report paths begin with the package's name. */
  lemma PartReports(part: Part, leaf: string, base: string)
    requires part.Proper() && (leaf == part.a || leaf == part.b) && '/' !in base
    ensures ReportPath(part.mod, part.root, part.Subs(), part.top + "/" + leaf, base) == leaf + "/" + base
  {
    var sub := part.top + "/" + leaf;
    PartShares(part);
    PkgPathIn(part.mod, part.top, leaf);
    BaseOfFile(part.root, sub, base);
    ReportBehindPrefix(part.mod + "/" + part.top, leaf, FileOf(part.root, sub, base), Below(sub, base));
  }

  /** Nothing is elsewhere. */
  lemma ElsewhereIsVacant(part: Part, sha: string -> string, rel: string)
    requires part.Proper() && rel != "" && rel[0] != part.top[0]
    ensures Vacant(PartWorld(part, sha), Join(part.root, rel))
  {
    var path, n := Join(part.root, rel), |part.root| + 1;
    assert path[n] == rel[0] && part.Home()[n] == part.top[0];
  }

  /** Its files are there. */
  lemma PartHashes(part: Part, sha: string -> string, m: Mutant, dir: string, base: string)
    requires HasPrefix(dir, part.Home()) && '/' !in base && m.file == Join(dir, base) && dir != ""
    ensures Prod(PartWorld(part, sha), m).Ok? && Pkg(PartWorld(part, sha), m).Ok?
  {
    var w := PartWorld(part, sha);
    DirBaseOfJoin(dir, base);
    assert HasPrefix(m.file, dir);
    PkgSourcesBelow(dir, ["x.go"]);
    ReadableInputs(w.host, w.memo, PkgSources(dir, ["x.go"]));
  }

  lemma PartDir(part: Part, leaf: string)
    requires part.Proper()
    ensures PkgDir(part.root, part.top + "/" + leaf) == part.Home() + leaf
    ensures HasPrefix(part.Home() + leaf, part.Home())
  {
  }

  /** Its report paths lead nowhere. */
  lemma LeafPaths(part: Part, sha: string -> string, m: Mutant, leaf: string, base: string)
    requires part.Proper() && (leaf == part.a || leaf == part.b) && '/' !in base
    requires m.file == FileOf(part.root, part.top + "/" + leaf, base)
    requires m.relFile == ReportPath(part.mod, part.root, part.Subs(), part.top + "/" + leaf, base)
    ensures var w := PartWorld(part, sha); Vacant(w, Join(part.root, m.relFile)) && Prod(w, m).Ok? && Pkg(w, m).Ok?
  {
    PartReports(part, leaf, base);
    ElsewhereIsVacant(part, sha, m.relFile);
    PartDir(part, leaf);
    PartHashes(part, sha, m, part.Home() + leaf, base);
  }

  lemma PartPaths(part: Part, sha: string -> string, m: Mutant)
    requires part.Proper() && Discovered(m, part.mod, part.root, part.Subs())
    ensures var w := PartWorld(part, sha); Vacant(w, Join(part.root, m.relFile)) && Prod(w, m).Ok? && Pkg(w, m).Ok?
  {
    var sub, base :| sub in part.Subs() && '/' !in base
      && m.file == FileOf(part.root, sub, base) && m.relFile == ReportPath(part.mod, part.root, part.Subs(), sub, base);
    LeafPaths(part, sha, m, if sub == part.top + "/" + part.a then part.a else part.b, base);
  }

  /** Of such a run every outcome is recorded, and the next update writes what it would write without any of them. */
  lemma PartialRunIsForgotten(part: Part, sha: string -> string, run: seq<Mutant>, next: seq<Mutant>)
    requires part.Proper()
    requires forall m | m in run :: Discovered(m, part.mod, part.root, part.Subs()) && CanReuse(m.status)
    ensures var w := PartWorld(part, sha);
      && (forall m | m in run :: Recorded(w, m) && KeyOf(m) in Fresh(w, run))
      && Updated(w, next, Updated(w, run, [])) == Updated(w, next, [])
  {
    var w := PartWorld(part, sha);
    forall m | m in run ensures Vacant(w, Join(part.root, m.relFile)) && Recorded(w, m) && KeyOf(m) in Fresh(w, run) {
      PartPaths(part, sha, m);
      var i :| 0 <= i < |run| && run[i] == m;
      FreshAt(w, run, KeyOf(m));
    }
    RunIsForgotten(w, run, next);
  }

  /** So for the packages internal/a and internal/b of a module in /s: a killed mutant, and an empty cache after the next update. */
  lemma InternalRunIsForgotten(sha: string -> string, m: Mutant)
    requires Discovered(m, "m", "/s", Part("m", "/s", "internal", "a", "b").Subs()) && m.status == Killed
    ensures var w := PartWorld(Part("m", "/s", "internal", "a", "b"), sha);
      KeyOf(m) in Fresh(w, [m]) && Updated(w, [], Updated(w, [m], [])) == []
  {
    var part := Part("m", "/s", "internal", "a", "b");
    assert m in [m];
    PartialRunIsForgotten(part, sha, [m], []);
  }
}
