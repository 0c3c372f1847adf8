/**
 Resolving one stable ID (internal/discover/stableid.go): only the files its path could name are parsed, and the answer
 is the one all files would give.
 */
module ScopedDiscovery {
  import opened Text
  import opened Ordering
  import opened Filtering
  import opened Mutants
  import opened RelFile
  import opened StableId
  import opened Discovery

  // ----- narrowing the files -----

  /** A file's segment with its colon, and the ID, agree up to the shorter of them. */
  predicate Qualifies(env: Env, id: string, path: string) {
    var seg := env.segment(path) + ":";
    HasPrefix(seg, id) || HasPrefix(id, seg)
  }

  function ScopeFiles(env: Env, id: string, dir: string, names: seq<string>): seq<string> {
    if names == [] then []
    else
      var last := names[|names| - 1];
      ScopeFiles(env, id, dir, names[..|names| - 1]) + if Qualifies(env, id, Join(dir, last)) then [last] else []
  }

  function Scope(env: Env, id: string, pkgs: seq<Package>): seq<Package> {
    if pkgs == [] then []
    else
      var last := pkgs[|pkgs| - 1];
      Scope(env, id, pkgs[..|pkgs| - 1]) + [last.(goFiles := ScopeFiles(env, id, last.dir, last.goFiles))]
  }

  method ScopeToStableID(env: Env, pkgs: seq<Package>, id: string) returns (scoped: seq<Package>)
    ensures scoped == Scope(env, id, pkgs)
  {
    scoped := [];
    for i := 0 to |pkgs|
      invariant scoped == Scope(env, id, pkgs[..i])
    {
      var pkg := pkgs[i];
      var names: seq<string> := [];
      for j := 0 to |pkg.goFiles|
        invariant names == ScopeFiles(env, id, pkg.dir, pkg.goFiles[..j])
      {
        var name := pkg.goFiles[j];
        var seg := env.segment(Join(pkg.dir, name)) + ":";
        if HasPrefix(seg, id) || HasPrefix(id, seg) { names := names + [name]; }
        assert pkg.goFiles[..j + 1][..j] == pkg.goFiles[..j];
      }
      assert pkg.goFiles[..|pkg.goFiles|] == pkg.goFiles;
      assert pkgs[..i + 1][..i] == pkgs[..i];
      scoped := scoped + [pkg.(goFiles := names)];
    }
    assert pkgs[..|pkgs|] == pkgs;
  }

  function InFiles(env: Env, id: string): string -> bool {
    path => Qualifies(env, id, path)
  }

  function InScope(env: Env, id: string): Candidate -> bool {
    (c: Candidate) => Qualifies(env, id, c.file)
  }

  lemma {:induction false} FilesInScope(env: Env, id: string, dir: string, names: seq<string>)
    ensures FilesIn(dir, ScopeFiles(env, id, dir, names)) == Keep(FilesIn(dir, names), InFiles(env, id))
  {
    if names != [] {
      var n := |names| - 1;
      var kept, last := ScopeFiles(env, id, dir, names[..n]), names[n];
      FilesInScope(env, id, dir, names[..n]);
      KeepSnoc(FilesIn(dir, names[..n]), Join(dir, last), InFiles(env, id));
      assert (kept + [last])[..|kept|] == kept && kept + [] == kept;
    }
  }

  /** The narrowed packages list exactly the files that qualify. */
  lemma {:induction false} FilesOfScope(env: Env, id: string, pkgs: seq<Package>)
    ensures FilesOf(Scope(env, id, pkgs)) == Keep(FilesOf(pkgs), InFiles(env, id))
  {
    if pkgs != [] {
      var front, last := pkgs[..|pkgs| - 1], pkgs[|pkgs| - 1];
      FilesOfScope(env, id, front);
      FilesInScope(env, id, last.dir, last.goFiles);
      KeepAppend(FilesOf(front), FilesIn(last.dir, last.goFiles), InFiles(env, id));
      var kept, narrowed := Scope(env, id, front), last.(goFiles := ScopeFiles(env, id, last.dir, last.goFiles));
      assert (kept + [narrowed])[..|kept|] == kept;
    }
  }

  /** Every candidate's position names the file it was found in, as far as IDs can tell. */
  ghost predicate InPlace(env: Env, paths: seq<string>) {
    forall path, c | path in paths && c in Found(env, path) :: env.segment(c.file) == env.segment(path)
  }

  lemma {:induction false} FoundInScope(env: Env, id: string, paths: seq<string>)
    requires InPlace(env, paths)
    ensures FoundAll(env, Keep(paths, InFiles(env, id))) == Keep(FoundAll(env, paths), InScope(env, id))
  {
    if paths != [] {
      var front, last := paths[..|paths| - 1], paths[|paths| - 1];
      assert last in paths && forall path | path in front :: path in paths;
      FoundInScope(env, id, front);
      KeepAll(Found(env, last), InScope(env, id), Qualifies(env, id, last));
      KeepAppend(FoundAll(env, front), Found(env, last), InScope(env, id));
      var kept, found := Keep(front, InFiles(env, id)), FoundAll(env, Keep(front, InFiles(env, id)));
      assert kept + [] == kept && found + [] == found;
      FoundSnoc(env, kept, last);
    }
  }

  /** The narrowed packages hold exactly the candidates of the files that qualify. */
  lemma GatheredInScope(env: Env, id: string, pkgs: seq<Package>)
    requires InPlace(env, FilesOf(pkgs))
    ensures Gathered(env, Scope(env, id, pkgs)) == Keep(Gathered(env, pkgs), InScope(env, id))
  {
    FilesOfScope(env, id, pkgs);
    FoundInScope(env, id, FilesOf(pkgs));
  }

  lemma {:induction false} ScopeKeepsPaths(env: Env, id: string, pkgs: seq<Package>)
    ensures ImportPaths(Scope(env, id, pkgs)) == ImportPaths(pkgs)
  {
    if pkgs != [] {
      var n := |pkgs| - 1;
      ScopeKeepsPaths(env, id, pkgs[..n]);
      assert ImportPaths(pkgs) == ImportPaths(pkgs[..n]) + [pkgs[n].importPath];
      var kept := Scope(env, id, pkgs[..n]);
      assert |kept| == |ImportPaths(kept)| == n;
      assert ImportPaths(Scope(env, id, pkgs)) == ImportPaths(kept) + [pkgs[n].importPath];
    }
  }

  lemma {:induction false} ScopeKeepsPackage(env: Env, id: string, pkgs: seq<Package>, path: string)
    requires Qualifies(env, id, path)
    ensures PackageOf(Scope(env, id, pkgs), path) == PackageOf(pkgs, path)
  {
    if pkgs != [] {
      var front, last := pkgs[..|pkgs| - 1], pkgs[|pkgs| - 1];
      ScopeKeepsPackage(env, id, front, path);
      FilesInScope(env, id, last.dir, last.goFiles);
      KeepElements(FilesIn(last.dir, last.goFiles), InFiles(env, id));
      var kept, narrowed := Scope(env, id, front), last.(goFiles := ScopeFiles(env, id, last.dir, last.goFiles));
      assert (kept + [narrowed])[..|kept|] == kept;
    }
  }

  // ----- the mutants of the narrowed packages -----

  /** A mutant without its number in the run. */
  function Unnumbered(m: Mutant): Mutant {
    m.(id := 0)
  }

  function AllUnnumbered(ms: seq<Mutant>): (r: seq<Mutant>)
    ensures |r| == |ms| && forall i | 0 <= i < |ms| :: r[i] == Unnumbered(ms[i])
  {
    seq(|ms|, i requires 0 <= i < |ms| => Unnumbered(ms[i]))
  }

  lemma AssembledPrefix(v: View, s: seq<Candidate>, c: Candidate, i: nat)
    requires i < |s|
    ensures Assembled(v, s + [c])[i] == Assembled(v, s)[i]
  {
    var t := s + [c];
    AssembledAt(v, t, i);
    AssembledAt(v, s, i);
    assert GroupsOf(v, t)[..i + 1] == GroupsOf(v, s)[..i + 1];
  }

  lemma GroupsSnoc(v: View, s: seq<Candidate>, c: Candidate, g: Group)
    ensures Count(GroupsOf(v, s + [c]), g) == Count(GroupsOf(v, s), g) + if v.groupOf(c) == g then 1 else 0
  {
    var groups := GroupsOf(v, s + [c]);
    assert groups[..|s|] == GroupsOf(v, s) && |groups| == |s| + 1 && groups[|s|] == v.groupOf(c);
  }

  function LastMutant(v: View, s: seq<Candidate>, c: Candidate): Mutant {
    var g := v.groupOf(c);
    MakeMutant(c, |s| + 1, v.packageOf(c.file), v.relFileOf(c.file), g, Count(GroupsOf(v, s), g) + 1)
  }

  lemma AssembledSnoc(v: View, s: seq<Candidate>, c: Candidate)
    ensures Assembled(v, s + [c]) == Assembled(v, s) + [LastMutant(v, s, c)]
  {
    var t, n := s + [c], |s|;
    forall i: nat | i < n ensures Assembled(v, t)[i] == Assembled(v, s)[i] {
      AssembledPrefix(v, s, c, i);
    }
    AssembledAt(v, t, n);
    GroupsSnoc(v, s, c, v.groupOf(c));
    assert GroupsOf(v, t)[..n + 1] == GroupsOf(v, t);
    assert |Assembled(v, t)| == n + 1 && |Assembled(v, s)| == n;
  }

  /** Of a group whose candidates are all kept, all are counted. */
  lemma {:induction false} CountKept(v: View, s: seq<Candidate>, q: Candidate -> bool, g: Group)
    requires forall c | c in s && v.groupOf(c) == g :: q(c)
    ensures Count(GroupsOf(v, Keep(s, q)), g) == Count(GroupsOf(v, s), g)
  {
    if s != [] {
      var front, last := s[..|s| - 1], s[|s| - 1];
      assert last in s && forall c | c in front :: c in s;
      CountKept(v, front, q, g);
      var kept := Keep(front, q);
      assert s == front + [last] && kept + [] == kept;
      GroupsSnoc(v, front, last, g);
      GroupsSnoc(v, kept, last, g);
    }
  }

  /** Two views that agree on what is kept, where a group is kept whole or not at all. */
  ghost predicate AgreeOn(v: View, v': View, q: Candidate -> bool, files: string -> bool) {
    && (forall c | q(c) :: v.groupOf(c) == v'.groupOf(c))
    && (forall c :: q(c) == files(c.file))
    && (forall path | files(path) :: v.packageOf(path) == v'.packageOf(path) && v.relFileOf(path) == v'.relFileOf(path))
    && (forall c, d | v.groupOf(c) == v.groupOf(d) :: q(c) == q(d))
  }

  function FileIn(files: string -> bool): Mutant -> bool {
    (m: Mutant) => files(m.file)
  }

  lemma LastKept(v: View, v': View, q: Candidate -> bool, files: string -> bool, s: seq<Candidate>, last: Candidate)
    requires AgreeOn(v, v', q, files) && q(last)
    ensures Unnumbered(LastMutant(v', Keep(s, q), last)) == Unnumbered(LastMutant(v, s, last))
  {
    var g, kept := v.groupOf(last), Keep(s, q);
    CountKept(v, s, q, g);
    KeepElements(s, q);
    forall i | 0 <= i < |kept| ensures v.groupOf(kept[i]) == v'.groupOf(kept[i]) {
      assert kept[i] in kept;
    }
    assert GroupsOf(v', kept) == GroupsOf(v, kept);
    assert files(last.file);
  }

  lemma UnnumberedSnoc(ms: seq<Mutant>, m: Mutant)
    ensures AllUnnumbered(ms + [m]) == AllUnnumbered(ms) + [Unnumbered(m)]
  {
  }

  /** What is assembled of what is kept is what is kept of all that is assembled, but for the numbers in the run. */
  lemma {:induction false} AssembledKept(v: View, v': View, q: Candidate -> bool, files: string -> bool, s: seq<Candidate>)
    requires AgreeOn(v, v', q, files)
    ensures AllUnnumbered(Assembled(v', Keep(s, q))) == Keep(AllUnnumbered(Assembled(v, s)), FileIn(files))
  {
    if s != [] {
      var front, last := s[..|s| - 1], s[|s| - 1];
      AssembledKept(v, v', q, files, front);
      AssembledKeptSnoc(v, v', q, files, front, last);
      assert s == front + [last];
    }
  }

  lemma AssembledKeptSnoc(v: View, v': View, q: Candidate -> bool, files: string -> bool, s: seq<Candidate>, last: Candidate)
    requires AgreeOn(v, v', q, files)
    requires AllUnnumbered(Assembled(v', Keep(s, q))) == Keep(AllUnnumbered(Assembled(v, s)), FileIn(files))
    ensures AllUnnumbered(Assembled(v', Keep(s + [last], q))) == Keep(AllUnnumbered(Assembled(v, s + [last])), FileIn(files))
  {
    var m, m' := LastMutant(v, s, last), LastMutant(v', Keep(s, q), last);
    AssembledSnoc(v, s, last);
    AssembledSnoc(v', Keep(s, q), last);
    UnnumberedSnoc(Assembled(v, s), m);
    UnnumberedSnoc(Assembled(v', Keep(s, q)), m');
    KeepSnoc(s, last, q);
    KeepSnoc(AllUnnumbered(Assembled(v, s)), Unnumbered(m), FileIn(files));
    assert FileIn(files)(Unnumbered(m)) == files(last.file) == q(last);
    if q(last) { LastKept(v, v', q, files, s, last); }
  }

  lemma SortKept(s: seq<Candidate>, all: seq<Candidate>, q: Candidate -> bool)
    requires IsSortOf(s, all)
    ensures IsSortOf(Keep(s, q), Keep(all, q))
  {
    KeepSorted(s, q, CandidateLess);
    forall x ensures multiset(Keep(s, q))[x] == multiset(Keep(all, q))[x] {
      KeepCounts(s, q, x);
      KeepCounts(all, q, x);
    }
  }

  lemma ViewsAgree(env: Env, id: string, pkgs: seq<Package>)
    ensures AgreeOn(ViewOf(env, pkgs), ViewOf(env, Scope(env, id, pkgs)), InScope(env, id), InFiles(env, id))
  {
    var v, v', files := ViewOf(env, pkgs), ViewOf(env, Scope(env, id, pkgs)), InFiles(env, id);
    ScopeKeepsPaths(env, id, pkgs);
    FilesOfScope(env, id, pkgs);
    KeepElements(FilesOf(pkgs), files);
    forall path | files(path)
      ensures v.packageOf(path) == v'.packageOf(path) && v.relFileOf(path) == v'.relFileOf(path)
    {
      ScopeKeepsPackage(env, id, pkgs, path);
    }
    forall c, d | v.groupOf(c) == v.groupOf(d) ensures InScope(env, id)(c) == InScope(env, id)(d) {
      assert GroupOf(env, FilesOf(pkgs), c).file == GroupOf(env, FilesOf(pkgs), d).file;
    }
  }

  lemma KeptTies(env: Env, id: string, pkgs: seq<Package>, s: seq<Candidate>)
    requires TiesAlike(ViewOf(env, pkgs), s)
    ensures TiesAlike(ViewOf(env, Scope(env, id, pkgs)), Keep(s, InScope(env, id)))
  {
    var v, v', q := ViewOf(env, pkgs), ViewOf(env, Scope(env, id, pkgs)), InScope(env, id);
    ViewsAgree(env, id, pkgs);
    KeepElements(s, q);
    forall x, y | x in Keep(s, q) && y in Keep(s, q) && OrderKey(x) == OrderKey(y) ensures ShowAlike(v', x, y) {
      assert q(x) && q(y) && ShowAlike(v, x, y);
    }
  }

  /** Discovery over the narrowed packages finds what full discovery finds in the files that qualify, name for name. */
  lemma ScopedIsNarrowed(env: Env, id: string, pkgs: seq<Package>, full: seq<Mutant>, scoped: seq<Mutant>)
    requires OrderDecides(env, pkgs) && InPlace(env, FilesOf(pkgs))
    requires IsDiscovery(env, pkgs, full) && IsDiscovery(env, Scope(env, id, pkgs), scoped)
    ensures AllUnnumbered(scoped) == Keep(AllUnnumbered(full), FileIn(InFiles(env, id)))
  {
    var q, all, narrowed := InScope(env, id), Gathered(env, pkgs), Scope(env, id, pkgs);
    var s :| IsSortOf(s, all) && full == Assembled(ViewOf(env, pkgs), s);
    var s' :| IsSortOf(s', Gathered(env, narrowed)) && scoped == Assembled(ViewOf(env, narrowed), s');
    GatheredInScope(env, id, pkgs);
    SortKept(s, all, q);
    SortedTies(ViewOf(env, pkgs), s, all);
    KeptTies(env, id, pkgs, s);
    SortsShowAlike(ViewOf(env, narrowed), Keep(s, q), s');
    ViewsAgree(env, id, pkgs);
    AssembledKept(ViewOf(env, pkgs), ViewOf(env, narrowed), q, InFiles(env, id), s);
  }

  // ----- the one mutant an ID names -----

  datatype Resolution = Target(mutant: Mutant) | Missing | Ambiguous(ids: seq<string>)

  function Exact(id: string): Mutant -> bool {
    (m: Mutant) => m.stableId == id
  }

  function Starting(id: string): Mutant -> bool {
    (m: Mutant) => HasPrefix(m.stableId, id)
  }

  function Ids(ms: seq<Mutant>): seq<string> {
    seq(|ms|, i requires 0 <= i < |ms| => ms[i].stableId)
  }

  /** The first exact match, else the only prefix match. */
  function Resolve(ms: seq<Mutant>, id: string): Resolution {
    var exact, matches := Keep(ms, Exact(id)), Keep(ms, Starting(id));
    if exact != [] then Target(exact[0])
    else if |matches| == 1 then Target(matches[0])
    else if |matches| == 0 then Missing
    else Ambiguous(Ids(matches))
  }

  method FilterByStableID(ms: seq<Mutant>, id: string) returns (r: Resolution)
    ensures r == Resolve(ms, id)
  {
    for i := 0 to |ms|
      invariant Keep(ms[..i], Exact(id)) == []
    {
      assert ms[..i + 1][..i] == ms[..i];
      if ms[i].stableId == id {
        assert ms == ms[..i + 1] + ms[i + 1..];
        KeepAppend(ms[..i + 1], ms[i + 1..], Exact(id));
        return Target(ms[i]);
      }
    }
    var matches: seq<Mutant> := [];
    for i := 0 to |ms|
      invariant matches == Keep(ms[..i], Starting(id))
    {
      assert ms[..i + 1][..i] == ms[..i];
      if HasPrefix(ms[i].stableId, id) { matches := matches + [ms[i]]; }
    }
    assert ms[..|ms|] == ms;
    if |matches| == 1 { return Target(matches[0]); }
    if |matches| == 0 { return Missing; }
    return Ambiguous(Ids(matches));
  }

  /** What the outcome means, IDs apart: an exact match wins, a prefix must have one match, and else there is none or more. */
  lemma ResolveMeans(ms: seq<Mutant>, id: string)
    requires forall i, j | 0 <= i < j < |ms| :: ms[i].stableId != ms[j].stableId
    ensures forall m | m in ms && m.stableId == id :: Resolve(ms, id) == Target(m)
    ensures (forall m | m in ms :: m.stableId != id) ==> forall m ::
      Resolve(ms, id) == Target(m) <==> m in ms && HasPrefix(m.stableId, id) && forall n | n in ms && HasPrefix(n.stableId, id) :: n == m
    ensures Resolve(ms, id) == Missing <==> forall m | m in ms :: !HasPrefix(m.stableId, id)
  {
    var exact, matches := Keep(ms, Exact(id)), Keep(ms, Starting(id));
    KeepElements(ms, Exact(id));
    KeepElements(ms, Starting(id));
    KeepApart(ms, Starting(id));
    forall m | m in ms && m.stableId == id ensures Resolve(ms, id) == Target(m) {
      assert m in exact;
      assert exact[0] in exact;
    }
    if |matches| > 0 { assert matches[0] in matches; }
    if |matches| > 1 { assert matches[1] in matches; }
  }

  lemma {:induction false} KeepApart(ms: seq<Mutant>, q: Mutant -> bool)
    requires forall i, j | 0 <= i < j < |ms| :: ms[i].stableId != ms[j].stableId
    ensures forall i, j | 0 <= i < j < |Keep(ms, q)| :: Keep(ms, q)[i].stableId != Keep(ms, q)[j].stableId
  {
    if ms != [] {
      var front, last := ms[..|ms| - 1], ms[|ms| - 1];
      KeepApart(front, q);
      KeepElements(front, q);
      forall m | m in Keep(front, q) ensures m.stableId != last.stableId {
        var k :| 0 <= k < |front| && front[k] == m;
        assert ms[k] == m;
      }
    }
  }

  function UnnumberedTarget(r: Resolution): Resolution {
    if r.Target? then Target(Unnumbered(r.mutant)) else r
  }

  lemma {:induction false} KeepUnnumbered(ms: seq<Mutant>, q: Mutant -> bool)
    requires forall m | m in ms :: q(Unnumbered(m)) == q(m)
    ensures Keep(AllUnnumbered(ms), q) == AllUnnumbered(Keep(ms, q))
  {
    if ms != [] {
      var front, last := ms[..|ms| - 1], ms[|ms| - 1];
      assert last in ms && forall m | m in front :: m in ms;
      KeepUnnumbered(front, q);
      assert AllUnnumbered(ms)[..|ms| - 1] == AllUnnumbered(front);
    }
  }

  /** Numbers aside, an outcome depends on the mutants that match alone. */
  lemma ResolveByMatches(ms: seq<Mutant>, ms': seq<Mutant>, id: string)
    requires Keep(AllUnnumbered(ms), Exact(id)) == Keep(AllUnnumbered(ms'), Exact(id))
    requires Keep(AllUnnumbered(ms), Starting(id)) == Keep(AllUnnumbered(ms'), Starting(id))
    ensures UnnumberedTarget(Resolve(ms, id)) == UnnumberedTarget(Resolve(ms', id))
  {
    KeepUnnumbered(ms, Exact(id));
    KeepUnnumbered(ms', Exact(id));
    KeepUnnumbered(ms, Starting(id));
    KeepUnnumbered(ms', Starting(id));
    var matches, matches' := Keep(ms, Starting(id)), Keep(ms', Starting(id));
    assert AllUnnumbered(matches) == AllUnnumbered(matches');
    forall i | 0 <= i < |matches| ensures matches[i].stableId == matches'[i].stableId {
      assert AllUnnumbered(matches)[i] == AllUnnumbered(matches')[i];
    }
    assert Ids(matches) == Ids(matches');
  }

  /** A mutant an ID could mean lies in a file that qualifies. */
  lemma MatchesQualify(env: Env, id: string, pkgs: seq<Package>, full: seq<Mutant>, m: Mutant)
    requires IsDiscovery(env, pkgs, full) && m in AllUnnumbered(full) && HasPrefix(m.stableId, id)
    ensures Qualifies(env, id, m.file)
  {
    var v := ViewOf(env, pkgs);
    var s :| IsSortOf(s, Gathered(env, pkgs)) && full == Assembled(v, s);
    var i :| 0 <= i < |full| && AllUnnumbered(full)[i] == m;
    AssembledAt(v, s, i);
    RenderStartsWithFile(v.groupOf(s[i]), Ordinal(GroupsOf(v, s), i));
    assert v.groupOf(s[i]).file == env.segment(m.file);
    PrefixesCompare(env.segment(m.file) + ":", id, m.stableId);
  }

  lemma PrefixesCompare(a: string, b: string, s: string)
    requires a <= s && b <= s
    ensures a <= b || b <= a
  {
    assert a == s[..|a|] && b == s[..|b|];
    if |a| <= |b| { assert a == b[..|a|]; } else { assert b == a[..|b|]; }
  }

  /** So where every mutant's position names its file, an ID means over the narrowed packages what it means over all. */
  lemma InPlaceResolvesAlike(env: Env, id: string, pkgs: seq<Package>, full: seq<Mutant>, scoped: seq<Mutant>)
    requires OrderDecides(env, pkgs) && InPlace(env, FilesOf(pkgs))
    requires IsDiscovery(env, pkgs, full) && IsDiscovery(env, Scope(env, id, pkgs), scoped)
    ensures UnnumberedTarget(Resolve(scoped, id)) == UnnumberedTarget(Resolve(full, id))
  {
    var files := FileIn(InFiles(env, id));
    ScopedIsNarrowed(env, id, pkgs, full, scoped);
    forall m | m in AllUnnumbered(full) && Starting(id)(m) ensures files(m) {
      MatchesQualify(env, id, pkgs, full, m);
    }
    KeepTwice(AllUnnumbered(full), files, Starting(id));
    KeepTwice(AllUnnumbered(full), files, Exact(id));
    ResolveByMatches(scoped, full, id);
  }

  // ----- a mutant whose position names another file -----

  /** How many candidates are of group `g`. */
  function Size(v: View, s: seq<Candidate>, g: Group): nat {
    Count(GroupsOf(v, s), g)
  }

  lemma {:induction false} CountIsMultiplicity<T>(s: seq<T>, x: T)
    ensures Count(s, x) == multiset(s)[x]
  {
    if s != [] {
      CountIsMultiplicity(s[..|s| - 1], x);
      assert s == s[..|s| - 1] + [s[|s| - 1]];
    }
  }

  lemma SizeIgnoresOrder(v: View, s: seq<Candidate>, s': seq<Candidate>, g: Group)
    requires multiset(s) == multiset(s')
    ensures Size(v, s, g) == Size(v, s', g)
  {
    MappedPermutes(s, s', v.groupOf);
    CountIsMultiplicity(GroupsOf(v, s), g);
    CountIsMultiplicity(GroupsOf(v, s'), g);
  }

  lemma SizeAppend(v: View, a: seq<Candidate>, b: seq<Candidate>, g: Group)
    ensures Size(v, a + b, g) == Size(v, a, g) + Size(v, b, g)
  {
    CountIsMultiplicity(GroupsOf(v, a + b), g);
    CountIsMultiplicity(GroupsOf(v, a), g);
    CountIsMultiplicity(GroupsOf(v, b), g);
    assert GroupsOf(v, a + b) == GroupsOf(v, a) + GroupsOf(v, b);
  }

  lemma {:induction false} SizeGrows(v': View, v: View, s: seq<Candidate>, g: Group)
    requires forall c | v'.groupOf(c) == g :: v.groupOf(c) == g
    ensures Size(v', s, g) <= Size(v, s, g)
  {
    if s != [] {
      var front, last := s[..|s| - 1], s[|s| - 1];
      SizeGrows(v', v, front, g);
      assert s == front + [last];
      GroupsSnoc(v, front, last, g);
      GroupsSnoc(v', front, last, g);
    }
  }

  lemma SizeOfOne(v: View, s: seq<Candidate>, c: Candidate)
    requires c in s
    ensures Size(v, s, v.groupOf(c)) > 0
  {
    var i :| 0 <= i < |s| && s[i] == c;
    CountIsMultiplicity(GroupsOf(v, s), v.groupOf(c));
    assert GroupsOf(v, s)[i] == v.groupOf(c);
  }

  /** One of the files dropped has a candidate of the group. */
  ghost predicate Drops(env: Env, v: View, paths: seq<string>, files: string -> bool, g: Group) {
    exists path, c | path in paths && c in Found(env, path) :: !files(path) && v.groupOf(c) == g
  }

  /** What is left of a group when files are dropped: less, if it has a candidate in one of them. */
  lemma {:induction false} SizeDrops(env: Env, v': View, v: View, paths: seq<string>, files: string -> bool, g: Group)
    requires forall c | v'.groupOf(c) == g :: v.groupOf(c) == g
    ensures var left, all := Size(v', FoundAll(env, Keep(paths, files)), g), Size(v, FoundAll(env, paths), g);
      left <= all && (Drops(env, v, paths, files, g) ==> left < all)
  {
    if paths != [] {
      var front, last := paths[..|paths| - 1], paths[|paths| - 1];
      SizeDrops(env, v', v, front, files, g);
      SizeAppend(v, FoundAll(env, front), Found(env, last), g);
      if files(last) {
        FoundSnoc(env, Keep(front, files), last);
        SizeAppend(v', FoundAll(env, Keep(front, files)), Found(env, last), g);
        SizeGrows(v', v, Found(env, last), g);
      } else {
        assert Keep(front, files) + [] == Keep(front, files);
      }
      if Drops(env, v, paths, files, g) { DropsLast(env, v, paths, files, g); }
    }
  }

  lemma DropsLast(env: Env, v: View, paths: seq<string>, files: string -> bool, g: Group)
    requires paths != [] && Drops(env, v, paths, files, g)
    ensures var front, last := paths[..|paths| - 1], paths[|paths| - 1];
      Drops(env, v, front, files, g) || (!files(last) && Size(v, Found(env, last), g) > 0)
  {
    var path, c :| path in paths && c in Found(env, path) && !files(path) && v.groupOf(c) == g;
    if path !in paths[..|paths| - 1] { SizeOfOne(v, Found(env, path), c); }
  }

  /** No path has a colon in its segment, neither a file's nor one a position names. */
  ghost predicate ColonFree(env: Env, paths: seq<string>) {
    forall path, c | path in paths && c in Found(env, path) :: ':' !in env.segment(path) && ':' !in env.segment(c.file)
  }

  /** Of a file with another segment no ID can make a file qualify. */
  lemma OtherFilesDoNotQualify(env: Env, g: Group, n: nat, path: string)
    requires ':' !in g.file && ':' !in env.segment(path) && g.file != env.segment(path)
    ensures !Qualifies(env, Render(g, n), path)
  {
    var colon, id, seg := ':', Render(g, n), env.segment(path) + ":";
    var rest := g.anchor + ":" + g.typ + "#" + Decimal(n);
    assert id == g.file + ([colon] + rest) && |rest| > 0;
    if HasPrefix(id, seg) {
      var tail := id[|seg|..];
      assert id == seg + tail == env.segment(path) + ([colon] + tail);
      SplitAtFirst(g.file, rest, env.segment(path), tail, colon);
    }
    if HasPrefix(seg, id) {
      var tail := seg[|id|..];
      assert seg == env.segment(path) + ([colon] + "");
      assert seg == id + tail == g.file + ([colon] + (rest + tail));
      SplitAtFirst(g.file, rest + tail, env.segment(path), "", colon);
    }
  }

  /** The last of its group, a mutant has the group's size for its ordinal. */
  lemma LastOfGroup(v: View, s: seq<Candidate>, g: Group) returns (m: Mutant)
    requires Size(v, s, g) > 0
    ensures m in Assembled(v, s) && m.stableId == Render(g, Size(v, s, g))
  {
    var i := OrdinalsCount(GroupsOf(v, s), g, Size(v, s, g));
    AssembledAt(v, s, i);
    m := Assembled(v, s)[i];
  }

  lemma OrdinalIsBounded(v: View, s: seq<Candidate>, i: nat)
    requires i < |s|
    ensures Ordinal(GroupsOf(v, s), i) <= Size(v, s, v.groupOf(s[i]))
  {
    var groups := GroupsOf(v, s);
    CountGrows(groups, i + 1, |s|, groups[i]);
    assert groups[..|s|] == groups;
  }

  /** With fewer in the group, no mutant has that ordinal. */
  lemma NoneHasId(env: Env, pkgs: seq<Package>, ms: seq<Mutant>, g: Group, n: nat)
    requires GoodEnv(env) && IsDiscovery(env, pkgs, ms) && Separable(g)
    requires Size(ViewOf(env, pkgs), Gathered(env, pkgs), g) < n
    ensures forall m | m in ms :: m.stableId != Render(g, n)
  {
    var v, all := ViewOf(env, pkgs), Gathered(env, pkgs);
    var s :| IsSortOf(s, all) && ms == Assembled(v, s);
    forall i: nat | i < |ms| ensures ms[i].stableId != Render(g, n) {
      var g', k := v.groupOf(s[i]), Ordinal(GroupsOf(v, s), i);
      AssembledAt(v, s, i);
      assert s[i] in multiset(s);
      GroupIsSeparable(env, pkgs, s[i]);
      OrdinalIsBounded(v, s, i);
      SizeIgnoresOrder(v, s, all, g');
      if Render(g', k) == Render(g, n) { RenderInjective(g', k, g, n); }
    }
  }

  /** In the narrowed view no candidate joins a group of a file that qualifies. */
  lemma NoneJoins(env: Env, id: string, pkgs: seq<Package>, g: Group, c: Candidate)
    requires HasPrefix(id, g.file + ":") && ViewOf(env, Scope(env, id, pkgs)).groupOf(c) == g
    ensures ViewOf(env, pkgs).groupOf(c) == g
  {
    ViewsAgree(env, id, pkgs);
    assert InScope(env, id)(c);
  }

  /** The ID of the last mutant of a misplaced candidate's group names it in the full run and nothing in the narrowed one. */
  lemma MisplacedIsLost(env: Env, pkgs: seq<Package>, path: string, c: Candidate, full: seq<Mutant>) returns (id: string)
    requires GoodEnv(env) && IsDiscovery(env, pkgs, full) && ColonFree(env, FilesOf(pkgs))
    requires path in FilesOf(pkgs) && c in Found(env, path) && env.segment(c.file) != env.segment(path)
    ensures exists m | m in full :: m.stableId == id
    ensures forall scoped: seq<Mutant>, m | IsDiscovery(env, Scope(env, id, pkgs), scoped) && m in scoped :: m.stableId != id
  {
    var v, all := ViewOf(env, pkgs), Gathered(env, pkgs);
    var g := v.groupOf(c);
    var n := Size(v, all, g);
    id := Render(g, n);
    FoundIsGathered(env, FilesOf(pkgs), path, c);
    GroupIsSeparable(env, pkgs, c);
    SizeOfOne(v, all, c);
    var s :| IsSortOf(s, all) && full == Assembled(v, s);
    SizeIgnoresOrder(v, s, all, g);
    var last := LastOfGroup(v, s, g);
    OtherFilesDoNotQualify(env, g, n, path);
    RenderStartsWithFile(g, n);
    GroupShrinks(env, pkgs, path, c, id);
    forall scoped: seq<Mutant>, m | IsDiscovery(env, Scope(env, id, pkgs), scoped) && m in scoped ensures m.stableId != id {
      NoneHasId(env, Scope(env, id, pkgs), scoped, g, n);
    }
  }

  lemma GroupShrinks(env: Env, pkgs: seq<Package>, path: string, c: Candidate, id: string)
    requires path in FilesOf(pkgs) && c in Found(env, path) && !Qualifies(env, id, path)
    requires HasPrefix(id, env.segment(c.file) + ":")
    ensures var g, narrowed := ViewOf(env, pkgs).groupOf(c), Scope(env, id, pkgs);
      Size(ViewOf(env, narrowed), Gathered(env, narrowed), g) < Size(ViewOf(env, pkgs), Gathered(env, pkgs), g)
  {
    var v, v', g := ViewOf(env, pkgs), ViewOf(env, Scope(env, id, pkgs)), ViewOf(env, pkgs).groupOf(c);
    forall d | v'.groupOf(d) == g ensures v.groupOf(d) == g {
      NoneJoins(env, id, pkgs, g, d);
    }
    FilesOfScope(env, id, pkgs);
    SizeDrops(env, v', v, FilesOf(pkgs), InFiles(env, id), g);
    assert !InFiles(env, id)(path);
  }

  // ----- exactly when narrowing changes nothing -----

  /** Every ID means over the files it could name what it means over all. */
  ghost predicate ResolvesAlike(env: Env, pkgs: seq<Package>) {
    forall id, full, scoped | IsDiscovery(env, pkgs, full) && IsDiscovery(env, Scope(env, id, pkgs), scoped) ::
      UnnumberedTarget(Resolve(scoped, id)) == UnnumberedTarget(Resolve(full, id))
  }

  /** Narrowed to the files an ID could name, discovery finds in them what it finds in them over all. */
  ghost predicate Narrows(env: Env, pkgs: seq<Package>) {
    forall id, full, scoped | IsDiscovery(env, pkgs, full) && IsDiscovery(env, Scope(env, id, pkgs), scoped) ::
      AllUnnumbered(scoped) == Keep(AllUnnumbered(full), FileIn(InFiles(env, id)))
  }

  lemma LostIsNotResolved(full: seq<Mutant>, scoped: seq<Mutant>, id: string)
    requires exists m | m in full :: m.stableId == id
    requires forall m | m in scoped :: m.stableId != id
    ensures UnnumberedTarget(Resolve(scoped, id)) != UnnumberedTarget(Resolve(full, id))
  {
    KeepElements(full, Exact(id));
    KeepAll(scoped, Exact(id), false);
    KeepElements(scoped, Starting(id));
    var exact := Keep(full, Exact(id));
    var m :| m in full && m.stableId == id;
    assert m in exact && exact[0] in exact;
    var r := Resolve(scoped, id);
    if r.Target? { assert r.mutant in Keep(scoped, Starting(id)); }
  }

  lemma BareWithId(ms: seq<Mutant>, id: string) returns (bare: Mutant)
    requires exists m | m in ms :: m.stableId == id
    ensures bare in AllUnnumbered(ms) && bare.stableId == id
  {
    var i :| 0 <= i < |ms| && ms[i].stableId == id;
    bare := AllUnnumbered(ms)[i];
  }

  lemma NoBareWithId(ms: seq<Mutant>, id: string, bare: Mutant)
    requires bare.stableId == id && forall m | m in ms :: m.stableId != id
    ensures bare !in AllUnnumbered(ms)
  {
    forall k | 0 <= k < |ms| ensures AllUnnumbered(ms)[k] != bare {
      assert ms[k] in ms;
    }
  }

  lemma LostIsNotNarrowed(env: Env, pkgs: seq<Package>, full: seq<Mutant>, scoped: seq<Mutant>, id: string)
    requires IsDiscovery(env, pkgs, full) && exists m | m in full :: m.stableId == id
    requires forall m | m in scoped :: m.stableId != id
    ensures AllUnnumbered(scoped) != Keep(AllUnnumbered(full), FileIn(InFiles(env, id)))
  {
    var files := FileIn(InFiles(env, id));
    var bare := BareWithId(full, id);
    MatchesQualify(env, id, pkgs, full, bare);
    KeepElements(AllUnnumbered(full), files);
    NoBareWithId(scoped, id, bare);
  }

  lemma InPlaceNarrows(env: Env, pkgs: seq<Package>)
    requires OrderDecides(env, pkgs) && InPlace(env, FilesOf(pkgs))
    ensures Narrows(env, pkgs)
  {
    forall id, full, scoped | IsDiscovery(env, pkgs, full) && IsDiscovery(env, Scope(env, id, pkgs), scoped)
      ensures AllUnnumbered(scoped) == Keep(AllUnnumbered(full), FileIn(InFiles(env, id)))
    {
      ScopedIsNarrowed(env, id, pkgs, full, scoped);
    }
  }

  lemma InPlaceResolves(env: Env, pkgs: seq<Package>)
    requires OrderDecides(env, pkgs) && InPlace(env, FilesOf(pkgs))
    ensures ResolvesAlike(env, pkgs)
  {
    forall id, full, scoped | IsDiscovery(env, pkgs, full) && IsDiscovery(env, Scope(env, id, pkgs), scoped)
      ensures UnnumberedTarget(Resolve(scoped, id)) == UnnumberedTarget(Resolve(full, id))
    {
      InPlaceResolvesAlike(env, id, pkgs, full, scoped);
    }
  }

  lemma MisplacedDiffers(env: Env, pkgs: seq<Package>, path: string, c: Candidate)
    requires GoodEnv(env) && ColonFree(env, FilesOf(pkgs))
    requires path in FilesOf(pkgs) && c in Found(env, path) && env.segment(c.file) != env.segment(path)
    ensures !ResolvesAlike(env, pkgs) && !Narrows(env, pkgs)
  {
    var full := DiscoveryExists(env, pkgs);
    var id := MisplacedIsLost(env, pkgs, path, c, full);
    var scoped := DiscoveryExists(env, Scope(env, id, pkgs));
    LostIsNotResolved(full, scoped, id);
    LostIsNotNarrowed(env, pkgs, full, scoped, id);
  }

  /**
   Narrowing changes nothing, neither the mutants of the files kept nor what any ID resolves to, exactly when every
   candidate's position names the file it was found in.
   */
  lemma ScopedResolutionIsFull(env: Env, pkgs: seq<Package>)
    requires GoodEnv(env) && OrderDecides(env, pkgs) && ColonFree(env, FilesOf(pkgs))
    ensures ResolvesAlike(env, pkgs) <==> InPlace(env, FilesOf(pkgs))
    ensures Narrows(env, pkgs) <==> InPlace(env, FilesOf(pkgs))
  {
    if InPlace(env, FilesOf(pkgs)) {
      InPlaceNarrows(env, pkgs);
      InPlaceResolves(env, pkgs);
    } else {
      var path, c :| path in FilesOf(pkgs) && c in Found(env, path) && env.segment(c.file) != env.segment(path);
      MisplacedDiffers(env, pkgs, path, c);
    }
  }

  // ----- a generated file -----

  /** The one operator of a generated file: its position names the source the file is generated from. */
  function OperatorOf(source: string): Candidate {
    Candidate(source, 1, 1, 40, "ARITHMETIC_BASE", "+", "-", 40, 41)
  }

  /** A module of that file alone, with a `//line` directive. */
  function Generated(file: string, source: string): Env {
    Env(path => if path == file then Parsed([], [OperatorOf(source)]) else Unparseable, path => path, path => path)
  }

  lemma GeneratedFiles(dir: string, name: string, source: string)
    ensures FilesOf([Package("m", dir, [name])]) == [Join(dir, name)]
    ensures Gathered(Generated(Join(dir, name), source), [Package("m", dir, [name])]) == [OperatorOf(source)]
  {
    var pkgs, file := [Package("m", dir, [name])], Join(dir, name);
    assert pkgs[..0] == [] && [name][..0] == [];
    assert FilesIn(dir, [name]) == [] + [file] == [file];
    assert FilesOf(pkgs) == [] + FilesIn(dir, [name]);
    FoundSnoc(Generated(file, source), [], file);
    assert [] + [file] == [file];
  }

  lemma OneAssembled(v: View, c: Candidate, s: seq<Candidate>)
    requires multiset(s) == multiset([c])
    ensures |Assembled(v, s)| == 1 && Assembled(v, s)[0].stableId == Render(v.groupOf(c), 1)
  {
    assert |s| == |multiset(s)| == 1;
    assert s[0] in multiset([c]);
    AssembledAt(v, s, 0);
    var groups := GroupsOf(v, s);
    assert groups[..1] == groups && groups[..0] == [];
    assert Count(groups, groups[0]) == Count(groups[..0], groups[0]) + 1;
  }

  lemma NothingScoped(env: Env, id: string, dir: string, name: string, scoped: seq<Mutant>)
    requires IsDiscovery(env, Scope(env, id, [Package("m", dir, [name])]), scoped) && !Qualifies(env, id, Join(dir, name))
    ensures scoped == []
  {
    var pkgs := [Package("m", dir, [name])];
    var narrowed := Scope(env, id, pkgs);
    GeneratedFiles(dir, name, "");
    FilesOfScope(env, id, pkgs);
    KeepAll([Join(dir, name)], InFiles(env, id), false);
    assert Gathered(env, narrowed) == [];
    var s :| IsSortOf(s, Gathered(env, narrowed)) && scoped == Assembled(ViewOf(env, narrowed), s);
    assert |s| == |multiset(s)| == 0;
  }

  /** What a full run reports: the file's mutant, under the name of the source. */
  function GeneratedId(source: string): string {
    Render(Group(source, "", "ARITHMETIC_BASE"), 1)
  }

  lemma FullReports(dir: string, name: string, source: string, full: seq<Mutant>)
    requires source != Join(dir, name)
    requires IsDiscovery(Generated(Join(dir, name), source), [Package("m", dir, [name])], full)
    ensures |full| == 1 && full[0].stableId == GeneratedId(source)
  {
    var env, pkgs, c := Generated(Join(dir, name), source), [Package("m", dir, [name])], OperatorOf(source);
    var v := ViewOf(env, pkgs);
    GeneratedFiles(dir, name, source);
    assert v.groupOf(c) == Group(source, "", "ARITHMETIC_BASE") by {
      assert SpansIn(env, FilesOf(pkgs), c.file) == [];
    }
    var s :| IsSortOf(s, Gathered(env, pkgs)) && full == Assembled(v, s);
    OneAssembled(v, c, s);
  }

  /** By that name a narrowed run does not find it. */
  lemma LineDirectiveLosesMutant(dir: string, name: string, source: string, full: seq<Mutant>, scoped: seq<Mutant>)
    requires source != Join(dir, name) && ':' !in source && ':' !in Join(dir, name)
    requires IsDiscovery(Generated(Join(dir, name), source), [Package("m", dir, [name])], full)
    requires IsDiscovery(Generated(Join(dir, name), source),
                         Scope(Generated(Join(dir, name), source), GeneratedId(source), [Package("m", dir, [name])]), scoped)
    ensures |full| == 1 && full[0].stableId == GeneratedId(source)
    ensures Resolve(full, GeneratedId(source)) == Target(full[0]) && Resolve(scoped, GeneratedId(source)) == Missing
  {
    FullReports(dir, name, source, full);
    KeepAll(full, Exact(GeneratedId(source)), true);
    OtherFilesDoNotQualify(Generated(Join(dir, name), source), Group(source, "", "ARITHMETIC_BASE"), 1, Join(dir, name));
    NothingScoped(Generated(Join(dir, name), source), GeneratedId(source), dir, name, scoped);
  }
}
