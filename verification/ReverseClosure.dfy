/** The reverse-dependency closure of the target packages (internal/discover/revdeps.go). */
module ReverseClosure {
  import opened Text
  import opened Ordering

  /** A package to the in-module packages it imports. */
  type Imports = map<string, seq<string>>

  predicate Edge(fwd: Imports, importer: string, dep: string) {
    importer in fwd && dep in fwd[importer]
  }

  ghost predicate Path(fwd: Imports, path: seq<string>) {
    path != [] && forall i | 0 <= i < |path| - 1 :: Edge(fwd, path[i], path[i + 1])
  }

  /** Zero or more import edges lead from `pkg` to a target. */
  ghost predicate Reaches(fwd: Imports, pkg: string, targets: seq<string>) {
    exists path :: Path(fwd, path) && path[0] == pkg && path[|path| - 1] in targets
  }

  /** A package reaches a target along a list of packages each of which imports the next. */
  lemma ReachesMeans(fwd: Imports, pkg: string, targets: seq<string>)
    ensures Reaches(fwd, pkg, targets) <==>
      exists path: seq<string> :: path != [] && path[0] == pkg && path[|path| - 1] in targets
        && forall i | 0 <= i < |path| - 1 :: path[i] in fwd && path[i + 1] in fwd[path[i]]
  {
    if Reaches(fwd, pkg, targets) {
      var path :| Path(fwd, path) && path[0] == pkg && path[|path| - 1] in targets;
      forall i | 0 <= i < |path| - 1 ensures path[i] in fwd && path[i + 1] in fwd[path[i]] {
        assert Edge(fwd, path[i], path[i + 1]);
      }
    }
    if path: seq<string> :| path != [] && path[0] == pkg && path[|path| - 1] in targets
                            && forall i | 0 <= i < |path| - 1 :: path[i] in fwd && path[i + 1] in fwd[path[i]] {
      assert Path(fwd, path);
    }
  }

  lemma TargetReaches(fwd: Imports, pkg: string, targets: seq<string>)
    requires pkg in targets
    ensures Reaches(fwd, pkg, targets)
  {
    assert Path(fwd, [pkg]) && [pkg][0] == pkg;
  }

  lemma ImporterReaches(fwd: Imports, importer: string, dep: string, targets: seq<string>)
    requires Edge(fwd, importer, dep) && Reaches(fwd, dep, targets)
    ensures Reaches(fwd, importer, targets)
  {
    var path :| Path(fwd, path) && path[0] == dep && path[|path| - 1] in targets;
    var longer := [importer] + path;
    assert forall i | 0 < i < |longer| - 1 :: Edge(fwd, longer[i], longer[i + 1]) by {
      assert forall i | 0 < i < |longer| :: longer[i] == path[i - 1];
    }
    assert Path(fwd, longer) && longer[|longer| - 1] == path[|path| - 1];
  }

  /** A set that holds the targets and every importer of its own holds all that reach them. */
  lemma {:induction false} ClosedHoldsPath(fwd: Imports, closed: set<string>, path: seq<string>)
    requires Path(fwd, path) && path[|path| - 1] in closed
    requires forall a, b | b in closed && Edge(fwd, a, b) :: a in closed
    ensures path[0] in closed
    decreases |path|
  {
    if |path| > 1 {
      var rest := path[1..];
      assert forall i | 0 <= i < |rest| - 1 :: Edge(fwd, rest[i], rest[i + 1]) by {
        assert forall i | 0 <= i < |rest| :: rest[i] == path[i + 1];
      }
      ClosedHoldsPath(fwd, closed, rest);
      assert Edge(fwd, path[0], path[0 + 1]);
    }
  }

  /** The import graph turned around. */
  method Importers(fwd: Imports) returns (rev: map<string, seq<string>>)
    ensures forall a, b :: Edge(fwd, a, b) <==> b in rev && a in rev[b]
  {
    rev := map[];
    var todo := fwd.Keys;
    while todo != {}
      invariant todo <= fwd.Keys
      invariant forall a, b :: b in rev && a in rev[b] <==> a !in todo && Edge(fwd, a, b)
    {
      var pkg :| pkg in todo;
      var deps := fwd[pkg];
      for i := 0 to |deps|
        invariant forall a, b :: b in rev && a in rev[b] <==> (a !in todo && Edge(fwd, a, b)) || (a == pkg && b in deps[..i])
      {
        var dep := deps[i];
        assert deps[..i + 1] == deps[..i] + [dep];
        rev := rev[dep := (if dep in rev then rev[dep] else []) + [pkg]];
      }
      assert deps[..|deps|] == deps;
      todo := todo - {pkg};
    }
  }

  /** All but the queued have had their importers visited. */
  ghost predicate Expanded(fwd: Imports, visited: set<string>, queue: seq<string>) {
    forall a, b | b in visited && b !in queue && Edge(fwd, a, b) :: a in visited
  }

  ghost predicate AllReach(fwd: Imports, visited: set<string>, targets: seq<string>) {
    forall p | p in visited :: Reaches(fwd, p, targets)
  }

  /** Marks and queues what is new among `pkgs`. */
  method Visit(pkgs: seq<string>, visited: set<string>, queue: seq<string>) returns (visited': set<string>, queue': seq<string>)
    ensures visited' == visited + set p | p in pkgs
    ensures forall p :: p in queue' <==> p in queue || (p in pkgs && p !in visited)
    ensures visited' == visited ==> queue' == queue
  {
    visited', queue' := visited, queue;
    for i := 0 to |pkgs|
      invariant visited' == visited + set p | p in pkgs[..i]
      invariant forall p :: p in queue' <==> p in queue || (p in pkgs[..i] && p !in visited)
      invariant visited' == visited ==> queue' == queue
    {
      assert pkgs[..i + 1] == pkgs[..i] + [pkgs[i]];
      if pkgs[i] !in visited' {
        visited' := visited' + {pkgs[i]};
        queue' := queue' + [pkgs[i]];
      }
    }
    assert pkgs[..|pkgs|] == pkgs;
  }

  ghost predicate Walking(fwd: Imports, targets: seq<string>, visited: set<string>, queue: seq<string>) {
    && (forall t | t in targets :: t in visited)
    && (forall p | p in queue :: p in visited)
    && AllReach(fwd, visited, targets)
    && Expanded(fwd, visited, queue)
  }

  /** One turn of the walk: the first of the queue is taken, and its importers visited. */
  method Turn(fwd: Imports, rev: map<string, seq<string>>, ghost targets: seq<string>, visited: set<string>, queue: seq<string>)
      returns (visited': set<string>, queue': seq<string>)
    requires forall a, b :: Edge(fwd, a, b) <==> b in rev && a in rev[b]
    requires queue != [] && Walking(fwd, targets, visited, queue)
    ensures Walking(fwd, targets, visited', queue')
    ensures visited <= visited' <= visited + fwd.Keys
    ensures visited' == visited ==> |queue'| < |queue|
  {
    var cur, rest := queue[0], queue[1..];
    assert queue == [cur] + rest;
    var importers := if cur in rev then rev[cur] else [];
    visited', queue' := Visit(importers, visited, rest);
    forall p | p in visited' ensures Reaches(fwd, p, targets) {
      if p !in visited { ImporterReaches(fwd, p, cur, targets); }
    }
    forall a, b | b in visited' && b !in queue' && Edge(fwd, a, b) ensures a in visited' {
      if b != cur { assert b in visited && b !in queue; }
    }
  }

  /** With nothing queued the visited are those that reach a target. */
  lemma DoneIsClosure(fwd: Imports, targets: seq<string>, visited: set<string>)
    requires Walking(fwd, targets, visited, [])
    ensures forall p :: p in visited <==> Reaches(fwd, p, targets)
  {
    forall p | Reaches(fwd, p, targets) ensures p in visited {
      var path :| Path(fwd, path) && path[0] == p && path[|path| - 1] in targets;
      ClosedHoldsPath(fwd, visited, path);
    }
  }

  /** A breadth-first walk up the importers. */
  method Walk(targets: seq<string>, fwd: Imports) returns (visited: set<string>)
    ensures forall p :: p in visited <==> Reaches(fwd, p, targets)
  {
    var rev := Importers(fwd);
    var queue: seq<string>;
    visited, queue := Visit(targets, {}, []);
    forall p | p in visited ensures Reaches(fwd, p, targets) { TargetReaches(fwd, p, targets); }
    ghost var all := visited + fwd.Keys;
    while |queue| > 0
      invariant visited <= all
      invariant Walking(fwd, targets, visited, queue)
      decreases all - visited, |queue|
    {
      visited, queue := Turn(fwd, rev, targets, visited, queue);
    }
    DoneIsClosure(fwd, targets, visited);
  }

  /** Exactly the packages a target is reachable from, sorted and each once. */
  method ReverseClosure(targets: seq<string>, fwd: Imports) returns (out: seq<string>)
    ensures StrictlySorted(out, StrLess)
    ensures forall p :: p in out <==> Reaches(fwd, p, targets)
  {
    var visited := Walk(targets, fwd);
    out := SortedMembers(visited);
  }

  /** The closure does not depend on the order a map is walked in: it is one list. */
  lemma ClosureIsUnique(a: seq<string>, b: seq<string>, targets: seq<string>, fwd: Imports)
    requires StrictlySorted(a, StrLess) && forall p :: p in a <==> Reaches(fwd, p, targets)
    requires StrictlySorted(b, StrLess) && forall p :: p in b <==> Reaches(fwd, p, targets)
    ensures a == b
  {
    StrLessIsStrictTotal();
    StrictlySortedUnique(a, b, StrLess);
  }

  // ----- the graph it walks -----

  /** What `go list` says a package imports: from its sources, its tests and its external tests. */
  datatype PackageImports = PackageImports(imports: seq<string>, testImports: seq<string>, xTestImports: seq<string>)

  /** The module's root package or one beneath it, not one of a module whose name only starts alike. */
  predicate InModule(imp: string, moduleName: string) {
    imp == moduleName || HasPrefix(imp, moduleName + "/")
  }

  method ModuleLocalImports(p: PackageImports, moduleName: string) returns (out: seq<string>)
    ensures Distinct(out)
    ensures forall imp :: imp in out <==> InModule(imp, moduleName) && imp in p.imports + p.testImports + p.xTestImports
    ensures forall imp :: imp in out <==>
      && (imp == moduleName || (|imp| > |moduleName| && imp[..|moduleName|] == moduleName && imp[|moduleName|] == '/'))
      && (imp in p.imports || imp in p.testImports || imp in p.xTestImports)
  {
    var all := p.imports + p.testImports + p.xTestImports;
    var seen: set<string> := {};
    out := [];
    for i := 0 to |all|
      invariant Distinct(out)
      invariant forall imp :: imp in out <==> imp in seen
      invariant forall imp :: imp in seen <==> InModule(imp, moduleName) && imp in all[..i]
    {
      assert all[..i + 1] == all[..i] + [all[i]];
      if !InModule(all[i], moduleName) || all[i] in seen {
        continue;
      }
      seen := seen + {all[i]};
      DistinctSnoc(out, all[i]);
      out := out + [all[i]];
    }
    assert all[..|all|] == all;
    forall imp ensures InModule(imp, moduleName) <==>
      imp == moduleName || (|imp| > |moduleName| && imp[..|moduleName|] == moduleName && imp[|moduleName|] == '/')
    {
      var n := |moduleName|;
      if |imp| > n && imp[..n] == moduleName && imp[n] == '/' { assert imp[..n + 1] == moduleName + "/"; }
      if HasPrefix(imp, moduleName + "/") { assert imp[..n + 1] == moduleName + "/" && imp[..n] == imp[..n + 1][..n]; }
    }
  }
}
