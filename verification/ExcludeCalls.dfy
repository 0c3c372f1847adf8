/**
 Leaving out mutants inside calls of excluded functions (internal/discover/excludecalls.go). The scan stops at a
 matching call; what it keeps is compared with every matching call at any depth.
 */
module ExcludeCalls {
  import opened Filtering
  import opened Mutants

  /** A call's bytes and what its function is rendered as, "" when it cannot be named. */
  datatype Span = Span(start: int, end: int, selector: string)

  /** A list of syntax nodes: a call or not, with what is below it and then the nodes next to it. */
  datatype Forest =
    | Empty
    | Call(span: Span, inner: Forest, next: Forest)
    | Other(inner: Forest, next: Forest)

  type Matcher = string -> bool

  predicate Matches(match_: Matcher, s: Span) {
    s.selector != "" && match_(s.selector)
  }

  /** The calls the scan keeps: it does not look below one that matches. */
  function Pruned(f: Forest, match_: Matcher): seq<Span> {
    match f
    case Empty => []
    case Call(span, inner, next) => (if Matches(match_, span) then [span] else Pruned(inner, match_)) + Pruned(next, match_)
    case Other(inner, next) => Pruned(inner, match_) + Pruned(next, match_)
  }

  /** Every matching call, at any depth. */
  function Matching(f: Forest, match_: Matcher): seq<Span> {
    match f
    case Empty => []
    case Call(span, inner, next) =>
      (if Matches(match_, span) then [span] else []) + Matching(inner, match_) + Matching(next, match_)
    case Other(inner, next) => Matching(inner, match_) + Matching(next, match_)
  }

  /** Every call, whatever its name. */
  function Calls(f: Forest): seq<Span> {
    match f
    case Empty => []
    case Call(span, inner, next) => [span] + Calls(inner) + Calls(next)
    case Other(inner, next) => Calls(inner) + Calls(next)
  }

  /** Those are the calls whose function has a name that matches. */
  lemma {:induction false} MatchingMeans(f: Forest, match_: Matcher)
    ensures forall s :: s in Matching(f, match_) <==> s in Calls(f) && s.selector != "" && match_(s.selector)
  {
    match f {
      case Empty =>
      case Call(_, inner, next) =>
        MatchingMeans(inner, match_);
        MatchingMeans(next, match_);
      case Other(inner, next) =>
        MatchingMeans(inner, match_);
        MatchingMeans(next, match_);
    }
  }

  method Inspect(f: Forest, match_: Matcher, found: seq<Span>) returns (spans: seq<Span>)
    ensures spans == found + Pruned(f, match_)
    decreases f
  {
    spans := found;
    match f {
      case Empty =>
      case Call(span, inner, next) =>
        if span.selector == "" || !match_(span.selector) {
          spans := Inspect(inner, match_, spans);
        } else {
          spans := spans + [span];
        }
        spans := Inspect(next, match_, spans);
      case Other(inner, next) =>
        spans := Inspect(inner, match_, spans);
        spans := Inspect(next, match_, spans);
    }
  }

  // ----- calls nest -----

  /** At least a byte between them: an operator, a comma, a bracket or a new line parts any two calls that do not nest. */
  predicate Apart(a: Span, b: Span) {
    a.end < b.start || b.end < a.start
  }

  predicate Inside(a: Span, b: Span) {
    b.start <= a.start && a.end <= b.end
  }

  /** Every call in the list lies between two offsets. */
  predicate AllInside(f: Forest, s: Span) {
    match f
    case Empty => true
    case Call(span, inner, next) => Inside(span, s) && AllInside(inner, s) && AllInside(next, s)
    case Other(inner, next) => AllInside(inner, s) && AllInside(next, s)
  }

  predicate AllApart(f: Forest, s: Span) {
    match f
    case Empty => true
    case Call(span, inner, next) => Apart(span, s) && AllApart(inner, s) && AllApart(next, s)
    case Other(inner, next) => AllApart(inner, s) && AllApart(next, s)
  }

  /** Every call of one list is apart from every call of the other. */
  predicate BothApart(f: Forest, g: Forest) {
    match f
    case Empty => true
    case Call(span, inner, next) => AllApart(g, span) && BothApart(inner, g) && BothApart(next, g)
    case Other(inner, next) => BothApart(inner, g) && BothApart(next, g)
  }

  /** Calls take up bytes, those below a call lie in it, and those in different branches lie apart, as in any file that parses. */
  predicate Nested(f: Forest) {
    match f
    case Empty => true
    case Call(span, inner, next) =>
      span.start < span.end && AllInside(inner, span) && AllApart(next, span) && BothApart(inner, next) && Nested(inner) && Nested(next)
    case Other(inner, next) => BothApart(inner, next) && Nested(inner) && Nested(next)
  }

  lemma {:induction false} PrunedMatch(f: Forest, match_: Matcher)
    ensures forall s | s in Pruned(f, match_) :: s in Matching(f, match_)
  {
    match f {
      case Empty =>
      case Call(_, inner, next) =>
        PrunedMatch(inner, match_);
        PrunedMatch(next, match_);
      case Other(inner, next) =>
        PrunedMatch(inner, match_);
        PrunedMatch(next, match_);
    }
  }

  lemma {:induction false} MatchingInside(f: Forest, match_: Matcher, s: Span)
    requires AllInside(f, s)
    ensures forall t | t in Matching(f, match_) :: Inside(t, s)
  {
    match f {
      case Empty =>
      case Call(_, inner, next) =>
        MatchingInside(inner, match_, s);
        MatchingInside(next, match_, s);
      case Other(inner, next) =>
        MatchingInside(inner, match_, s);
        MatchingInside(next, match_, s);
    }
  }

  /** Nothing is lost by stopping: every matching call lies in one that is kept. */
  lemma {:induction false} MatchingAreCovered(f: Forest, match_: Matcher, t: Span) returns (s: Span)
    requires Nested(f) && t in Matching(f, match_)
    ensures s in Pruned(f, match_) && Inside(t, s)
  {
    match f {
      case Empty =>
      case Call(span, inner, next) =>
        if t in Matching(next, match_) {
          s := MatchingAreCovered(next, match_, t);
        } else if Matches(match_, span) {
          MatchingInside(inner, match_, span);
          s := span;
        } else {
          s := MatchingAreCovered(inner, match_, t);
        }
      case Other(inner, next) =>
        if t in Matching(inner, match_) {
          s := MatchingAreCovered(inner, match_, t);
        } else {
          s := MatchingAreCovered(next, match_, t);
        }
    }
  }

  lemma {:induction false} MatchingApart(f: Forest, match_: Matcher, s: Span)
    requires AllApart(f, s)
    ensures forall t | t in Matching(f, match_) :: Apart(t, s)
  {
    match f {
      case Empty =>
      case Call(_, inner, next) =>
        MatchingApart(inner, match_, s);
        MatchingApart(next, match_, s);
      case Other(inner, next) =>
        MatchingApart(inner, match_, s);
        MatchingApart(next, match_, s);
    }
  }

  lemma {:induction false} MatchingBothApart(f: Forest, g: Forest, match_: Matcher)
    requires BothApart(f, g)
    ensures forall s, t | s in Matching(f, match_) && t in Matching(g, match_) :: Apart(t, s)
  {
    match f {
      case Empty =>
      case Call(span, inner, next) =>
        MatchingApart(g, match_, span);
        MatchingBothApart(inner, g, match_);
        MatchingBothApart(next, g, match_);
      case Other(inner, next) =>
        MatchingBothApart(inner, g, match_);
        MatchingBothApart(next, g, match_);
    }
  }

  ghost predicate Disjoint(spans: seq<Span>) {
    forall i, j | 0 <= i < j < |spans| :: Apart(spans[j], spans[i])
  }

  lemma DisjointJoin(a: seq<Span>, b: seq<Span>)
    requires Disjoint(a) && Disjoint(b) && forall s, t | s in a && t in b :: Apart(t, s)
    ensures Disjoint(a + b)
  {
    var w := a + b;
    forall i, j | 0 <= i < j < |w| ensures Apart(w[j], w[i]) {
      if i < |a| <= j { assert w[i] in a && w[j] in b; }
    }
  }

  /** The kept spans are disjoint. */
  lemma {:induction false} PrunedDisjoint(f: Forest, match_: Matcher)
    requires Nested(f)
    ensures Disjoint(Pruned(f, match_))
  {
    match f {
      case Empty =>
      case Call(span, inner, next) =>
        PrunedDisjoint(inner, match_);
        PrunedDisjoint(next, match_);
        PrunedMatch(inner, match_);
        PrunedMatch(next, match_);
        MatchingApart(next, match_, span);
        MatchingBothApart(inner, next, match_);
        DisjointJoin(if Matches(match_, span) then [span] else Pruned(inner, match_), Pruned(next, match_));
      case Other(inner, next) =>
        PrunedDisjoint(inner, match_);
        PrunedDisjoint(next, match_);
        PrunedMatch(inner, match_);
        PrunedMatch(next, match_);
        MatchingBothApart(inner, next, match_);
        DisjointJoin(Pruned(inner, match_), Pruned(next, match_));
    }
  }

  // ----- which mutants are left out -----

  predicate Holds(s: Span, m: Mutant) {
    m.startOffset >= s.start && m.endOffset <= s.end
  }

  /** What the scan over the spans says of a mutant: the first that holds it. */
  datatype Hit = Miss | HitBy(selector: string)

  function FirstHit(spans: seq<Span>, m: Mutant): Hit {
    if spans == [] then Miss else if Holds(spans[0], m) then HitBy(spans[0].selector) else FirstHit(spans[1..], m)
  }

  method MatchIndex(spans: seq<Span>, m: Mutant) returns (r: Hit)
    ensures r == FirstHit(spans, m)
  {
    for i := 0 to |spans|
      invariant FirstHit(spans, m) == FirstHit(spans[i..], m)
    {
      assert spans[i..][0] == spans[i] && spans[i..][1..] == spans[i + 1..];
      if Holds(spans[i], m) { return HitBy(spans[i].selector); }
    }
    return Miss;
  }

  lemma {:induction false} FirstHitIsOne(spans: seq<Span>, m: Mutant)
    ensures FirstHit(spans, m).Miss? <==> forall s | s in spans :: !Holds(s, m)
    ensures FirstHit(spans, m).HitBy? ==> exists s :: s in spans && Holds(s, m) && s.selector == FirstHit(spans, m).selector
  {
    if spans != [] {
      FirstHitIsOne(spans[1..], m);
      assert spans == [spans[0]] + spans[1..];
      if Holds(spans[0], m) {
        assert spans[0] in spans;
      } else if FirstHit(spans[1..], m).HitBy? {
        var s :| s in spans[1..] && Holds(s, m) && s.selector == FirstHit(spans[1..], m).selector;
        assert s in spans;
      }
    }
  }

  /** A mutant is left out exactly when some matching call, however deep, holds its bytes. */
  lemma SuppressedExactly(f: Forest, match_: Matcher, m: Mutant)
    requires Nested(f)
    ensures FirstHit(Pruned(f, match_), m).HitBy? <==> exists s :: s in Matching(f, match_) && Holds(s, m)
  {
    FirstHitIsOne(Pruned(f, match_), m);
    PrunedMatch(f, match_);
    if s :| s in Matching(f, match_) && Holds(s, m) {
      var t := MatchingAreCovered(f, match_, s);
      assert Holds(t, m);
    }
  }

  /** At most one kept span holds a mutant, one that takes up no bytes included. */
  lemma HeldByOne(f: Forest, match_: Matcher, m: Mutant)
    requires Nested(f) && m.startOffset <= m.endOffset
    ensures forall s, t | s in Pruned(f, match_) && t in Pruned(f, match_) && Holds(s, m) && Holds(t, m) :: s == t
  {
    var spans := Pruned(f, match_);
    PrunedDisjoint(f, match_);
    forall s, t | s in spans && t in spans && Holds(s, m) && Holds(t, m) ensures s == t {
      var i :| 0 <= i < |spans| && spans[i] == s;
      var j :| 0 <= j < |spans| && spans[j] == t;
      assert i < j ==> Apart(spans[j], spans[i]);
      assert j < i ==> Apart(spans[i], spans[j]);
    }
  }

  /** In whatever order the spans are looked through, a mutant is judged the same. */
  lemma ScanOrderIsIrrelevant(f: Forest, match_: Matcher, spans: seq<Span>, m: Mutant)
    requires Nested(f) && m.startOffset <= m.endOffset && multiset(spans) == multiset(Pruned(f, match_))
    ensures FirstHit(spans, m) == FirstHit(Pruned(f, match_), m)
  {
    var kept := Pruned(f, match_);
    HeldByOne(f, match_, m);
    FirstHitIsOne(spans, m);
    FirstHitIsOne(kept, m);
    forall s ensures s in spans <==> s in kept {
      assert s in multiset(spans) <==> s in multiset(kept);
    }
  }

  /** A left-out mutant is named by the outermost matching call around it. */
  lemma NamedByOutermost(f: Forest, match_: Matcher, m: Mutant) returns (outermost: Span)
    requires Nested(f) && m.startOffset <= m.endOffset && FirstHit(Pruned(f, match_), m).HitBy?
    ensures outermost in Matching(f, match_) && Holds(outermost, m) && outermost.selector == FirstHit(Pruned(f, match_), m).selector
    ensures forall s | s in Matching(f, match_) && Holds(s, m) :: Inside(s, outermost)
  {
    var spans := Pruned(f, match_);
    FirstHitIsOne(spans, m);
    PrunedMatch(f, match_);
    HeldByOne(f, match_, m);
    outermost :| outermost in spans && Holds(outermost, m) && outermost.selector == FirstHit(spans, m).selector;
    forall s | s in Matching(f, match_) && Holds(s, m) ensures Inside(s, outermost) {
      var t := MatchingAreCovered(f, match_, s);
      assert Holds(t, m);
    }
  }

  // ----- the filter -----

  datatype Suppression = Suppression(mutant: Mutant, selector: string)

  /** The spans of a mutant's file; a file that is not there has none. */
  function SpansFor(files: map<string, Forest>, match_: Matcher, path: string): seq<Span> {
    if path in files then Pruned(files[path], match_) else []
  }

  function Survives(files: map<string, Forest>, match_: Matcher): Mutant -> bool {
    (m: Mutant) => FirstHit(SpansFor(files, match_, m.file), m).Miss?
  }

  function Suppressed(files: map<string, Forest>, match_: Matcher, ms: seq<Mutant>): seq<Suppression> {
    if ms == [] then []
    else
      var last := ms[|ms| - 1];
      var hit := FirstHit(SpansFor(files, match_, last.file), last);
      Suppressed(files, match_, ms[..|ms| - 1]) + if hit.HitBy? then [Suppression(last, hit.selector)] else []
  }

  /** Each file is scanned once, and every mutant judged by its own file's calls. */
  method FilterByCalls(ms: seq<Mutant>, files: map<string, Forest>, match_: Matcher)
    returns (kept: seq<Mutant>, suppressed: seq<Suppression>)
    ensures kept == Keep(ms, Survives(files, match_))
    ensures suppressed == Suppressed(files, match_, ms)
  {
    var indexes: map<string, seq<Span>> := map[];
    kept, suppressed := [], [];
    for i := 0 to |ms|
      invariant forall path | path in indexes :: indexes[path] == SpansFor(files, match_, path)
      invariant kept == Keep(ms[..i], Survives(files, match_))
      invariant suppressed == Suppressed(files, match_, ms[..i])
    {
      var m := ms[i];
      assert ms[..i + 1][..i] == ms[..i];
      if m.file !in indexes {
        var spans: seq<Span> := [];
        if m.file in files { spans := Inspect(files[m.file], match_, []); }
        indexes := indexes[m.file := spans];
      }
      var hit := MatchIndex(indexes[m.file], m);
      if hit.HitBy? {
        suppressed := suppressed + [Suppression(m, hit.selector)];
      } else {
        kept := kept + [m];
      }
    }
    assert ms[..|ms|] == ms;
  }

  /** Some call in the mutant's file, of a function that matches, takes in the mutant's bytes. */
  ghost predicate InMatchingCall(files: map<string, Forest>, match_: Matcher, m: Mutant) {
    m.file in files && exists s | s in Calls(files[m.file]) ::
      s.selector != "" && match_(s.selector) && s.start <= m.startOffset && m.endOffset <= s.end
  }

  /** And the call given as the reason is one such. */
  ghost predicate NamesOne(files: map<string, Forest>, match_: Matcher, x: Suppression) {
    x.mutant.file in files && exists s | s in Calls(files[x.mutant.file]) ::
      s.selector == x.selector && x.selector != "" && match_(x.selector) && s.start <= x.mutant.startOffset && x.mutant.endOffset <= s.end
  }

  lemma SurvivesMeans(files: map<string, Forest>, match_: Matcher, m: Mutant)
    requires forall path | path in files :: Nested(files[path])
    ensures Survives(files, match_)(m) <==> !InMatchingCall(files, match_, m)
  {
    if m.file in files {
      SuppressedExactly(files[m.file], match_, m);
      MatchingMeans(files[m.file], match_);
    }
  }

  /** A mutant is kept exactly when no such call takes it in, and else given out with the name of one that does. */
  lemma FilterMeans(files: map<string, Forest>, match_: Matcher, ms: seq<Mutant>)
    requires forall path | path in files :: Nested(files[path])
    ensures forall m :: m in Keep(ms, Survives(files, match_)) <==> m in ms && !InMatchingCall(files, match_, m)
    ensures forall x | x in Suppressed(files, match_, ms) :: x.mutant in ms && NamesOne(files, match_, x)
    ensures forall m | m in ms && InMatchingCall(files, match_, m) :: exists x | x in Suppressed(files, match_, ms) :: x.mutant == m
  {
    KeepElements(ms, Survives(files, match_));
    forall m ensures Survives(files, match_)(m) <==> !InMatchingCall(files, match_, m) { SurvivesMeans(files, match_, m); }
    SuppressedMeans(files, match_, ms);
  }

  lemma {:induction false} SuppressedMeans(files: map<string, Forest>, match_: Matcher, ms: seq<Mutant>)
    requires forall path | path in files :: Nested(files[path])
    ensures forall x | x in Suppressed(files, match_, ms) :: x.mutant in ms && NamesOne(files, match_, x)
    ensures forall m | m in ms && InMatchingCall(files, match_, m) :: exists x | x in Suppressed(files, match_, ms) :: x.mutant == m
  {
    if ms != [] {
      var front, last := ms[..|ms| - 1], ms[|ms| - 1];
      SuppressedMeans(files, match_, front);
      SurvivesMeans(files, match_, last);
      assert ms == front + [last];
      var hit := FirstHit(SpansFor(files, match_, last.file), last);
      if hit.HitBy? {
        var s := HitIsMatch(files, match_, last);
        assert Suppression(last, hit.selector) in Suppressed(files, match_, ms);
      }
      forall m | m in ms && InMatchingCall(files, match_, m) ensures exists x | x in Suppressed(files, match_, ms) :: x.mutant == m {
        if m in front {
          var x :| x in Suppressed(files, match_, front) && x.mutant == m;
          assert x in Suppressed(files, match_, ms);
        }
      }
    }
  }

  lemma HitIsMatch(files: map<string, Forest>, match_: Matcher, m: Mutant) returns (s: Span)
    requires FirstHit(SpansFor(files, match_, m.file), m).HitBy?
    ensures m.file in files && s in Calls(files[m.file]) && s.selector == FirstHit(SpansFor(files, match_, m.file), m).selector
    ensures s.selector != "" && match_(s.selector) && s.start <= m.startOffset && m.endOffset <= s.end
  {
    var spans := SpansFor(files, match_, m.file);
    FirstHitIsOne(spans, m);
    s :| s in spans && Holds(s, m) && s.selector == FirstHit(spans, m).selector;
    PrunedMatch(files[m.file], match_);
    MatchingMeans(files[m.file], match_);
  }
}
