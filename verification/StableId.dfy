/** Names of mutants that hold across runs (internal/discover/stableid.go): anchors, and the string that renders an ID. */
module StableId {
  import opened Text

  // ----- names of declarations -----

  /** A receiver's type expression, as far as its name looks into it. */
  datatype Expr =
    | Star(x: Expr)
    | Paren(x: Expr)
    | Index(x: Expr)
    | IndexList(x: Expr)
    | Ident(name: string)
    | OtherExpr

  /** A top-level declaration. A function without a receiver has an empty list of them. */
  datatype Decl =
    | FuncDecl(receivers: seq<Expr>, name: string, start: int, end: int)
    | OtherDecl

  function ReceiverType(e: Expr): string {
    match e
    case Star(x) => "*" + ReceiverType(x)
    case Paren(x) => ReceiverType(x)
    case Index(x) => ReceiverType(x)
    case IndexList(x) => ReceiverType(x)
    case Ident(name) => name
    case OtherExpr => ""
  }

  function FuncName(d: Decl): string
    requires d.FuncDecl?
  {
    if d.receivers == [] then d.name else "(" + ReceiverType(d.receivers[0]) + ")." + d.name
  }

  /** Free of the characters that separate the parts of an ID, as every Go identifier is. */
  predicate Plain(s: string) {
    '~' !in s && ':' !in s && '#' !in s
  }

  predicate PlainExpr(e: Expr) {
    match e
    case Ident(name) => Plain(name)
    case OtherExpr => true
    case _ => PlainExpr(e.x)
  }

  predicate PlainDecl(d: Decl) {
    d.FuncDecl? ==> Plain(d.name) && forall k | 0 <= k < |d.receivers| :: PlainExpr(d.receivers[k])
  }

  lemma {:induction false} ReceiverTypeIsPlain(e: Expr)
    requires PlainExpr(e)
    ensures Plain(ReceiverType(e))
  {
    match e {
      case Ident(_) =>
      case OtherExpr =>
      case _ => ReceiverTypeIsPlain(e.x);
    }
  }

  lemma FuncNameIsPlain(d: Decl)
    requires PlainDecl(d) && d.FuncDecl?
    ensures Plain(FuncName(d))
  {
    if d.receivers != [] { ReceiverTypeIsPlain(d.receivers[0]); }
  }

  // ----- anchors -----

  datatype Span = Span(start: int, end: int, name: string)

  function AnchorName(name: string, occurrence: nat): string {
    if occurrence == 1 then name else name + "~" + Decimal(occurrence)
  }

  /** How many declarations of the list have a name. */
  function Occurrences(decls: seq<Decl>, name: string): nat {
    if decls == [] then 0
    else
      var last := decls[|decls| - 1];
      Occurrences(decls[..|decls| - 1], name) + if last.FuncDecl? && FuncName(last) == name then 1 else 0
  }

  /** The functions among the declarations, each named by its name and how many before it have that. */
  function FuncSpans(decls: seq<Decl>): seq<Span> {
    if decls == [] then []
    else
      var front, last := decls[..|decls| - 1], decls[|decls| - 1];
      FuncSpans(front) +
      if last.FuncDecl? then [Span(last.start, last.end, AnchorName(FuncName(last), Occurrences(decls, FuncName(last))))] else []
  }

  /** A span for each function, from its first byte to behind its last, named as it is called, the later ones of a name numbered. */
  lemma {:induction false} FuncSpansMean(decls: seq<Decl>, j: nat) returns (d: nat)
    requires j < |FuncSpans(decls)|
    ensures d < |decls| && decls[d].FuncDecl?
    ensures FuncSpans(decls)[j].start == decls[d].start && FuncSpans(decls)[j].end == decls[d].end
    ensures j == |set k | 0 <= k < d && decls[k].FuncDecl?|
    ensures var n := |set k | 0 <= k <= d && Named(decls[k], FuncName(decls[d]))|;
      FuncSpans(decls)[j].name == if n == 1 then FuncName(decls[d]) else FuncName(decls[d]) + "~" + Decimal(n)
  {
    var last := |decls| - 1;
    var front := decls[..last];
    if j < |FuncSpans(front)| {
      d := FuncSpansMean(front, j);
      assert (set k | 0 <= k < d && decls[k].FuncDecl?) == set k | 0 <= k < d && front[k].FuncDecl?;
      assert (set k | 0 <= k <= d && Named(decls[k], FuncName(decls[d])))
        == set k | 0 <= k <= d && Named(front[k], FuncName(front[d]));
    } else {
      d := last;
      LastSpanMeans(decls);
    }
  }

  lemma LastSpanMeans(decls: seq<Decl>)
    requires decls != [] && decls[|decls| - 1].FuncDecl?
    ensures var d := |decls| - 1;
      && |FuncSpans(decls[..d])| == |set k | 0 <= k < d && decls[k].FuncDecl?|
      && Occurrences(decls, FuncName(decls[d])) == |set k | 0 <= k <= d && Named(decls[k], FuncName(decls[d]))|
  {
    var d := |decls| - 1;
    var front := decls[..d];
    SpansAreCounted(front);
    OccurrencesAreCounted(decls, FuncName(decls[d]));
    assert (set k | 0 <= k < d && decls[k].FuncDecl?) == set k | 0 <= k < |front| && front[k].FuncDecl?;
    assert (set k | 0 <= k <= d && Named(decls[k], FuncName(decls[d]))) == NamedPlaces(decls, FuncName(decls[d]));
  }

  lemma {:induction false} SpansAreCounted(decls: seq<Decl>)
    ensures |FuncSpans(decls)| == |set k | 0 <= k < |decls| && decls[k].FuncDecl?|
  {
    var all := set k | 0 <= k < |decls| && decls[k].FuncDecl?;
    if decls == [] {
      assert all == {};
    } else {
      var n := |decls| - 1;
      var front := decls[..n];
      SpansAreCounted(front);
      var before := set k | 0 <= k < |front| && front[k].FuncDecl?;
      assert all == if decls[n].FuncDecl? then before + {n} else before;
    }
  }

  predicate Named(d: Decl, name: string) {
    d.FuncDecl? && FuncName(d) == name
  }

  ghost function NamedPlaces(decls: seq<Decl>, name: string): set<int> {
    set k | 0 <= k < |decls| && Named(decls[k], name)
  }

  lemma NamedPlacesSnoc(front: seq<Decl>, last: Decl, name: string)
    ensures |NamedPlaces(front + [last], name)| == |NamedPlaces(front, name)| + if Named(last, name) then 1 else 0
  {
    var before, all := NamedPlaces(front, name), NamedPlaces(front + [last], name);
    assert all == before + if Named(last, name) then {|front|} else {};
  }

  lemma {:induction false} OccurrencesAreCounted(decls: seq<Decl>, name: string)
    ensures Occurrences(decls, name) == |NamedPlaces(decls, name)|
  {
    if decls == [] {
      assert NamedPlaces(decls, name) == {};
    } else {
      var n := |decls| - 1;
      OccurrencesAreCounted(decls[..n], name);
      NamedPlacesSnoc(decls[..n], decls[n], name);
      assert decls == decls[..n] + [decls[n]];
    }
  }

  /** A function goes by its name, a method by that behind its receiver's type, whatever parentheses and type parameters stand there. */
  lemma FuncNamesAre(name: string, typ: string, start: int, end: int)
    ensures FuncName(FuncDecl([], name, start, end)) == name
    ensures FuncName(FuncDecl([Ident(typ)], name, start, end)) == "(" + typ + ")." + name
    ensures FuncName(FuncDecl([Star(Ident(typ))], name, start, end)) == "(*" + typ + ")." + name
    ensures FuncName(FuncDecl([Star(Index(Ident(typ)))], name, start, end)) == "(*" + typ + ")." + name
    ensures FuncName(FuncDecl([Star(IndexList(Ident(typ)))], name, start, end)) == "(*" + typ + ")." + name
    ensures FuncName(FuncDecl([Paren(Ident(typ))], name, start, end)) == "(" + typ + ")." + name
    ensures FuncName(FuncDecl([OtherExpr], name, start, end)) == "()." + name
  {
    assert ReceiverType(Star(Index(Ident(typ)))) == "*" + ReceiverType(Index(Ident(typ)));
    assert ReceiverType(Star(IndexList(Ident(typ)))) == "*" + ReceiverType(IndexList(Ident(typ)));
    assert "(" + ("*" + typ) == "(*" + typ;
  }

  method ListFuncSpans(decls: seq<Decl>) returns (spans: seq<Span>)
    ensures spans == FuncSpans(decls)
  {
    spans := [];
    var occurrences: map<string, nat> := map[];
    for i := 0 to |decls|
      invariant spans == FuncSpans(decls[..i])
      invariant forall n: string :: Occurrences(decls[..i], n) == if n in occurrences then occurrences[n] else 0
    {
      var d := decls[i];
      assert decls[..i + 1][..i] == decls[..i];
      if d.FuncDecl? {
        var name := FuncName(d);
        occurrences := occurrences[name := (if name in occurrences then occurrences[name] else 0) + 1];
        spans := spans + [Span(d.start, d.end, AnchorName(name, occurrences[name]))];
      }
    }
    assert decls[..|decls|] == decls;
  }

  /** An anchor gives back the name and the occurrence it was made of. */
  lemma AnchorNameInjective(n: string, k: nat, n': string, k': nat)
    requires '~' !in n && '~' !in n' && k > 0 && k' > 0
    requires AnchorName(n, k) == AnchorName(n', k')
    ensures n == n' && k == k'
  {
    var sep := '~';
    assert k != 1 ==> AnchorName(n, k)[|n|] == sep;
    assert k' != 1 ==> AnchorName(n', k')[|n'|] == sep;
    if k != 1 && k' != 1 {
      assert AnchorName(n, k) == n + ([sep] + Decimal(k));
      assert AnchorName(n', k') == n' + ([sep] + Decimal(k'));
      SplitAtFirst(n, Decimal(k), n', Decimal(k'), sep);
      DecimalInjective(k, k');
    }
  }

  /** Every anchor of the list is one of an occurrence that was counted. */
  lemma {:induction false} AnchorsCounted(decls: seq<Decl>, j: nat) returns (name: string, k: nat)
    requires j < |FuncSpans(decls)| && forall d | d in decls :: PlainDecl(d)
    ensures '~' !in name && 0 < k <= Occurrences(decls, name) && FuncSpans(decls)[j].name == AnchorName(name, k)
  {
    var front, last := decls[..|decls| - 1], decls[|decls| - 1];
    assert forall d | d in front :: d in decls;
    if j < |FuncSpans(front)| {
      name, k := AnchorsCounted(front, j);
    } else {
      name, k := FuncName(last), Occurrences(decls, FuncName(last));
      FuncNameIsPlain(last);
    }
  }

  /** No two functions of a file have one anchor, whatever their names repeat. */
  lemma {:induction false} AnchorsDistinct(decls: seq<Decl>)
    requires forall d | d in decls :: PlainDecl(d)
    ensures forall i, j | 0 <= i < j < |FuncSpans(decls)| :: FuncSpans(decls)[i].name != FuncSpans(decls)[j].name
  {
    if decls != [] {
      var front, last := decls[..|decls| - 1], decls[|decls| - 1];
      assert forall d | d in front :: d in decls;
      AnchorsDistinct(front);
      if last.FuncDecl? {
        var name := FuncName(last);
        FuncNameIsPlain(last);
        var k := Occurrences(decls, name);
        forall i | 0 <= i < |FuncSpans(front)| ensures FuncSpans(front)[i].name != AnchorName(name, k) {
          var n', k' := AnchorsCounted(front, i);
          if AnchorName(n', k') == AnchorName(name, k) { AnchorNameInjective(n', k', name, k); }
        }
      }
    }
  }

  // ----- the function around an offset -----

  predicate Contains(s: Span, offset: int) {
    s.start <= offset < s.end
  }

  /** In source order and apart from each other, as top-level functions are. */
  predicate InOrder(spans: seq<Span>) {
    && (forall i | 0 <= i < |spans| :: spans[i].start < spans[i].end)
    && (forall i, j | 0 <= i < j < |spans| :: spans[i].end <= spans[j].start)
  }

  /** A look at one span after the other. */
  function AnchorAt(spans: seq<Span>, offset: int): string {
    if spans == [] then "" else if Contains(spans[0], offset) then spans[0].name else AnchorAt(spans[1..], offset)
  }

  lemma {:induction false} AnchorAtIsTheOne(spans: seq<Span>, k: nat, offset: int)
    requires InOrder(spans) && k < |spans| && Contains(spans[k], offset)
    ensures AnchorAt(spans, offset) == spans[k].name
  {
    if k > 0 { AnchorAtIsTheOne(spans[1..], k - 1, offset); }
  }

  lemma {:induction false} AnchorAtNone(spans: seq<Span>, offset: int)
    requires forall k | 0 <= k < |spans| :: !Contains(spans[k], offset)
    ensures AnchorAt(spans, offset) == ""
  {
    if spans != [] { AnchorAtNone(spans[1..], offset); }
  }

  /** The binary search for the first span that starts behind the offset finds what the linear scan finds. */
  method AnchorFor(spans: seq<Span>, offset: int) returns (name: string)
    requires InOrder(spans)
    ensures name == AnchorAt(spans, offset)
  {
    var i, j := 0, |spans|;
    while i < j
      invariant 0 <= i <= j <= |spans|
      invariant forall k | 0 <= k < i :: spans[k].start <= offset
      invariant forall k | j <= k < |spans| :: spans[k].start > offset
    {
      var h := (i + j) / 2;
      if spans[h].start > offset { j := h; } else { i := h + 1; }
    }
    if i > 0 && offset < spans[i - 1].end {
      AnchorAtIsTheOne(spans, i - 1, offset);
      name := spans[i - 1].name;
    } else {
      AnchorAtNone(spans, offset);
      name := "";
    }
  }

  // ----- the ID -----

  /** What a stable ID says of a mutant besides its number. */
  datatype Group = Group(file: string, anchor: string, typ: string)

  function Render(g: Group, ordinal: nat): string {
    g.file + ":" + g.anchor + ":" + g.typ + "#" + Decimal(ordinal)
  }

  predicate Separable(g: Group) {
    ':' !in g.anchor && ':' !in g.typ
  }

  /** Read from the right an ID gives back its parts, whatever characters the path and the type have in common. */
  lemma RenderInjective(g: Group, n: nat, g': Group, n': nat)
    requires Separable(g) && Separable(g') && Render(g, n) == Render(g', n')
    ensures g == g' && n == n'
  {
    var hash, colon := '#', ':';
    var l, l' := g.file + ":" + g.anchor, g'.file + ":" + g'.anchor;
    assert Render(g, n) == (l + ":" + g.typ) + ([hash] + Decimal(n));
    assert Render(g', n') == (l' + ":" + g'.typ) + ([hash] + Decimal(n'));
    SplitAtLast(l + ":" + g.typ, Decimal(n), l' + ":" + g'.typ, Decimal(n'), hash);
    DecimalInjective(n, n');
    assert l + ":" + g.typ == l + ([colon] + g.typ) && l' + ":" + g'.typ == l' + ([colon] + g'.typ);
    SplitAtLast(l, g.typ, l', g'.typ, colon);
    assert l == g.file + ([colon] + g.anchor) && l' == g'.file + ([colon] + g'.anchor);
    SplitAtLast(g.file, g.anchor, g'.file, g'.anchor, colon);
  }

  /** Every ID starts with its file's segment and a colon. */
  lemma RenderStartsWithFile(g: Group, n: nat)
    ensures g.file + ":" <= Render(g, n)
  {
  }
}
