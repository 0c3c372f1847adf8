/**
 Which function a return statement answers to (internal/mutator/returnslots.go). The walk visits every function and,
 inside it, every return that is not in a nested literal.
 */
module ReturnSites {
  import opened Ordering

  /** A list of syntax nodes, each with what is below it and then the nodes next to it. */
  datatype Forest =
    | Empty
    | Func(isDecl: bool, results: seq<Field>, typ: Forest, hasBody: bool, body: Forest, next: Forest)
    | Return(id: nat, inner: Forest, next: Forest)
    | Other(inner: Forest, next: Forest)

  /** A field of a result list: how many names it has, and the type they share. */
  datatype Field = Field(names: nat, typ: string)

  /** A return statement and the types its results must have. */
  datatype Site = Site(ret: nat, results: seq<string>)

  // ----- result slots -----

  function Repeated(typ: string, n: nat): (r: seq<string>)
    ensures |r| == n && forall i | 0 <= i < n :: r[i] == typ
  {
    seq(n, _ => typ)
  }

  /** A field without names is one slot. */
  function SlotsOf(f: Field): nat {
    if f.names == 0 then 1 else f.names
  }

  function Slots(fields: seq<Field>): seq<string> {
    if fields == [] then []
    else
      var last := fields[|fields| - 1];
      Slots(fields[..|fields| - 1]) + Repeated(last.typ, SlotsOf(last))
  }

  /** A field adds as many slots of its type as it has names, one if it has none. */
  lemma SlotsMean(fields: seq<Field>, names: nat, typ: string)
    ensures Slots([]) == []
    ensures var before, all := Slots(fields), Slots(fields + [Field(names, typ)]);
      && |all| == |before| + (if names == 0 then 1 else names)
      && all[..|before|] == before
      && forall k | |before| <= k < |all| :: all[k] == typ
  {
    assert (fields + [Field(names, typ)])[..|fields|] == fields;
  }

  method ResultTypes(fields: seq<Field>) returns (out: seq<string>)
    ensures out == Slots(fields)
  {
    out := [];
    for i := 0 to |fields|
      invariant out == Slots(fields[..i])
    {
      var f := fields[i];
      var slots := f.names;
      if slots == 0 { slots := 1; }
      ghost var before := out;
      for k := 0 to slots
        invariant out == before + Repeated(f.typ, k)
      {
        out := out + [f.typ];
        assert Repeated(f.typ, k + 1) == Repeated(f.typ, k) + [f.typ];
      }
      assert fields[..i + 1][..i] == fields[..i];
    }
    assert fields[..|fields|] == fields;
  }

  // ----- the nested walk -----

  /** The inner walk: the returns below that no literal stands in front of. */
  function Own(f: Forest, results: seq<string>): seq<Site> {
    match f
    case Empty => []
    case Func(isDecl, _, typ, _, body, next) =>
      (if isDecl then Own(typ, results) + Own(body, results) else []) + Own(next, results)
    case Return(id, inner, next) => [Site(id, results)] + Own(inner, results) + Own(next, results)
    case Other(inner, next) => Own(inner, results) + Own(next, results)
  }

  /** The outer walk: every function's own returns as it is met, then what is below it. */
  function Sites(f: Forest): seq<Site> {
    match f
    case Empty => []
    case Func(_, results, typ, hasBody, body, next) =>
      (if hasBody then Own(body, Slots(results)) else []) + (Sites(typ) + Sites(body)) + Sites(next)
    case Return(_, inner, next) => Sites(inner) + Sites(next)
    case Other(inner, next) => Sites(inner) + Sites(next)
  }

  lemma Regroup(a: seq<Site>, b: seq<Site>, c: seq<Site>, d: seq<Site>, e: seq<Site>)
    ensures a + b + c + d + e == a + (b + (c + d) + e)
  {
  }

  class Walk {
    /** The calls made of the callback. */
    var calls: seq<Site>

    constructor ()
      ensures calls == []
    {
      calls := [];
    }

    method Inspect(f: Forest, results: seq<string>)
      modifies this
      ensures calls == old(calls) + Own(f, results)
      decreases f
    {
      match f {
        case Empty =>
        case Func(isDecl, _, typ, _, body, next) =>
          if isDecl {
            Inspect(typ, results);
            Inspect(body, results);
          }
          Inspect(next, results);
        case Return(id, inner, next) =>
          calls := calls + [Site(id, results)];
          Inspect(inner, results);
          Inspect(next, results);
        case Other(inner, next) =>
          Inspect(inner, results);
          Inspect(next, results);
      }
    }

    method Visit(f: Forest)
      modifies this
      ensures calls == old(calls) + Sites(f)
      decreases f
    {
      match f {
        case Empty =>
        case Func(_, results, typ, hasBody, body, next) =>
          if hasBody {
            var slots := ResultTypes(results);
            Inspect(body, slots);
          }
          ghost var own := if hasBody then Own(body, Slots(results)) else [];
          assert calls == old(calls) + own;
          Visit(typ);
          Visit(body);
          Visit(next);
          Regroup(old(calls), own, Sites(typ), Sites(body), Sites(next));
        case Return(_, inner, next) =>
          Visit(inner);
          Visit(next);
        case Other(inner, next) =>
          Visit(inner);
          Visit(next);
      }
    }
  }

  method ReturnSites(file: Forest) returns (calls: seq<Site>)
    ensures calls == Sites(file)
  {
    var w := new Walk();
    w.Visit(file);
    calls := w.calls;
  }

  // ----- what it is meant to find -----

  datatype Around = Nowhere | Within(results: seq<string>)

  /** One walk down that remembers the innermost function around: each return goes to that one. */
  function Attributed(f: Forest, around: Around): seq<Site> {
    match f
    case Empty => []
    case Func(_, results, typ, _, body, next) =>
      (Attributed(typ, around) + Attributed(body, Within(Slots(results)))) + Attributed(next, around)
    case Return(id, inner, next) =>
      (if around.Within? then [Site(id, around.results)] else []) + (Attributed(inner, around) + Attributed(next, around))
    case Other(inner, next) => Attributed(inner, around) + Attributed(next, around)
  }

  /** No return outside a function's body. */
  predicate NoBareReturn(f: Forest) {
    match f
    case Empty => true
    case Func(_, _, typ, _, _, next) => NoBareReturn(typ) && NoBareReturn(next)
    case Return(_, _, _) => false
    case Other(inner, next) => NoBareReturn(inner) && NoBareReturn(next)
  }

  /** No declaration in here, types hold no returns of their own, and no body where there is said to be none. */
  predicate InFunction(f: Forest) {
    match f
    case Empty => true
    case Func(isDecl, _, typ, hasBody, body, next) =>
      && !isDecl && NoBareReturn(typ) && (!hasBody ==> body == Empty)
      && InFunction(typ) && InFunction(body) && InFunction(next)
    case Return(_, inner, next) => InFunction(inner) && InFunction(next)
    case Other(inner, next) => InFunction(inner) && InFunction(next)
  }

  /** A file as it parses: declarations stand outside every function, returns inside one. */
  predicate AtTop(f: Forest) {
    match f
    case Empty => true
    case Func(_, _, typ, hasBody, body, next) =>
      && NoBareReturn(typ) && (!hasBody ==> body == Empty)
      && InFunction(typ) && InFunction(body) && AtTop(next)
    case Return(_, _, _) => false
    case Other(inner, next) => AtTop(inner) && AtTop(next)
  }

  /** How often a site is in a list. */
  function Times(s: seq<Site>, x: Site): nat {
    multiset(s)[x]
  }

  lemma {:induction false} NoBareReturnOwnsNothing(f: Forest, results: seq<string>)
    requires NoBareReturn(f) && InFunction(f)
    ensures Own(f, results) == []
  {
    match f {
      case Empty =>
      case Func(_, _, _, _, _, next) => NoBareReturnOwnsNothing(next, results);
      case Return(_, _, _) =>
      case Other(inner, next) =>
        NoBareReturnOwnsNothing(inner, results);
        NoBareReturnOwnsNothing(next, results);
    }
  }

  /** Inside a function: its own returns, and those of the literals in it. */
  lemma {:induction false} InFunctionAttributed(f: Forest, results: seq<string>, x: Site)
    requires InFunction(f)
    ensures Times(Own(f, results), x) + Times(Sites(f), x) == Times(Attributed(f, Within(results)), x)
  {
    match f {
      case Empty =>
      case Func(_, slots, typ, _, body, next) =>
        InFunctionAttributed(typ, results, x);
        InFunctionAttributed(body, Slots(slots), x);
        InFunctionAttributed(next, results, x);
        NoBareReturnOwnsNothing(typ, results);
      case Return(_, inner, next) =>
        InFunctionAttributed(inner, results, x);
        InFunctionAttributed(next, results, x);
      case Other(inner, next) =>
        InFunctionAttributed(inner, results, x);
        InFunctionAttributed(next, results, x);
    }
  }

  /** Outside functions no return is of anything. */
  lemma {:induction false} OutsideAttributed(f: Forest, x: Site)
    requires InFunction(f) && NoBareReturn(f)
    ensures Times(Sites(f), x) == Times(Attributed(f, Nowhere), x)
  {
    match f {
      case Empty =>
      case Func(_, slots, typ, _, body, next) =>
        OutsideAttributed(typ, x);
        InFunctionAttributed(body, Slots(slots), x);
        OutsideAttributed(next, x);
      case Return(_, _, _) =>
      case Other(inner, next) =>
        OutsideAttributed(inner, x);
        OutsideAttributed(next, x);
    }
  }

  lemma {:induction false} TopAttributed(f: Forest, x: Site)
    requires AtTop(f)
    ensures Times(Sites(f), x) == Times(Attributed(f, Nowhere), x)
  {
    match f {
      case Empty =>
      case Func(_, slots, typ, _, body, next) =>
        OutsideAttributed(typ, x);
        InFunctionAttributed(body, Slots(slots), x);
        TopAttributed(next, x);
      case Return(_, _, _) =>
      case Other(inner, next) =>
        TopAttributed(inner, x);
        TopAttributed(next, x);
    }
  }

  /** The nested walk calls back for exactly the returns, with exactly the results, that one walk with a stack would. */
  lemma NestedWalkIsAttribution(file: Forest)
    requires AtTop(file)
    ensures multiset(Sites(file)) == multiset(Attributed(file, Nowhere))
  {
    forall x ensures multiset(Sites(file))[x] == multiset(Attributed(file, Nowhere))[x] {
      TopAttributed(file, x);
    }
  }

  /** All returns of a file, in source order. */
  function Returns(f: Forest): seq<nat> {
    match f
    case Empty => []
    case Func(_, _, typ, _, body, next) => (Returns(typ) + Returns(body)) + Returns(next)
    case Return(id, inner, next) => [id] + (Returns(inner) + Returns(next))
    case Other(inner, next) => Returns(inner) + Returns(next)
  }

  function RetsOf(s: seq<Site>): (r: seq<nat>)
    ensures |r| == |s| && forall i | 0 <= i < |s| :: r[i] == s[i].ret
  {
    seq(|s|, i requires 0 <= i < |s| => s[i].ret)
  }

  lemma RetsAppend(a: seq<Site>, b: seq<Site>)
    ensures RetsOf(a + b) == RetsOf(a) + RetsOf(b)
  {
  }

  lemma {:induction false} AttributionIsComplete(f: Forest, around: Around)
    requires AtTop(f) || InFunction(f)
    requires around.Nowhere? ==> NoBareReturn(f)
    ensures RetsOf(Attributed(f, around)) == Returns(f)
  {
    match f {
      case Empty =>
      case Func(_, results, typ, _, body, next) =>
        var a, b := Attributed(typ, around), Attributed(body, Within(Slots(results)));
        AttributionIsComplete(typ, around);
        AttributionIsComplete(body, Within(Slots(results)));
        AttributionIsComplete(next, around);
        RetsAppend(a, b);
        RetsAppend(a + b, Attributed(next, around));
      case Return(id, inner, next) =>
        var a, b := Attributed(inner, around), Attributed(next, around);
        AttributionIsComplete(inner, around);
        AttributionIsComplete(next, around);
        RetsAppend(a, b);
        RetsAppend([Site(id, around.results)], a + b);
      case Other(inner, next) =>
        AttributionIsComplete(inner, around);
        AttributionIsComplete(next, around);
        RetsAppend(Attributed(inner, around), Attributed(next, around));
    }
  }

  lemma {:induction false} TopHasNoBareReturn(f: Forest)
    requires AtTop(f)
    ensures NoBareReturn(f)
  {
    match f {
      case Empty =>
      case Func(_, _, _, _, _, next) => TopHasNoBareReturn(next);
      case Return(_, _, _) =>
      case Other(inner, next) =>
        TopHasNoBareReturn(inner);
        TopHasNoBareReturn(next);
    }
  }

  lemma {:induction false} RetsByTimes(a: seq<Site>, b: seq<Site>)
    requires multiset(a) == multiset(b)
    ensures multiset(RetsOf(a)) == multiset(RetsOf(b))
  {
    assert |multiset(a)| == |a| && |multiset(b)| == |b|;
    if a != [] {
      var n := |a| - 1;
      assert a[n] in multiset(b);
      var j :| 0 <= j < |b| && b[j] == a[n];
      TakeOut(a, b, j);
      RetsByTimes(a[..n], b[..j] + b[j + 1..]);
      assert RetsOf(a) == RetsOf(a[..n]) + [a[n].ret];
      RetsAppend(b[..j], b[j + 1..]);
      assert RetsOf(b) == RetsOf(b[..j]) + [b[j].ret] + RetsOf(b[j + 1..]);
    }
  }

  /** Every return of the file is visited, and once. */
  lemma EachReturnOnce(file: Forest)
    requires AtTop(file)
    ensures multiset(RetsOf(Sites(file))) == multiset(Returns(file))
  {
    NestedWalkIsAttribution(file);
    TopHasNoBareReturn(file);
    AttributionIsComplete(file, Nowhere);
    RetsByTimes(Sites(file), Attributed(file, Nowhere));
  }
}
