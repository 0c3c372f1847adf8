/**
 Putting text into a source file without gluing tokens together (internal/patch). Whether two bytes scan as the start
 of one token is given; all that is known of it is that a space never does.
 */
module Splice {
  import opened Ordering
  import opened Filtering

  type Fuses = (char, char) -> bool

  ghost predicate SpaceStandsApart(fuses: Fuses) {
    forall c :: !fuses(' ', c) && !fuses(c, ' ')
  }

  /** The last byte of `left` and the first of `right` fuse. Nothing fuses across the edge of the file. */
  predicate FusesAt(fuses: Fuses, left: string, right: string) {
    |left| > 0 && |right| > 0 && fuses(left[|left| - 1], right[0])
  }

  // ----- one edit -----

  function KeepApart(fuses: Fuses, original: string, start: int, end: int, replacement: string): string {
    if start < 0 || end > |original| || start > end then replacement
    else
      var before, after := original[..start], original[end..];
      if replacement == "" then
        if FusesAt(fuses, before, after) && !FusesAt(fuses, before, original[start..]) then " " else ""
      else
        var out :=
          if FusesAt(fuses, before, replacement) && !FusesAt(fuses, before, original[start..]) then " " + replacement else replacement;
        if FusesAt(fuses, replacement, after) && !FusesAt(fuses, original[..end], after) then out + " " else out
  }

  datatype Patched = Patched(bytes: string) | BadRange

  method Apply(original: string, start: int, end: int, replacement: string) returns (r: Patched)
    ensures r.BadRange? <==> start < 0 || end > |original| || start > end
    ensures r.Patched? ==> r.bytes == original[..start] + replacement + original[end..]
  {
    if start < 0 || end > |original| || start > end { return BadRange; }
    var out := original[..start];
    out := out + replacement;
    out := out + original[end..];
    return Patched(out);
  }

  // ----- many edits -----

  datatype Edit = Edit(start: nat, end: nat, text: string)

  predicate StartLess(a: Edit, b: Edit) {
    a.start < b.start
  }

  /** In range, in order and apart: where two touch, the one that takes bytes away comes behind the one that does not. */
  ghost predicate Fit(src: string, edits: seq<Edit>) {
    && (forall i | 0 <= i < |edits| :: edits[i].start <= edits[i].end <= |src|)
    && (forall i, j | 0 <= i < j < |edits| :: edits[i].end <= edits[j].start)
  }

  lemma FitTail(src: string, edits: seq<Edit>)
    requires Fit(src, edits) && edits != []
    ensures Fit(src, edits[1..])
    ensures edits[1..] != [] ==> edits[0].end <= edits[1..][0].start
  {
  }

  /** The source with the edits applied, the last first. */
  function Edited(fuses: Fuses, src: string, edits: seq<Edit>): string {
    if edits == [] then src
    else
      var e, rest := edits[0], Edited(fuses, src, edits[1..]);
      if e.start <= e.end <= |rest| then rest[..e.start] + KeepApart(fuses, rest, e.start, e.end, e.text) + rest[e.end..]
      else rest
  }

  method ApplyEdits(fuses: Fuses, src: string, edits: seq<Edit>) returns (out: string)
    requires Fit(src, Sort(edits, StartLess))
    ensures out == Edited(fuses, src, Sort(edits, StartLess))
  {
    var sorted := Sort(edits, StartLess);
    out := src;
    var i := |sorted|;
    while i > 0
      invariant 0 <= i <= |sorted|
      invariant out == Edited(fuses, src, sorted[i..])
    {
      i := i - 1;
      var e := sorted[i];
      assert sorted[i..][1..] == sorted[i + 1..];
      TailFits(src, sorted, i);
      EditedKeepsFront(fuses, src, sorted[i + 1..]);
      out := out[..e.start] + KeepApart(fuses, out, e.start, e.end, e.text) + out[e.end..];
    }
    assert sorted[0..] == sorted;
  }

  lemma TailFits(src: string, edits: seq<Edit>, i: nat)
    requires Fit(src, edits) && i < |edits|
    ensures Fit(src, edits[i + 1..])
    ensures edits[i].end <= if edits[i + 1..] == [] then |src| else edits[i + 1..][0].start
  {
  }

  /** Edits at one offset are applied in the order they came in. */
  lemma SameOffsetKeepsOrder(edits: seq<Edit>, offset: nat)
    ensures Keep(Sort(edits, StartLess), (e: Edit) => e.start == offset) == Keep(edits, (e: Edit) => e.start == offset)
  {
    TiesKeepOrder(edits, StartLess, (e: Edit) => e.start == offset);
  }

  lemma {:induction false} TiesKeepOrder<T>(s: seq<T>, less: (T, T) -> bool, tie: T -> bool)
    requires forall a, b | a in s && b in s && tie(a) && tie(b) :: !less(a, b)
    ensures Keep(Sort(s, less), tie) == Keep(s, tie)
  {
    if s != [] {
      var x, rest := s[0], s[1..];
      assert s == [x] + rest && x in s;
      assert forall a | a in rest :: a in s;
      TiesKeepOrder(rest, less, tie);
      KeepAppend([x], rest, tie);
      var sorted := Sort(rest, less);
      forall a | a in sorted && tie(a) && tie(x) ensures !less(a, x) {
        assert a in multiset(sorted);
        assert a in rest;
      }
      InsertAmongTies(x, sorted, less, tie);
    }
  }

  lemma {:induction false} InsertAmongTies<T>(x: T, s: seq<T>, less: (T, T) -> bool, tie: T -> bool)
    requires forall a | a in s && tie(a) && tie(x) :: !less(a, x)
    ensures Keep(Insert(x, s, less), tie) == Keep([x], tie) + Keep(s, tie)
  {
    if s == [] || !less(s[0], x) {
      KeepAppend([x], s, tie);
    } else {
      var rest := s[1..];
      assert s == [s[0]] + rest && s[0] in s;
      assert forall a | a in rest :: a in s;
      InsertAmongTies(x, rest, less, tie);
      KeepAppend([s[0]], Insert(x, rest, less), tie);
      KeepAppend([s[0]], rest, tie);
      KeepOneOf(s[0], x, tie);
      PassEmpty(Keep([s[0]], tie), Keep([x], tie), Keep(rest, tie));
    }
  }

  lemma KeepOneOf<T>(x: T, y: T, keep: T -> bool)
    requires !keep(x) || !keep(y)
    ensures Keep([x], keep) == [] || Keep([y], keep) == []
  {
    KeepSnoc([], x, keep);
    KeepSnoc([], y, keep);
  }

  lemma PassEmpty<T>(a: seq<T>, b: seq<T>, c: seq<T>)
    requires a == [] || b == []
    ensures a + (b + c) == b + (a + c)
  {
  }

  // ----- a mutant, and the uses it lost -----

  /** What checking a file alone reports: the offsets of what is declared and not used. */
  datatype Checked = Unparseable | Unused(offsets: seq<int>)

  /** What is given of a file: the check, and the edit that puts what is declared at an offset to use. */
  datatype Checker = Checker(check: string -> Checked, repair: (string, int) -> Edit)

  function RepairsOf(k: Checker, patched: string, lost: seq<int>, before: seq<int>): seq<Edit> {
    if lost == [] then []
    else
      var off := lost[|lost| - 1];
      RepairsOf(k, patched, lost[..|lost| - 1], before) + if off in before then [] else [k.repair(patched, off)]
  }

  /** The repairs of what is unused in the mutant and was not, at the same offset, in the original. */
  function Repairs(k: Checker, original: string, patched: string): seq<Edit> {
    var now, before := k.check(patched), k.check(original);
    if now.Unused? && before.Unused? then RepairsOf(k, patched, now.offsets, before.offsets) else []
  }

  /** The repairs, in the order of the check's offsets, are of those it did not report at the same offset in the original. */
  lemma {:induction false} RepairsOfMean(k: Checker, patched: string, lost: seq<int>, before: seq<int>) returns (at: seq<nat>)
    ensures |at| == |RepairsOf(k, patched, lost, before)| && forall i, j | 0 <= i < j < |at| :: at[i] < at[j]
    ensures forall j | 0 <= j < |at| :: at[j] < |lost| && lost[at[j]] !in before
    ensures forall j | 0 <= j < |at| :: RepairsOf(k, patched, lost, before)[j] == k.repair(patched, lost[at[j]])
    ensures forall i: nat | i < |lost| && lost[i] !in before :: i in at
  {
    if lost == [] {
      at := [];
    } else {
      var n := |lost| - 1;
      var front := RepairsOfMean(k, patched, lost[..n], before);
      at := front + if lost[n] in before then [] else [n];
      forall i: nat | i < |lost| && lost[i] !in before ensures i in at {
        if i < n { assert lost[..n][i] == lost[i] && i in front; }
      }
      forall j | 0 <= j < |front| ensures lost[at[j]] == lost[..n][front[j]] {
      }
    }
  }

  /** The check reports the offset in the mutant, and did not in the original. */
  ghost predicate NewlyUnused(k: Checker, original: string, patched: string, off: int) {
    && k.check(patched).Unused? && k.check(original).Unused?
    && off in k.check(patched).offsets && off !in k.check(original).offsets
  }

  /** An offset that is unused now and was not is repaired, and no other: nothing is where the check cannot parse. */
  lemma RepairsMean(k: Checker, original: string, patched: string)
    ensures forall off | NewlyUnused(k, original, patched, off) :: k.repair(patched, off) in Repairs(k, original, patched)
    ensures forall e | e in Repairs(k, original, patched) :: exists off :: NewlyUnused(k, original, patched, off) && e == k.repair(patched, off)
  {
    if k.check(patched).Unused? && k.check(original).Unused? {
      var lost, before, edits := k.check(patched).offsets, k.check(original).offsets, Repairs(k, original, patched);
      var at := RepairsOfMean(k, patched, lost, before);
      forall e | e in edits ensures exists off :: NewlyUnused(k, original, patched, off) && e == k.repair(patched, off) {
        var j :| 0 <= j < |edits| && edits[j] == e;
        assert NewlyUnused(k, original, patched, lost[at[j]]);
      }
      forall off | NewlyUnused(k, original, patched, off) ensures k.repair(patched, off) in edits {
        var i :| 0 <= i < |lost| && lost[i] == off;
        assert i in at;
        var j :| 0 <= j < |at| && at[j] == i;
        assert edits[j] == k.repair(patched, off);
      }
    }
  }

  method KeepUses(fuses: Fuses, k: Checker, original: string, patched: string) returns (out: string)
    requires k.check(original).Unused?
    requires Fit(patched, Sort(Repairs(k, original, patched), StartLess))
    ensures out == Edited(fuses, patched, Sort(Repairs(k, original, patched), StartLess))
  {
    var now := k.check(patched);
    if now.Unparseable? { return patched; }
    var lost := now.offsets;
    if |lost| == 0 { return patched; }
    var before := k.check(original).offsets;
    var edits: seq<Edit> := [];
    for i := 0 to |lost|
      invariant edits == RepairsOf(k, patched, lost[..i], before)
    {
      assert lost[..i + 1][..i] == lost[..i];
      if lost[i] !in before { edits := edits + [k.repair(patched, lost[i])]; }
    }
    assert lost[..|lost|] == lost;
    out := ApplyEdits(fuses, patched, edits);
  }

  /** The source with the mutation in it, before any repair. */
  function Mutated(fuses: Fuses, original: string, start: nat, end: nat, replacement: string): string {
    Edited(fuses, original, [Edit(start, end, replacement)])
  }

  /**
   The mutation by itself: the text in the place of its range, with a space put at an end exactly where its byte there
   would fuse with its new neighbour and the range's seam did not fuse before.
   */
  lemma MutatedMeans(fuses: Fuses, original: string, start: nat, end: nat, replacement: string) returns (left: bool, right: bool)
    requires start <= end <= |original|
    ensures Mutated(fuses, original, start, end, replacement) == original[..start]
      + ((if left then " " else "") + replacement + (if right then " " else "")) + original[end..]
    ensures replacement != "" ==>
      && left == (start > 0 && fuses(original[start - 1], replacement[0])
                  && !(start < |original| && fuses(original[start - 1], original[start])))
      && right == (end < |original| && fuses(replacement[|replacement| - 1], original[end])
                   && !(end > 0 && fuses(original[end - 1], original[end])))
    ensures replacement == "" ==>
      && !right
      && left == (start > 0 && end < |original| && fuses(original[start - 1], original[end])
                  && !(start < |original| && fuses(original[start - 1], original[start])))
  {
    left, right := KeepApartMeans(fuses, original, start, end, replacement);
    var one := [Edit(start, end, replacement)];
    assert one[1..] == [] && one[0] == Edit(start, end, replacement);
    assert Edited(fuses, original, one[1..]) == original;
  }

  lemma KeepApartMeans(fuses: Fuses, original: string, start: nat, end: nat, replacement: string) returns (left: bool, right: bool)
    requires start <= end <= |original|
    ensures KeepApart(fuses, original, start, end, replacement)
      == (if left then " " else "") + replacement + (if right then " " else "")
    ensures replacement != "" ==>
      && left == (start > 0 && fuses(original[start - 1], replacement[0])
                  && !(start < |original| && fuses(original[start - 1], original[start])))
      && right == (end < |original| && fuses(replacement[|replacement| - 1], original[end])
                   && !(end > 0 && fuses(original[end - 1], original[end])))
    ensures replacement == "" ==>
      && !right
      && left == (start > 0 && end < |original| && fuses(original[start - 1], original[end])
                  && !(start < |original| && fuses(original[start - 1], original[start])))
  {
    var before, after := original[..start], original[end..];
    left := if replacement == "" then FusesAt(fuses, before, after) && !FusesAt(fuses, before, original[start..])
            else FusesAt(fuses, before, replacement) && !FusesAt(fuses, before, original[start..]);
    right := replacement != "" && FusesAt(fuses, replacement, after) && !FusesAt(fuses, original[..end], after);
  }

  method ApplyMutant(fuses: Fuses, k: Checker, original: string, start: int, end: int, replacement: string) returns (r: Patched)
    requires k.check(original).Unused?
    requires 0 <= start <= end <= |original| ==>
      var patched := Mutated(fuses, original, start, end, replacement);
      Fit(patched, Sort(Repairs(k, original, patched), StartLess))
    ensures r.Patched? <==> 0 <= start <= end <= |original|
    ensures r.Patched? ==>
      var patched := Mutated(fuses, original, start, end, replacement);
      r.bytes == Edited(fuses, patched, Sort(Repairs(k, original, patched), StartLess))
  {
    r := Apply(original, start, end, KeepApart(fuses, original, start, end, replacement));
    if r.BadRange? { return; }
    var one := [Edit(start, end, replacement)];
    assert one[1..] == [] && one[0] == Edit(start, end, replacement);
    assert Edited(fuses, original, one[1..]) == original;
    assert r.bytes == Mutated(fuses, original, start, end, replacement);
    var out := KeepUses(fuses, k, original, r.bytes);
    r := Patched(out);
  }

  // ----- the result is every span replaced at once -----

  /** The spaces put around an edit's text. */
  datatype Pad = Pad(left: bool, right: bool)

  function Space(b: bool): string {
    if b then " " else ""
  }

  function PaddedText(p: Pad, text: string): string {
    Space(p.left) + text + Space(p.right)
  }

  function PadFor(fuses: Fuses, original: string, e: Edit): Pad
    requires e.start <= e.end <= |original|
  {
    var before, after := original[..e.start], original[e.end..];
    var open := !FusesAt(fuses, before, original[e.start..]);
    if e.text == "" then Pad(FusesAt(fuses, before, after) && open, false)
    else Pad(FusesAt(fuses, before, e.text) && open, FusesAt(fuses, e.text, after) && !FusesAt(fuses, original[..e.end], after))
  }

  lemma KeepApartPads(fuses: Fuses, original: string, e: Edit)
    requires e.start <= e.end <= |original|
    ensures KeepApart(fuses, original, e.start, e.end, e.text) == PaddedText(PadFor(fuses, original, e), e.text)
  {
  }

  /** The source from `from` on, every edit's span replaced by its text and the given spaces. */
  function Spliced(src: string, from: nat, edits: seq<Edit>, pads: seq<Pad>): string
    requires |pads| == |edits| && from <= |src|
    decreases |edits|
  {
    if edits == [] then src[from..]
    else
      var e := edits[0];
      if from <= e.start <= e.end <= |src| then
        src[from..e.start] + (PaddedText(pads[0], e.text) + Spliced(src, e.end, edits[1..], pads[1..]))
      else src[from..]
  }

  /** The three stretches of a splice: what is kept in front of the first edit, its text, and the rest. */
  lemma SplicedParts(src: string, from: nat, edits: seq<Edit>, pads: seq<Pad>)
    requires |pads| == |edits| && edits != [] && from <= edits[0].start <= edits[0].end <= |src|
    ensures Spliced(src, from, edits, pads)
      == src[from..edits[0].start] + (PaddedText(pads[0], edits[0].text) + Spliced(src, edits[0].end, edits[1..], pads[1..]))
  {
  }

  lemma Behind<T>(a: seq<T>, b: seq<T>)
    ensures (a + b)[|a|..] == b
  {
  }

  lemma Associative<T>(a: seq<T>, b: seq<T>, c: seq<T>)
    ensures (a + b) + c == a + (b + c)
  {
  }

  lemma TakeSplits(src: string, from: nat, to: nat)
    requires from <= to <= |src|
    ensures src[..to] == src[..from] + src[from..to]
  {
  }

  function PadsOf(fuses: Fuses, src: string, edits: seq<Edit>): (pads: seq<Pad>)
    ensures |pads| == |edits|
  {
    if edits == [] then []
    else
      var e, rest := edits[0], Edited(fuses, src, edits[1..]);
      [if e.start <= e.end <= |rest| then PadFor(fuses, rest, e) else Pad(false, false)] + PadsOf(fuses, src, edits[1..])
  }

  /** Where an edit may still begin: nothing in front of it has changed. */
  function FirstStart(src: string, edits: seq<Edit>): nat {
    if edits == [] then |src| else edits[0].start
  }

  lemma {:induction false} EditedKeepsFront(fuses: Fuses, src: string, edits: seq<Edit>)
    requires Fit(src, edits)
    ensures FirstStart(src, edits) <= |Edited(fuses, src, edits)| && FirstStart(src, edits) <= |src|
    ensures Edited(fuses, src, edits)[..FirstStart(src, edits)] == src[..FirstStart(src, edits)]
  {
    if edits != [] {
      FitTail(src, edits);
      EditedKeepsFront(fuses, src, edits[1..]);
      var e, rest, n := edits[0], Edited(fuses, src, edits[1..]), FirstStart(src, edits[1..]);
      assert e.end <= n;
      SharedFront(rest, src, n, e.start);
    }
  }

  lemma SharedFront(a: string, b: string, n: nat, m: nat)
    requires m <= n <= |a| && n <= |b| && a[..n] == b[..n]
    ensures a[..m] == b[..m]
  {
    assert a[..n][..m] == a[..m] && b[..n][..m] == b[..m];
  }

  /** What an edit meets: the edits behind it are done, what is in front of its end is still the source. */
  lemma EditMeets(fuses: Fuses, src: string, edits: seq<Edit>)
    requires Fit(src, edits) && edits != []
    ensures var e, rest := edits[0], Edited(fuses, src, edits[1..]);
      && e.start <= e.end <= |rest| && e.end <= |src|
      && rest[..e.start] == src[..e.start] && rest[..e.end] == src[..e.end]
      && Edited(fuses, src, edits) == src[..e.start] + (PaddedText(PadFor(fuses, rest, e), e.text) + rest[e.end..])
  {
    FitTail(src, edits);
    EditedKeepsFront(fuses, src, edits[1..]);
    var e, rest, n := edits[0], Edited(fuses, src, edits[1..]), FirstStart(src, edits[1..]);
    SharedFront(rest, src, n, e.start);
    SharedFront(rest, src, n, e.end);
    KeepApartPads(fuses, rest, e);
    Associative(src[..e.start], PaddedText(PadFor(fuses, rest, e), e.text), rest[e.end..]);
  }

  lemma {:induction false} EditedIsSpliced(fuses: Fuses, src: string, from: nat, edits: seq<Edit>)
    requires Fit(src, edits) && from <= FirstStart(src, edits) && from <= |src|
    ensures Edited(fuses, src, edits) == src[..from] + Spliced(src, from, edits, PadsOf(fuses, src, edits))
    decreases |edits|
  {
    if edits == [] {
      TakeSplits(src, from, |src|);
      assert src[..|src|] == src;
    } else {
      var e := edits[0];
      FitTail(src, edits);
      EditMeets(fuses, src, edits);
      EditedIsSpliced(fuses, src, e.end, edits[1..]);
      PadsInTurn(fuses, src, edits);
      SplicedParts(src, from, edits, PadsOf(fuses, src, edits));
      var text, tail := PaddedText(PadsOf(fuses, src, edits)[0], e.text), Spliced(src, e.end, edits[1..], PadsOf(fuses, src, edits[1..]));
      Behind(src[..e.end], tail);
      TakeSplits(src, from, e.start);
      Associative(src[..from], src[from..e.start], text + tail);
    }
  }

  lemma PadsInTurn(fuses: Fuses, src: string, edits: seq<Edit>)
    requires Fit(src, edits) && edits != []
    ensures var e, rest := edits[0], Edited(fuses, src, edits[1..]);
      && PadsOf(fuses, src, edits)[1..] == PadsOf(fuses, src, edits[1..])
      && e.start <= e.end <= |rest| && PadsOf(fuses, src, edits)[0] == PadFor(fuses, rest, e)
  {
    EditMeets(fuses, src, edits);
  }

  /**
   Last-first editing puts every text in the place of its span at once: but for at most one space at each end of a
   text, and one at most where there is none, the result is the simultaneous replacement.
   */
  lemma EditingIsSimultaneous(fuses: Fuses, src: string, edits: seq<Edit>)
    requires Fit(src, edits)
    ensures Edited(fuses, src, edits) == Spliced(src, 0, edits, PadsOf(fuses, src, edits))
    ensures forall i | 0 <= i < |edits| && edits[i].text == "" :: !PadsOf(fuses, src, edits)[i].right
  {
    EditedIsSpliced(fuses, src, 0, edits);
    EmptyTextsPadOnce(fuses, src, edits);
  }

  lemma {:induction false} EmptyTextsPadOnce(fuses: Fuses, src: string, edits: seq<Edit>)
    ensures forall i | 0 <= i < |edits| && edits[i].text == "" :: !PadsOf(fuses, src, edits)[i].right
  {
    if edits != [] { EmptyTextsPadOnce(fuses, src, edits[1..]); }
  }

  // ----- nothing is glued together -----

  /** The seam at `p` fused in the source. */
  predicate FusedInSource(fuses: Fuses, src: string, p: nat)
    requires p <= |src|
  {
    FusesAt(fuses, src[..p], src[p..])
  }

  /** What a padded text begins and ends with. */
  lemma PaddedEnds(p: Pad, text: string, rest: string)
    ensures var padded, n := PaddedText(p, text), |PaddedText(p, text)| - 1;
      && (p.left ==> (padded + rest)[0] == ' ')
      && (!p.left && text != "" ==> (padded + rest)[0] == text[0])
      && (!p.left && !p.right && text == "" ==> padded + rest == rest)
      && (p.right ==> padded[n] == ' ')
      && (!p.right && text != "" ==> padded[n] == text[|text| - 1])
      && (!p.right && text == "" ==> padded == Space(p.left))
  {
  }

  /** In front of the edits a seam that fuses now fused before. */
  lemma {:induction false} FrontSeam(fuses: Fuses, src: string, edits: seq<Edit>, p: nat)
    requires SpaceStandsApart(fuses) && Fit(src, edits)
    requires p <= FirstStart(src, edits) <= |Edited(fuses, src, edits)| && p <= |src|
    requires FusesAt(fuses, src[..p], Edited(fuses, src, edits)[p..])
    ensures FusedInSource(fuses, src, p)
    decreases |edits|, 1
  {
    if edits != [] {
      EditMeets(fuses, src, edits);
      if p == edits[0].start { LeftSeam(fuses, src, edits); }
    }
  }

  /** The seam in front of an edit's text. */
  lemma {:induction false} LeftSeam(fuses: Fuses, src: string, edits: seq<Edit>)
    requires SpaceStandsApart(fuses) && Fit(src, edits) && edits != []
    requires edits[0].start <= |Edited(fuses, src, edits)|
    requires FusesAt(fuses, src[..edits[0].start], Edited(fuses, src, edits)[edits[0].start..])
    ensures FusedInSource(fuses, src, edits[0].start)
    decreases |edits|, 0
  {
    var e, rest := edits[0], Edited(fuses, src, edits[1..]);
    EditMeets(fuses, src, edits);
    FitTail(src, edits);
    EditedKeepsFront(fuses, src, edits[1..]);
    var pad := PadFor(fuses, rest, e);
    var behind := PaddedText(pad, e.text) + rest[e.end..];
    assert Edited(fuses, src, edits)[e.start..] == behind;
    PaddedEnds(pad, e.text, rest[e.end..]);
    if FusesAt(fuses, src[..e.start], rest[e.start..]) {
      FrontSeam(fuses, src, edits[1..], e.start);
    }
  }

  /** The seam behind an edit's text. */
  lemma RightSeam(fuses: Fuses, src: string, edits: seq<Edit>)
    requires SpaceStandsApart(fuses) && Fit(src, edits) && edits != []
    requires var e, rest := edits[0], Edited(fuses, src, edits[1..]);
      e.start <= e.end <= |rest| && FusesAt(fuses, PaddedText(PadFor(fuses, rest, e), e.text), rest[e.end..])
    ensures edits[0].end <= |src| && FusedInSource(fuses, src, edits[0].end)
  {
    var e, rest := edits[0], Edited(fuses, src, edits[1..]);
    EditMeets(fuses, src, edits);
    FitTail(src, edits);
    EditedKeepsFront(fuses, src, edits[1..]);
    var pad := PadFor(fuses, rest, e);
    var text := PaddedText(pad, e.text);
    PaddedEnds(pad, e.text, rest[e.end..]);
    FrontSeam(fuses, src, edits[1..], e.end);
  }

  /** Where a byte of the result is from: a byte of the source, a byte of an edit's text, or put in to keep two apart. */
  datatype Origin = Kept(pos: nat) | New(end: nat, left: nat, k: nat) | Spacer

  datatype Byte = Byte(c: char, origin: Origin)

  function Chars(w: seq<Byte>): (s: string)
    ensures |s| == |w| && forall j | 0 <= j < |w| :: s[j] == w[j].c
  {
    seq(|w|, j requires 0 <= j < |w| => w[j].c)
  }

  function KeptBytes(src: string, from: nat, to: nat): (w: seq<Byte>)
    requires from <= to <= |src|
    ensures |w| == to - from && forall j | 0 <= j < |w| :: w[j] == Byte(src[from + j], Kept(from + j))
  {
    seq(to - from, j requires 0 <= j < to - from => Byte(src[from + j], Kept(from + j)))
  }

  function SpacerIf(b: bool): seq<Byte> {
    if b then [Byte(' ', Spacer)] else []
  }

  function NewBytes(e: Edit, left: nat): (w: seq<Byte>)
    ensures |w| == |e.text| && forall k | 0 <= k < |w| :: w[k] == Byte(e.text[k], New(e.end, left, k))
  {
    seq(|e.text|, k requires 0 <= k < |e.text| => Byte(e.text[k], New(e.end, left, k)))
  }

  /** A text is told from another by the edit's end and by how many edits are left. */
  function TextBytes(p: Pad, e: Edit, left: nat): seq<Byte> {
    SpacerIf(p.left) + NewBytes(e, left) + SpacerIf(p.right)
  }

  /** The splice with every byte's origin. */
  function Woven(src: string, from: nat, edits: seq<Edit>, pads: seq<Pad>): seq<Byte>
    requires |pads| == |edits| && from <= |src|
    decreases |edits|
  {
    if edits == [] then KeptBytes(src, from, |src|)
    else
      var e := edits[0];
      if from <= e.start <= e.end <= |src| then
        KeptBytes(src, from, e.start) + (TextBytes(pads[0], e, |edits|) + Woven(src, e.end, edits[1..], pads[1..]))
      else KeptBytes(src, from, |src|)
  }

  lemma WovenParts(src: string, from: nat, edits: seq<Edit>, pads: seq<Pad>)
    requires |pads| == |edits| && edits != [] && from <= edits[0].start <= edits[0].end <= |src|
    ensures Woven(src, from, edits, pads)
      == KeptBytes(src, from, edits[0].start) + (TextBytes(pads[0], edits[0], |edits|) + Woven(src, edits[0].end, edits[1..], pads[1..]))
  {
  }

  lemma CharsAppend(a: seq<Byte>, b: seq<Byte>)
    ensures Chars(a + b) == Chars(a) + Chars(b)
  {
  }

  lemma TextChars(p: Pad, e: Edit, left: nat)
    ensures Chars(TextBytes(p, e, left)) == PaddedText(p, e.text)
  {
  }

  /** The woven bytes are those of the splice. */
  lemma {:induction false} WovenIsSpliced(src: string, from: nat, edits: seq<Edit>, pads: seq<Pad>)
    requires |pads| == |edits| && Fit(src, edits) && from <= FirstStart(src, edits) && from <= |src|
    ensures Chars(Woven(src, from, edits, pads)) == Spliced(src, from, edits, pads)
    decreases |edits|
  {
    if edits != [] {
      var e := edits[0];
      FitTail(src, edits);
      SplicedParts(src, from, edits, pads);
      WovenParts(src, from, edits, pads);
      WovenIsSpliced(src, e.end, edits[1..], pads[1..]);
      TextChars(pads[0], e, |edits|);
      var run, text, rest := KeptBytes(src, from, e.start), TextBytes(pads[0], e, |edits|), Woven(src, e.end, edits[1..], pads[1..]);
      CharsAppend(text, rest);
      CharsAppend(run, text + rest);
      assert Chars(run) == src[from..e.start];
    }
  }

  /** A byte has the character its origin says. */
  ghost predicate Told(src: string, edits: seq<Edit>, b: Byte) {
    match b.origin
    case Kept(pos) => pos < |src| && b.c == src[pos]
    case New(end, _, k) => exists e :: e in edits && e.end == end && k < |e.text| && b.c == e.text[k]
    case Spacer => b.c == ' '
  }

  lemma ToldByTail(src: string, edits: seq<Edit>, b: Byte)
    requires edits != [] && Told(src, edits[1..], b)
    ensures Told(src, edits, b)
  {
    if b.origin.New? {
      var e :| e in edits[1..] && e.end == b.origin.end && b.origin.k < |e.text| && b.c == e.text[b.origin.k];
      assert e in edits;
    }
  }

  lemma TextTold(src: string, edits: seq<Edit>, p: Pad, left: nat)
    requires edits != []
    ensures forall b | b in TextBytes(p, edits[0], left) :: Told(src, edits, b)
  {
    assert edits[0] in edits;
  }

  lemma {:induction false} WovenTold(src: string, from: nat, edits: seq<Edit>, pads: seq<Pad>)
    requires |pads| == |edits| && Fit(src, edits) && from <= FirstStart(src, edits) && from <= |src|
    ensures forall b | b in Woven(src, from, edits, pads) :: Told(src, edits, b)
    decreases |edits|
  {
    if edits != [] {
      FitTail(src, edits);
      WovenParts(src, from, edits, pads);
      WovenTold(src, edits[0].end, edits[1..], pads[1..]);
      TextTold(src, edits, pads[0], |edits|);
      forall b | b in Woven(src, edits[0].end, edits[1..], pads[1..]) ensures Told(src, edits, b) {
        ToldByTail(src, edits, b);
      }
    }
  }

  /** Two neighbours in the result that were not neighbours before. */
  predicate BroughtTogether(a: Origin, b: Origin) {
    && (a.Kept? ==> b != Kept(a.pos + 1))
    && (a.New? ==> b != New(a.end, a.left, a.k + 1))
  }

  /** The source seam behind a byte: behind the byte itself, or behind what its text replaced. */
  function SeamBehind(a: Origin): nat {
    match a
    case Kept(pos) => pos + 1
    case New(end, _, _) => end
    case Spacer => 0
  }

  /** What is claimed of neighbours: those brought together fuse only where the source did. */
  ghost predicate NotGlued(fuses: Fuses, src: string, a: Byte, b: Byte) {
    fuses(a.c, b.c) && BroughtTogether(a.origin, b.origin)
    ==> SeamBehind(a.origin) <= |src| && FusedInSource(fuses, src, SeamBehind(a.origin))
  }

  ghost predicate NoneGlued(fuses: Fuses, src: string, w: seq<Byte>) {
    forall j | 0 < j < |w| :: NotGlued(fuses, src, w[j - 1], w[j])
  }

  lemma JoinNotGlued(fuses: Fuses, src: string, a: seq<Byte>, b: seq<Byte>)
    requires NoneGlued(fuses, src, a) && NoneGlued(fuses, src, b)
    requires a != [] && b != [] ==> NotGlued(fuses, src, a[|a| - 1], b[0])
    ensures NoneGlued(fuses, src, a + b)
  {
    var w := a + b;
    forall j | 0 < j < |w| ensures NotGlued(fuses, src, w[j - 1], w[j]) {
      if j > |a| { assert w[j - 1] == b[j - |a| - 1] && w[j] == b[j - |a|]; }
    }
  }

  lemma KeptNotGlued(fuses: Fuses, src: string, from: nat, to: nat)
    requires from <= to <= |src|
    ensures NoneGlued(fuses, src, KeptBytes(src, from, to))
  {
  }

  lemma TextNotGlued(fuses: Fuses, src: string, p: Pad, e: Edit, left: nat)
    requires SpaceStandsApart(fuses)
    ensures NoneGlued(fuses, src, TextBytes(p, e, left))
  {
    assert NoneGlued(fuses, src, NewBytes(e, left));
    JoinNotGlued(fuses, src, SpacerIf(p.left), NewBytes(e, left));
    JoinNotGlued(fuses, src, SpacerIf(p.left) + NewBytes(e, left), SpacerIf(p.right));
  }

  lemma {:induction false} WovenNotGlued(fuses: Fuses, src: string, from: nat, edits: seq<Edit>)
    requires SpaceStandsApart(fuses) && Fit(src, edits) && from <= FirstStart(src, edits) && from <= |src|
    ensures NoneGlued(fuses, src, Woven(src, from, edits, PadsOf(fuses, src, edits)))
    decreases |edits|
  {
    var pads := PadsOf(fuses, src, edits);
    if edits == [] {
      KeptNotGlued(fuses, src, from, |src|);
    } else {
      var e := edits[0];
      var run, text, rest := KeptBytes(src, from, e.start), TextBytes(pads[0], e, |edits|), Woven(src, e.end, edits[1..], pads[1..]);
      FitTail(src, edits);
      PadsInTurn(fuses, src, edits);
      WovenParts(src, from, edits, pads);
      WovenNotGlued(fuses, src, e.end, edits[1..]);
      KeptNotGlued(fuses, src, from, e.start);
      TextNotGlued(fuses, src, pads[0], e, |edits|);
      if text != [] && rest != [] { BehindText(fuses, src, edits, rest[0]); }
      JoinNotGlued(fuses, src, text, rest);
      if run != [] && text + rest != [] { BeforeText(fuses, src, edits, (text + rest)[0]); }
      JoinNotGlued(fuses, src, run, text + rest);
    }
  }

  /** What follows the first edit's place in the result, and its end. */
  lemma RestIsWoven(fuses: Fuses, src: string, edits: seq<Edit>)
    requires Fit(src, edits) && edits != []
    ensures var e, pads := edits[0], PadsOf(fuses, src, edits);
      var rest := Woven(src, e.end, edits[1..], pads[1..]);
      && e.start <= |Edited(fuses, src, edits)| && e.end <= |Edited(fuses, src, edits[1..])|
      && Edited(fuses, src, edits[1..])[e.end..] == Chars(rest)
      && Edited(fuses, src, edits)[e.start..] == Chars(TextBytes(pads[0], e, |edits|) + rest)
  {
    var e, pads := edits[0], PadsOf(fuses, src, edits);
    FitTail(src, edits);
    EditMeets(fuses, src, edits);
    PadsInTurn(fuses, src, edits);
    EditedIsSpliced(fuses, src, e.end, edits[1..]);
    WovenIsSpliced(src, e.end, edits[1..], pads[1..]);
    var rest := Woven(src, e.end, edits[1..], pads[1..]);
    Behind(src[..e.end], Chars(rest));
    TextChars(pads[0], e, |edits|);
    CharsAppend(TextBytes(pads[0], e, |edits|), rest);
    Behind(src[..e.start], PaddedText(pads[0], e.text) + Chars(rest));
  }

  /** The last byte kept in front of the first edit, and what follows it. */
  lemma BeforeText(fuses: Fuses, src: string, edits: seq<Edit>, next: Byte)
    requires SpaceStandsApart(fuses) && Fit(src, edits) && edits != [] && edits[0].start > 0
    requires var e, pads := edits[0], PadsOf(fuses, src, edits);
      var behind := TextBytes(pads[0], e, |edits|) + Woven(src, e.end, edits[1..], pads[1..]);
      behind != [] && next == behind[0]
    ensures NotGlued(fuses, src, Byte(src[edits[0].start - 1], Kept(edits[0].start - 1)), next)
  {
    RestIsWoven(fuses, src, edits);
    if fuses(src[edits[0].start - 1], next.c) { LeftSeam(fuses, src, edits); }
  }

  /** The last byte of the first edit's text, and what follows it. */
  lemma BehindText(fuses: Fuses, src: string, edits: seq<Edit>, next: Byte)
    requires SpaceStandsApart(fuses) && Fit(src, edits) && edits != []
    requires var e, pads := edits[0], PadsOf(fuses, src, edits);
      var rest := Woven(src, e.end, edits[1..], pads[1..]);
      TextBytes(pads[0], e, |edits|) != [] && rest != [] && next == rest[0]
    ensures var text := TextBytes(PadsOf(fuses, src, edits)[0], edits[0], |edits|);
      NotGlued(fuses, src, text[|text| - 1], next)
  {
    var e, pads := edits[0], PadsOf(fuses, src, edits);
    var text := TextBytes(pads[0], e, |edits|);
    var last := text[|text| - 1];
    if fuses(last.c, next.c) {
      EndOfText(fuses, pads[0], e, |edits|, next.c);
      PadsInTurn(fuses, src, edits);
      FusesOn(fuses, src, edits, pads[0], next);
    }
  }

  lemma FusesOn(fuses: Fuses, src: string, edits: seq<Edit>, p: Pad, next: Byte)
    requires SpaceStandsApart(fuses) && Fit(src, edits) && edits != []
    requires var e := edits[0]; e.end <= |Edited(fuses, src, edits[1..])| && p == PadFor(fuses, Edited(fuses, src, edits[1..]), e)
    requires var text := TextBytes(p, edits[0], |edits|); text != [] && fuses(text[|text| - 1].c, next.c)
    requires var rest := Woven(src, edits[0].end, edits[1..], PadsOf(fuses, src, edits)[1..]); rest != [] && next == rest[0]
    ensures edits[0].end <= |src| && FusedInSource(fuses, src, edits[0].end)
  {
    BehindIsNext(fuses, src, edits, next);
    TextChars(p, edits[0], |edits|);
    RightSeam(fuses, src, edits);
  }

  lemma BehindIsNext(fuses: Fuses, src: string, edits: seq<Edit>, next: Byte)
    requires Fit(src, edits) && edits != []
    requires var rest := Woven(src, edits[0].end, edits[1..], PadsOf(fuses, src, edits)[1..]); rest != [] && next == rest[0]
    ensures edits[0].end < |Edited(fuses, src, edits[1..])| && Edited(fuses, src, edits[1..])[edits[0].end] == next.c
  {
    RestIsWoven(fuses, src, edits);
    var e := edits[0];
    var rest := Woven(src, e.end, edits[1..], PadsOf(fuses, src, edits)[1..]);
    var edited := Edited(fuses, src, edits[1..]);
    assert edited[e.end..] == Chars(rest) && Chars(rest)[0] == rest[0].c;
    assert edited[e.end..][0] == edited[e.end];
  }

  lemma EndOfText(fuses: Fuses, p: Pad, e: Edit, left: nat, c: char)
    requires SpaceStandsApart(fuses) && TextBytes(p, e, left) != []
    ensures var text := TextBytes(p, e, left); fuses(text[|text| - 1].c, c) ==> SeamBehind(text[|text| - 1].origin) == e.end
  {
  }

  /** No two bytes that editing brings together fuse unless the source fused at that seam. */
  lemma NothingIsGlued(fuses: Fuses, src: string, edits: seq<Edit>)
    requires SpaceStandsApart(fuses) && Fit(src, edits)
    ensures var w := Woven(src, 0, edits, PadsOf(fuses, src, edits));
      && Chars(w) == Edited(fuses, src, edits)
      && (forall b | b in w :: Told(src, edits, b))
      && (forall j | 0 < j < |w| :: NotGlued(fuses, src, w[j - 1], w[j]))
  {
    var pads := PadsOf(fuses, src, edits);
    EditingIsSimultaneous(fuses, src, edits);
    WovenIsSpliced(src, 0, edits, pads);
    WovenTold(src, 0, edits, pads);
    WovenNotGlued(fuses, src, 0, edits);
  }

  // ----- lines -----

  function Newlines(s: string): nat {
    if s == "" then 0 else Newlines(s[..|s| - 1]) + if s[|s| - 1] == '\n' then 1 else 0
  }

  lemma {:induction false} NewlinesAppend(a: string, b: string)
    ensures Newlines(a + b) == Newlines(a) + Newlines(b)
  {
    if b == "" {
      assert a + b == a;
    } else {
      assert (a + b)[..|a + b| - 1] == a + b[..|b| - 1];
      NewlinesAppend(a, b[..|b| - 1]);
    }
  }

  lemma {:induction false} NoNewlines(s: string)
    requires '\n' !in s
    ensures Newlines(s) == 0
  {
    if s != "" { NoNewlines(s[..|s| - 1]); }
  }

  /** Neither what an edit takes away nor what it puts in breaks a line. */
  ghost predicate OnOneLine(src: string, edits: seq<Edit>) {
    forall i | 0 <= i < |edits| :: '\n' !in edits[i].text && edits[i].start <= edits[i].end <= |src| && '\n' !in src[edits[i].start..edits[i].end]
  }

  lemma FrontOfParts<T>(a: seq<T>, b: seq<T>, c: seq<T>, j: nat)
    requires j < |a| + |b| + |c|
    ensures j < |a| ==> (a + (b + c))[j] == a[j] && (a + (b + c))[..j] == a[..j]
    ensures |a| <= j < |a| + |b| ==> (a + (b + c))[j] in b
    ensures j >= |a| + |b| ==> (a + (b + c))[j] == c[j - |a| - |b|] && (a + (b + c))[..j] == a + (b + c[..j - |a| - |b|])
  {
  }

  lemma TextIsNotKept(p: Pad, e: Edit, left: nat)
    ensures forall b | b in TextBytes(p, e, left) :: !b.origin.Kept?
  {
  }

  /** A kept byte has as many line breaks in front of it, from `from` on, as in the source. */
  ghost predicate OnItsLine(src: string, from: nat, w: seq<Byte>, j: nat)
    requires j < |w| && w[j].origin.Kept?
  {
    from <= w[j].origin.pos < |src| && Newlines(Chars(w[..j])) == Newlines(src[from..w[j].origin.pos])
  }

  lemma {:induction false} WovenKeepsLines(src: string, from: nat, edits: seq<Edit>, pads: seq<Pad>, j: nat)
    requires |pads| == |edits| && Fit(src, edits) && OnOneLine(src, edits) && from <= FirstStart(src, edits) && from <= |src|
    requires j < |Woven(src, from, edits, pads)| && Woven(src, from, edits, pads)[j].origin.Kept?
    ensures OnItsLine(src, from, Woven(src, from, edits, pads), j)
    decreases |edits|
  {
    if edits == [] {
      KeptOnItsLine(src, from, |src|, j);
    } else {
      var e := edits[0];
      var run, text, rest := KeptBytes(src, from, e.start), TextBytes(pads[0], e, |edits|), Woven(src, e.end, edits[1..], pads[1..]);
      FitTail(src, edits);
      WovenParts(src, from, edits, pads);
      FrontOfParts(run, text, rest, j);
      TextIsNotKept(pads[0], e, |edits|);
      if j < |run| {
        KeptOnItsLine(src, from, e.start, j);
      } else {
        WovenKeepsLines(src, e.end, edits[1..], pads[1..], j - |run| - |text|);
        BehindOnItsLine(src, from, e, pads[0], |edits|, rest, j - |run| - |text|);
      }
    }
  }

  lemma KeptOnItsLine(src: string, from: nat, to: nat, j: nat)
    requires from <= to <= |src| && j < to - from
    ensures OnItsLine(src, from, KeptBytes(src, from, to), j)
  {
    assert Chars(KeptBytes(src, from, to)[..j]) == src[from..from + j];
  }

  lemma BehindOnItsLine(src: string, from: nat, e: Edit, p: Pad, left: nat, rest: seq<Byte>, k: nat)
    requires from <= e.start <= e.end <= |src| && '\n' !in e.text && '\n' !in src[e.start..e.end]
    requires k < |rest| && rest[k].origin.Kept? && OnItsLine(src, e.end, rest, k)
    ensures Newlines(Chars(KeptBytes(src, from, e.start) + (TextBytes(p, e, left) + rest[..k]))) == Newlines(src[from..rest[k].origin.pos])
  {
    var run, text, front, pos := KeptBytes(src, from, e.start), TextBytes(p, e, left), rest[..k], rest[k].origin.pos;
    CharsAppend(text, front);
    CharsAppend(run, text + front);
    TextChars(p, e, left);
    var a, b, c := src[from..e.start], src[e.start..e.end], src[e.end..pos];
    assert Chars(run) == a;
    assert src[from..pos] == a + (b + c);
    NewlinesAppend(a, b + c);
    NewlinesAppend(b, c);
    NewlinesAppend(a, PaddedText(p, e.text) + Chars(front));
    NewlinesAppend(PaddedText(p, e.text), Chars(front));
    NoNewlines(PaddedText(p, e.text));
    NoNewlines(b);
  }

  /** Edits that break no line leave every byte of the source on its line. */
  lemma LinesStay(fuses: Fuses, src: string, edits: seq<Edit>, j: nat)
    requires Fit(src, edits) && OnOneLine(src, edits) && j < |Edited(fuses, src, edits)|
    ensures var w := Woven(src, 0, edits, PadsOf(fuses, src, edits));
      && Chars(w) == Edited(fuses, src, edits)
      && (w[j].origin.Kept? ==>
          && w[j].origin.pos < |src| && Edited(fuses, src, edits)[j] == src[w[j].origin.pos]
          && Newlines(Edited(fuses, src, edits)[..j]) == Newlines(src[..w[j].origin.pos]))
  {
    var pads := PadsOf(fuses, src, edits);
    var w := Woven(src, 0, edits, pads);
    EditingIsSimultaneous(fuses, src, edits);
    WovenIsSpliced(src, 0, edits, pads);
    WovenTold(src, 0, edits, pads);
    assert w[j] in w;
    if w[j].origin.Kept? {
      WovenKeepsLines(src, 0, edits, pads, j);
      assert Chars(w[..j]) == Chars(w)[..j];
      assert src[0..w[j].origin.pos] == src[..w[j].origin.pos];
    }
  }
}
