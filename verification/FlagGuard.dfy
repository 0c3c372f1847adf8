/** The guard on `--test-flags` (`checkTestFlags` in main.go, `FlagName` in internal/config/config.go). */
module FlagGuard {
  import opened Text

  const MANAGED: set<string> := {"overlay", "run", "coverprofile", "coverpkg", "c", "o", "exec", "timeout"}

  /** A field's name before any `=`, without its leading dashes. */
  function Spelled(f: string): string {
    CutBefore(TrimLeft(f, '-'), '=')
  }

  /** `config.FlagName`, the empty string standing for a field that is no flag. */
  function FlagName(f: string): string {
    if HasPrefix(f, "-") then TrimPrefix(Spelled(f), "test.") else ""
  }

  predicate IsFlagBoundary(f: string) {
    f == "-args" || f == "--args" || f == "--"
  }

  /** A flag that carries no inline value, and so may take the next field as one. */
  predicate MayConsume(f: string) {
    HasPrefix(f, "-") && '=' !in f
  }

  predicate BoundaryConsumed(fields: seq<string>, i: nat)
    requires i < |fields|
  {
    i > 0 && MayConsume(fields[i - 1])
  }

  predicate Accepts(flags: seq<string>, i: nat, afterArgs: bool)
    requires i <= |flags|
    decreases |flags| - i
  {
    if i == |flags| then true
    else if IsFlagBoundary(flags[i]) && !BoundaryConsumed(flags, i) then
      flags[i] == "--" || Accepts(flags, i + 1, true)
    else if afterArgs && !HasPrefix(Spelled(flags[i]), "test.") then Accepts(flags, i + 1, afterArgs)
    else FlagName(flags[i]) !in MANAGED && Accepts(flags, i + 1, afterArgs)
  }

  // ----- what is rejected, as a user writes it -----

  /** A managed flag: dashes, `test.` or nothing, one of the eight names, and a value behind `=` or nothing. */
  ghost predicate Spells(f: string, dashes: string, test: string, name: string, rest: string) {
    && dashes != "" && (forall i | 0 <= i < |dashes| :: dashes[i] == '-')
    && (name == "overlay" || name == "run" || name == "coverprofile" || name == "coverpkg"
        || name == "c" || name == "o" || name == "exec" || name == "timeout")
    && (rest == "" || rest[0] == '=')
    && f == dashes + (test + (name + rest))
  }

  ghost predicate Managed(f: string, test: string) {
    exists dashes, name, rest :: Spells(f, dashes, test, name, rest)
  }

  /** A boundary the guard relies on: not one that the flag in front of it, written without a value, may take. */
  ghost predicate Trusted(flags: seq<string>, j: nat)
    requires j < |flags|
  {
    && (flags[j] == "-args" || flags[j] == "--args" || flags[j] == "--")
    && !(j > 0 && flags[j - 1] != "" && flags[j - 1][0] == '-' && '=' !in flags[j - 1])
  }

  /** Behind a trusted `--` anything goes, behind a trusted `-args` any managed name but with `test.`. */
  ghost predicate Offends(flags: seq<string>, i: nat)
    requires i < |flags|
  {
    && (forall j | 0 <= j < i :: flags[j] == "--" ==> !Trusted(flags, j))
    && (Managed(flags[i], "test.") || (Managed(flags[i], "") && forall j | 0 <= j < i :: !Trusted(flags, j)))
  }

  lemma {:induction false} DashesTrimmed(dashes: string, x: string)
    requires (forall i | 0 <= i < |dashes| :: dashes[i] == '-') && (x == "" || x[0] != '-')
    ensures TrimLeft(dashes + x, '-') == x
  {
    if dashes == "" {
      assert dashes + x == x;
    } else {
      assert (dashes + x)[1..] == dashes[1..] + x;
      DashesTrimmed(dashes[1..], x);
    }
  }

  lemma {:induction false} TrimmedDashes(f: string)
    ensures var x := TrimLeft(f, '-'); |x| <= |f| && f[|f| - |x|..] == x && forall i | 0 <= i < |f| - |x| :: f[i] == '-'
    ensures HasPrefix(f, "-") ==> |TrimLeft(f, '-')| < |f|
  {
    if f != "" && f[0] == '-' {
      TrimmedDashes(f[1..]);
      var x := TrimLeft(f[1..], '-');
      assert f[|f| - |x|..] == f[1..][|f[1..]| - |x|..];
      forall i | 0 <= i < |f| - |x| ensures f[i] == '-' {
        if i > 0 { assert f[i] == f[1..][i - 1]; }
      }
    }
  }

  lemma CutAt(y: string, rest: string)
    requires '=' !in y && (rest == "" || rest[0] == '=')
    ensures CutBefore(y + rest, '=') == y
  {
    var f := y + rest;
    assert forall i | 0 <= i < |y| :: f[i] == y[i] && y[i] in y;
    assert rest != "" ==> f[|y|] == '=';
    assert IndexOf(f, '=') == |y|;
  }

  /** Nothing about a managed name looks like another part of a field. */
  lemma NamesArePlain(name: string)
    requires name == "overlay" || name == "run" || name == "coverprofile" || name == "coverpkg"
      || name == "c" || name == "o" || name == "exec" || name == "timeout"
    ensures name != "" && '=' !in name && name[0] != '-' && !HasPrefix(name, "test.") && name in MANAGED
  {
    assert name[0] == 't' ==> name[1] == 'i' && "test."[1] == 'e';
  }

  lemma SpelledName(f: string, dashes: string, test: string, name: string, rest: string)
    requires Spells(f, dashes, test, name, rest) && (test == "" || test == "test.")
    ensures HasPrefix(f, "-") && Spelled(f) == test + name && FlagName(f) == name
  {
    NamesArePlain(name);
    PrefixedName(test, name);
    assert f[0] == '-';
    var x := test + (name + rest);
    assert x[0] == (test + name)[0];
    DashesTrimmed(dashes, x);
    Associate(test, name, rest);
    CutAt(test + name, rest);
  }

  lemma PrefixedName(test: string, name: string)
    requires (test == "" || test == "test.") && name != "" && '=' !in name && name[0] != '-' && !HasPrefix(name, "test.")
    ensures (test + name)[0] != '-' && '=' !in test + name && TrimPrefix(test + name, "test.") == name
  {
    if test == "" {
      assert test + name == name;
    } else {
      assert forall c | c in test :: c in "tes.";
      assert (test + name)[..5] == "test." && (test + name)[5..] == name;
    }
  }

  /** The name the guard goes by is that of the spelling. */
  lemma FlagNameMeans(f: string)
    ensures Managed(f, "test.") <==> HasPrefix(f, "-") && HasPrefix(Spelled(f), "test.") && TrimPrefix(Spelled(f), "test.") in MANAGED
    ensures Managed(f, "") || Managed(f, "test.") <==> FlagName(f) in MANAGED
  {
    if dashes, name, rest :| Spells(f, dashes, "test.", name, rest) {
      SpelledName(f, dashes, "test.", name, rest);
      NamesArePlain(name);
      assert ("test." + name)[5..] == name;
    }
    if dashes, name, rest :| Spells(f, dashes, "", name, rest) {
      SpelledName(f, dashes, "", name, rest);
      NamesArePlain(name);
    }
    if FlagName(f) in MANAGED { NamedIsSpelled(f); }
  }

  lemma NamedIsSpelled(f: string)
    requires FlagName(f) in MANAGED
    ensures HasPrefix(f, "-") && Managed(f, if HasPrefix(Spelled(f), "test.") then "test." else "")
  {
    var dashes, rest := SplitField(f);
    var test := if HasPrefix(Spelled(f), "test.") then "test." else "";
    SplitTest(Spelled(f));
    Associate(test, FlagName(f), rest);
    assert Spells(f, dashes, test, FlagName(f), rest);
  }

  /** A field that starts with a dash: its dashes, its spelled name, and the rest. */
  lemma SplitField(f: string) returns (dashes: string, rest: string)
    requires HasPrefix(f, "-")
    ensures dashes != "" && forall i | 0 <= i < |dashes| :: dashes[i] == '-'
    ensures (rest == "" || rest[0] == '=') && f == dashes + (Spelled(f) + rest)
  {
    TrimmedDashes(f);
    var x := TrimLeft(f, '-');
    dashes, rest := f[..|f| - |x|], x[IndexOf(x, '=')..];
    assert x == Spelled(f) + rest;
  }

  lemma SplitTest(x: string)
    ensures x == (if HasPrefix(x, "test.") then "test." else "") + TrimPrefix(x, "test.")
  {
  }

  lemma TrustedMeans(flags: seq<string>, j: nat)
    requires j < |flags|
    ensures Trusted(flags, j) <==> IsFlagBoundary(flags[j]) && !BoundaryConsumed(flags, j)
  {
    if j > 0 { assert HasPrefix(flags[j - 1], "-") <==> flags[j - 1] != "" && flags[j - 1][0] == '-'; }
  }

  lemma OffendsAt(flags: seq<string>, i: nat, after: bool)
    requires i < |flags| && !Trusted(flags, i)
    requires forall j | 0 <= j < i :: flags[j] == "--" ==> !Trusted(flags, j)
    requires after <==> exists j | 0 <= j < i :: Trusted(flags, j)
    ensures Accepts(flags, i, after) <==> !Offends(flags, i) && Accepts(flags, i + 1, after)
  {
    TrustedMeans(flags, i);
    FlagNameMeans(flags[i]);
  }

  /** Whether the guard, which has passed the fields in front of `i`, passes the rest. */
  lemma {:induction false} AcceptsFrom(flags: seq<string>, i: nat, after: bool)
    requires i <= |flags|
    requires forall j | 0 <= j < i :: flags[j] == "--" ==> !Trusted(flags, j)
    requires after <==> exists j | 0 <= j < i :: Trusted(flags, j)
    ensures Accepts(flags, i, after) <==> forall k | i <= k < |flags| :: !Offends(flags, k)
    decreases |flags| - i
  {
    if i < |flags| {
      if Trusted(flags, i) {
        TrustedMeans(flags, i);
        BoundaryIsUnmanaged(flags[i]);
        assert !Offends(flags, i);
        if flags[i] != "--" { AcceptsFrom(flags, i + 1, true); }
      } else {
        OffendsAt(flags, i, after);
        AcceptsFrom(flags, i + 1, after);
      }
    }
  }

  lemma BoundaryIsUnmanaged(f: string)
    requires f == "-args" || f == "--args" || f == "--"
    ensures !Managed(f, "") && !Managed(f, "test.")
  {
    FlagNameMeans(f);
    BoundaryNames(f);
  }

  lemma BoundaryNames(f: string)
    requires f == "-args" || f == "--args" || f == "--"
    ensures FlagName(f) !in MANAGED && (f == "--" ==> Spelled(f) == "") && !HasPrefix(Spelled(f), "test.")
  {
    if f == "--" {
      assert TrimLeft("--", '-') == TrimLeft("--"[1..], '-') == TrimLeft("--"[1..][1..], '-') == "";
    } else if f == "-args" {
      assert "-args"[1..] == "args" && TrimLeft("-args", '-') == "args";
      NoEquals("args");
    } else {
      assert "--args"[1..][1..] == "args" && TrimLeft("--args", '-') == TrimLeft("--args"[1..], '-') == "args";
      NoEquals("args");
    }
  }

  lemma NoEquals(s: string)
    requires '=' !in s
    ensures CutBefore(s, '=') == s
  {
    assert IndexOf(s, '=') == |s|;
  }

  /** The guard rejects exactly the fields among which one offends. */
  method CheckTestFlags(flags: seq<string>) returns (ok: bool)
    ensures ok == Accepts(flags, 0, false)
    ensures ok <==> forall i | 0 <= i < |flags| :: !Offends(flags, i)
  {
    AcceptsFrom(flags, 0, false);
    var afterArgs := false;
    for i := 0 to |flags|
      invariant Accepts(flags, 0, false) == Accepts(flags, i, afterArgs)
    {
      var f := flags[i];
      if IsFlagBoundary(f) && !BoundaryConsumed(flags, i) {
        if f == "--" {
          return true;
        }
        afterArgs := true;
        continue;
      }
      if afterArgs {
        if !HasPrefix(Spelled(f), "test.") {
          continue;
        }
      }
      if FlagName(f) in MANAGED {
        return false;
      }
    }
    ok := true;
  }

  /** In front of every boundary no spelling of a managed flag passes, whatever stands around it. */
  lemma ManagedIsRejected(flags: seq<string>, i: nat, pre: string, name: string, rest: string)
    requires i < |flags| && flags[i] == pre + (name + rest) && (rest == "" || rest[0] == '=')
    requires pre == "-" || pre == "--" || pre == "-test." || pre == "--test."
    requires name == "overlay" || name == "run" || name == "coverprofile" || name == "coverpkg"
      || name == "c" || name == "o" || name == "exec" || name == "timeout"
    requires forall j | 0 <= j < i :: flags[j] != "-args" && flags[j] != "--args" && flags[j] != "--"
    ensures !Accepts(flags, 0, false)
  {
    PrefixSpells(flags[i], pre, name, rest);
    AcceptsFrom(flags, 0, false);
    assert Offends(flags, i);
  }

  /** Nor does one with `test.` in front of a `--`, unless a flag may take that `--`. */
  lemma ManagedIsRejectedBehindArgs(flags: seq<string>, i: nat, pre: string, name: string, rest: string)
    requires i < |flags| && flags[i] == pre + (name + rest) && (rest == "" || rest[0] == '=')
    requires pre == "-test." || pre == "--test."
    requires name == "overlay" || name == "run" || name == "coverprofile" || name == "coverpkg"
      || name == "c" || name == "o" || name == "exec" || name == "timeout"
    requires forall j | 0 <= j < i && flags[j] == "--" :: j > 0 && flags[j - 1] != "" && flags[j - 1][0] == '-' && '=' !in flags[j - 1]
    ensures !Accepts(flags, 0, false)
  {
    PrefixSpells(flags[i], pre, name, rest);
    AcceptsFrom(flags, 0, false);
    assert Offends(flags, i);
  }

  lemma PrefixSpells(f: string, pre: string, name: string, rest: string)
    requires f == pre + (name + rest) && (rest == "" || rest[0] == '=')
    requires pre == "-" || pre == "--" || pre == "-test." || pre == "--test."
    requires name == "overlay" || name == "run" || name == "coverprofile" || name == "coverpkg"
      || name == "c" || name == "o" || name == "exec" || name == "timeout"
    ensures pre == "-test." || pre == "--test." ==> Managed(f, "test.")
    ensures pre == "-" || pre == "--" ==> Managed(f, "")
  {
    var dashes := if pre == "-" || pre == "-test." then "-" else "--";
    var test := if pre == "-" || pre == "--" then "" else "test.";
    assert pre == dashes + test;
    Associate(dashes, test, name + rest);
    assert Spells(f, dashes, test, name, rest);
  }

  lemma Associate(a: string, b: string, c: string)
    ensures (a + b) + c == a + (b + c)
  {
  }

  // ----- what the go command and the test binary make of the fields -----

  datatype Parser = GoCommand | TestBinary

  /** What the go command does with a flag: takes it for itself, with the next field as its value or without, or hands it on. */
  datatype Reading = Takes | TakesNext | Forwards

  /**
   What no one can know beforehand: which flags the go command knows, and which flags of either parser take the next
   field. Either goes by a flag's name. A flag the go command knows and passes on under another name carries its value
   inline then, and is as good as taken.
   */
  datatype Choice = Choice(treats: string -> Reading, swallows: string -> bool) {
    /** What the go command does with a flag in field `f`. */
    function Go(f: string): Reading {
      treats(Spelled(f))
    }

    /** Whether the test binary takes the next field as the value of the flag in field `f`. */
    predicate Eats(f: string) {
      MayConsume(f) && swallows(Spelled(f))
    }
  }

  predicate IsPositional(f: string) {
    !HasPrefix(f, "-") || f == "-"
  }

  /** A field the parser reads as a flag when it comes to it. To the test binary a second `-args` is one too. */
  predicate IsFlagFor(p: Parser, f: string) {
    !IsPositional(f) && f != "--" && (p == GoCommand ==> !IsFlagBoundary(f))
  }

  /** In front of every flag: there the go command takes a field for a package. */
  predicate Leading(flags: seq<string>, i: nat) {
    i < |flags| && forall m | 0 <= m <= i :: IsPositional(flags[m])
  }

  function From(flags: seq<string>, i: nat): (r: seq<nat>)
    decreases |flags| - i
  {
    if i >= |flags| then [] else [i] + From(flags, i + 1)
  }

  /** A flag the go command does not know, and the field behind it, which may be its value. */
  predicate WithValue(flags: seq<string>, i: nat) {
    i + 1 < |flags| && MayConsume(flags[i]) && IsPositional(flags[i + 1])
  }

  /**
   The fields the go command hands to the test binary, of those from `i` on. `-args` goes, `--` stays, and either hands
   over all the rest; so does a field that is neither a flag, nor a value, nor a package.
   */
  function Handed(flags: seq<string>, ch: Choice, i: nat): seq<nat>
    decreases |flags| - i
  {
    if i >= |flags| then []
    else if flags[i] == "--" then From(flags, i)
    else if IsFlagBoundary(flags[i]) then From(flags, i + 1)
    else if IsPositional(flags[i]) then if Leading(flags, i) then Handed(flags, ch, i + 1) else From(flags, i)
    else
      match ch.Go(flags[i])
      case Takes => Handed(flags, ch, i + 1)
      case TakesNext => Handed(flags, ch, if MayConsume(flags[i]) then i + 2 else i + 1)
      case Forwards => if WithValue(flags, i) then [i, i + 1] + Handed(flags, ch, i + 2) else [i] + Handed(flags, ch, i + 1)
  }

  /** Whether the go command, reading from field `i`, takes the flag in field `n`. */
  predicate GoTakes(flags: seq<string>, ch: Choice, i: nat, n: nat)
    decreases |flags| - i
  {
    if i >= |flags| || IsFlagBoundary(flags[i]) then false
    else if IsPositional(flags[i]) then Leading(flags, i) && GoTakes(flags, ch, i + 1, n)
    else
      match ch.Go(flags[i])
      case Takes => i == n || GoTakes(flags, ch, i + 1, n)
      case TakesNext => i == n || GoTakes(flags, ch, if MayConsume(flags[i]) then i + 2 else i + 1, n)
      case Forwards => GoTakes(flags, ch, if WithValue(flags, i) then i + 2 else i + 1, n)
  }

  /** Whether the test binary, reading `argv`, acts on the flag in field `n`; `skip` when the flag before takes its first field. */
  predicate BinaryReads(flags: seq<string>, ch: Choice, argv: seq<nat>, skip: bool, n: nat) {
    if argv == [] || argv[0] >= |flags| then false
    else if skip then BinaryReads(flags, ch, argv[1..], false, n)
    else
      var f := flags[argv[0]];
      IsFlagFor(TestBinary, f)
      && (argv[0] == n || BinaryReads(flags, ch, argv[1..], ch.Eats(f), n))
  }

  predicate InEffect(flags: seq<string>, ch: Choice, n: nat, p: Parser) {
    if p == GoCommand then GoTakes(flags, ch, 0, n) else BinaryReads(flags, ch, Handed(flags, ch, 0), false, n)
  }

  /** The go command knows its flags with and without `test.`, the test binary only with it. */
  ghost predicate Overrides(f: string, p: Parser) {
    Managed(f, "test.") || (p == GoCommand && Managed(f, ""))
  }

  /** Some reading of the fields puts a managed flag into effect. */
  ghost predicate CanOverride(flags: seq<string>) {
    exists ch: Choice, n: nat, p: Parser :: n < |flags| && InEffect(flags, ch, n, p) && Overrides(flags[n], p)
  }

  // ----- the way behind an accepted `--` -----

  /** Whether the go command, reading from field `i`, hands on the flag in field `n` without the field behind it. */
  predicate GoHands(flags: seq<string>, ch: Choice, i: nat, n: nat)
    decreases |flags| - i
  {
    if i >= |flags| || IsFlagBoundary(flags[i]) then false
    else if IsPositional(flags[i]) then Leading(flags, i) && GoHands(flags, ch, i + 1, n)
    else
      match ch.Go(flags[i])
      case Takes => GoHands(flags, ch, i + 1, n)
      case TakesNext => GoHands(flags, ch, if MayConsume(flags[i]) then i + 2 else i + 1, n)
      case Forwards => if WithValue(flags, i) then GoHands(flags, ch, i + 2, n) else i == n || GoHands(flags, ch, i + 1, n)
  }

  /** The go command takes every flag from field `i` to field `k`, some with the field behind as their value. */
  predicate AllTaken(flags: seq<string>, ch: Choice, i: nat, k: nat)
    decreases k - i
  {
    i == k || (i < k <= |flags| && IsFlagFor(GoCommand, flags[i])
      && match ch.Go(flags[i])
         case Takes => AllTaken(flags, ch, i + 1, k)
         case TakesNext => AllTaken(flags, ch, if MayConsume(flags[i]) then i + 2 else i + 1, k)
         case Forwards => false)
  }

  /**
   A way behind an accepted `--`, at `k`: the go command hands on a flag without a value, at `j`, and takes all between the
   two; the test binary comes to that flag and takes the `--` for its value; and reading on it comes to the flag at `n`.
   */
  predicate Way(flags: seq<string>, ch: Choice, j: nat, k: nat, n: nat) {
    && j < k < n < |flags|
    && GoHands(flags, ch, 0, j) && BinaryReads(flags, ch, Handed(flags, ch, 0), false, j) && ch.Eats(flags[j])
    && AllTaken(flags, ch, j + 1, k)
    && flags[k] == "--" && !BoundaryConsumed(flags, k)
    && BinaryReads(flags, ch, From(flags, k + 1), false, n)
  }

  ghost predicate HasWay(flags: seq<string>, ch: Choice, n: nat) {
    exists j, k :: Way(flags, ch, j, k, n)
  }

  /** The gap: for some flags known and some taking values there is a way to a managed flag. */
  ghost predicate HasGap(flags: seq<string>) {
    exists ch: Choice, n: nat :: n < |flags| && HasWay(flags, ch, n) && Overrides(flags[n], TestBinary)
  }

  // ----- without a gap no accepted field overrides -----

  lemma BoundariesAreUnmanaged(f: string)
    requires IsFlagBoundary(f) || IsPositional(f)
    ensures FlagName(f) !in MANAGED
    ensures f == "--" ==> Spelled(f) == ""
    ensures !Overrides(f, GoCommand) && !Overrides(f, TestBinary)
  {
    FlagNameMeans(f);
    if IsFlagBoundary(f) {
      BoundaryNames(f);
    } else if f == "-" {
      assert TrimLeft("-", '-') == TrimLeft("-"[1..], '-') == "";
    }
  }

  /** What the guard has let pass at `i` overrides nothing where it may be read. */
  lemma PassedIsHarmless(flags: seq<string>, i: nat, after: bool)
    requires i < |flags| && Accepts(flags, i, after)
    requires !(flags[i] == "--" && !BoundaryConsumed(flags, i))
    ensures !Overrides(flags[i], TestBinary) && (!after ==> !Overrides(flags[i], GoCommand))
    ensures Accepts(flags, i + 1, after || (IsFlagBoundary(flags[i]) && !BoundaryConsumed(flags, i)))
  {
    FlagNameMeans(flags[i]);
    if IsFlagBoundary(flags[i]) || IsPositional(flags[i]) { BoundariesAreUnmanaged(flags[i]); }
  }

  /** What passing field `i` means for field `n`: the guard ends there, or `n` is not `i` and the guard goes on. */
  ghost predicate Passes(flags: seq<string>, ok: (nat, bool) -> bool, n: nat, i: nat, after: bool)
    requires i < |flags|
  {
    ok(i, after) ==>
      || (flags[i] == "--" && !BoundaryConsumed(flags, i))
      || (i != n && ok(i + 1, after || (IsFlagBoundary(flags[i]) && !BoundaryConsumed(flags, i))))
  }

  /** `ok` is a check like the guard's, by which field `n` does not pass. */
  ghost predicate Guarded(flags: seq<string>, ok: (nat, bool) -> bool, n: nat) {
    forall i: nat, after: bool | i < |flags| :: Passes(flags, ok, n, i, after)
  }

  function Guard(flags: seq<string>): (nat, bool) -> bool {
    (i: nat, after: bool) => i <= |flags| && Accepts(flags, i, after)
  }

  lemma GuardGuards(flags: seq<string>, n: nat)
    requires n < |flags| && Overrides(flags[n], TestBinary)
    ensures Guarded(flags, Guard(flags), n)
  {
    forall i: nat, after: bool | i < |flags| ensures Passes(flags, Guard(flags), n, i, after) {
      if Accepts(flags, i, after) && !(flags[i] == "--" && !BoundaryConsumed(flags, i)) { PassedIsHarmless(flags, i, after); }
    }
  }

  /** Fields that reach the test binary as they stand: the guard has checked them, and a `--` it trusts is read as one. */
  lemma {:induction false} VerbatimIsHarmless(flags: seq<string>, ok: (nat, bool) -> bool, ch: Choice, i: nat, after: bool, skip: bool, n: nat)
    requires i <= |flags| && Guarded(flags, ok, n) && ok(i, after)
    requires skip && i < |flags| && flags[i] == "--" ==> BoundaryConsumed(flags, i)
    ensures !BinaryReads(flags, ch, From(flags, i), skip, n)
    decreases |flags| - i
  {
    if i < |flags| {
      var after' := after || (IsFlagBoundary(flags[i]) && !BoundaryConsumed(flags, i));
      assert Passes(flags, ok, n, i, after);
      assert From(flags, i)[1..] == From(flags, i + 1);
      if flags[i] != "--" || BoundaryConsumed(flags, i) {
        VerbatimIsHarmless(flags, ok, ch, i + 1, after', !skip && ch.Eats(flags[i]), n);
      }
    }
  }

  /** The go command takes no managed flag: it reads only what the guard checks in full. */
  lemma {:induction false} TakenIsHarmless(flags: seq<string>, ch: Choice, i: nat, n: nat)
    requires i <= |flags| && Accepts(flags, i, false) && GoTakes(flags, ch, i, n)
    ensures n < |flags| && !Overrides(flags[n], GoCommand)
    decreases |flags| - i
  {
    PassedIsHarmless(flags, i, false);
    if !(i == n && !IsPositional(flags[i]) && ch.Go(flags[i]) != Forwards) {
      if !IsPositional(flags[i]) && MayConsume(flags[i]) && i + 1 < |flags| && GoTakes(flags, ch, i + 2, n) {
        PassedValue(flags, i);
        TakenIsHarmless(flags, ch, i + 2, n);
      } else {
        TakenIsHarmless(flags, ch, i + 1, n);
      }
    }
  }

  /** Behind a flag without a value the guard takes nothing for a boundary. */
  lemma PassedValue(flags: seq<string>, i: nat)
    requires i + 1 < |flags| && Accepts(flags, i, false) && IsFlagFor(GoCommand, flags[i]) && MayConsume(flags[i])
    ensures Accepts(flags, i + 1, false) && BoundaryConsumed(flags, i + 1) && Accepts(flags, i + 2, false)
  {
    PassedIsHarmless(flags, i, false);
    PassedIsHarmless(flags, i + 1, false);
  }

  lemma SkipsOne(flags: seq<string>, ch: Choice, i: nat, n: nat)
    requires i < |flags|
    ensures BinaryReads(flags, ch, From(flags, i), true, n) <==> BinaryReads(flags, ch, From(flags, i + 1), false, n)
  {
    assert From(flags, i)[1..] == From(flags, i + 1);
  }

  /** Handing one field on: the binary skips it, or reads it, and goes on. */
  lemma ReadsOne(flags: seq<string>, ch: Choice, i: nat, argv: seq<nat>, skip: bool, n: nat)
    requires i < |flags|
    ensures skip ==> (BinaryReads(flags, ch, [i] + argv, skip, n) <==> BinaryReads(flags, ch, argv, false, n))
    ensures !skip ==> (BinaryReads(flags, ch, [i] + argv, skip, n) <==>
      IsFlagFor(TestBinary, flags[i]) && (i == n || BinaryReads(flags, ch, argv, ch.Eats(flags[i]), n)))
  {
    assert ([i] + argv)[1..] == argv;
  }

  lemma {:induction false} ReadsFlag(flags: seq<string>, ch: Choice, argv: seq<nat>, skip: bool, n: nat)
    requires BinaryReads(flags, ch, argv, skip, n)
    ensures n in argv && n < |flags| && IsFlagFor(TestBinary, flags[n])
  {
    if skip {
      ReadsFlag(flags, ch, argv[1..], false, n);
    } else if argv[0] != n {
      ReadsFlag(flags, ch, argv[1..], ch.Eats(flags[argv[0]]), n);
    }
  }

  lemma {:induction false} FromIsAhead(flags: seq<string>, i: nat)
    ensures forall x | x in From(flags, i) :: i <= x
    decreases |flags| - i
  {
    if i < |flags| { FromIsAhead(flags, i + 1); }
  }

  lemma {:induction false} HandedIsAhead(flags: seq<string>, ch: Choice, i: nat)
    ensures forall x | x in Handed(flags, ch, i) :: i <= x
    decreases |flags| - i
  {
    FromIsAhead(flags, i);
    if i < |flags| {
      HandedIsAhead(flags, ch, i + 1);
      HandedIsAhead(flags, ch, i + 2);
      FromIsAhead(flags, i + 1);
    }
  }

  /** The test binary has come to the flag at `j` and waits for its value; the go command, now at `i`, has taken all between. */
  ghost predicate Waiting(flags: seq<string>, ch: Choice, j: nat, i: nat) {
    && j < i <= |flags| && IsFlagFor(TestBinary, flags[j]) && ch.Eats(flags[j])
    && GoHands(flags, ch, 0, j) && BinaryReads(flags, ch, Handed(flags, ch, 0), false, j)
    && forall k | i <= k :: AllTaken(flags, ch, i, k) ==> AllTaken(flags, ch, j + 1, k)
  }

  /** What either parser comes to from field `i` on it comes to from the beginning. */
  ghost predicate Continues(flags: seq<string>, ch: Choice, i: nat, skip: bool) {
    && (forall x :: GoHands(flags, ch, i, x) ==> GoHands(flags, ch, 0, x))
    && (forall x | i <= x :: BinaryReads(flags, ch, Handed(flags, ch, i), skip, x) ==> BinaryReads(flags, ch, Handed(flags, ch, 0), false, x))
  }

  /** Where the go command stands: at field `i`, everything in front read, the test binary waiting for a value or not. */
  ghost predicate Standing(flags: seq<string>, ok: (nat, bool) -> bool, ch: Choice, i: nat, skip: bool, j: nat, n: nat) {
    && i <= |flags| && Guarded(flags, ok, n) && ok(i, false)
    && Continues(flags, ch, i, skip) && (skip ==> Waiting(flags, ch, j, i))
  }

  /** The guard has passed a flag, and may have passed its value. */
  lemma PassesFlag(flags: seq<string>, ok: (nat, bool) -> bool, i: nat, n: nat)
    requires i < |flags| && Guarded(flags, ok, n) && ok(i, false) && IsFlagFor(GoCommand, flags[i])
    ensures i != n && ok(i + 1, false)
    ensures MayConsume(flags[i]) && i + 1 < |flags| ==> i + 1 != n && ok(i + 2, false)
  {
    assert Passes(flags, ok, n, i, false);
    assert i + 1 < |flags| ==> Passes(flags, ok, n, i + 1, false);
  }

  /** Where the go command goes on reading from behind a flag it takes. */
  function Behind(flags: seq<string>, ch: Choice, i: nat): nat
    requires i < |flags|
  {
    if ch.Go(flags[i]) == TakesNext && MayConsume(flags[i]) then i + 2 else i + 1
  }

  lemma TakenOn(flags: seq<string>, ch: Choice, i: nat, skip: bool, j: nat)
    requires i < |flags| && IsFlagFor(GoCommand, flags[i]) && ch.Go(flags[i]) != Forwards && Behind(flags, ch, i) <= |flags|
    requires Continues(flags, ch, i, skip) && (skip ==> Waiting(flags, ch, j, i))
    ensures Handed(flags, ch, i) == Handed(flags, ch, Behind(flags, ch, i))
    ensures Continues(flags, ch, Behind(flags, ch, i), skip) && (skip ==> Waiting(flags, ch, j, Behind(flags, ch, i)))
  {
    var i' := Behind(flags, ch, i);
    if skip {
      forall k | i' <= k && AllTaken(flags, ch, i', k) ensures AllTaken(flags, ch, j + 1, k) {
        assert AllTaken(flags, ch, i, k);
      }
    }
    forall x | GoHands(flags, ch, i', x) ensures GoHands(flags, ch, 0, x) {
      assert GoHands(flags, ch, i, x);
    }
  }

  /** From field `i` on, read by the go command, field `n` reaches the test binary only behind a `--`. */
  lemma {:induction false} OnlyThroughGap(flags: seq<string>, ok: (nat, bool) -> bool, ch: Choice, i: nat, skip: bool, j: nat, n: nat)
    requires Standing(flags, ok, ch, i, skip, j, n) && BinaryReads(flags, ch, Handed(flags, ch, i), skip, n)
    ensures HasWay(flags, ch, n)
    decreases |flags| - i, 1
  {
    if IsFlagBoundary(flags[i]) {
      ThroughBoundary(flags, ok, ch, i, skip, j, n);
    } else if IsPositional(flags[i]) {
      ThroughPositional(flags, ok, ch, i, skip, j, n);
    } else if ch.Go(flags[i]).Forwards? {
      ThroughForwarded(flags, ok, ch, i, skip, j, n);
    } else {
      PassesFlag(flags, ok, i, n);
      assert Handed(flags, ch, i) == Handed(flags, ch, Behind(flags, ch, i));
      TakenOn(flags, ch, i, skip, j);
      OnlyThroughGap(flags, ok, ch, Behind(flags, ch, i), skip, j, n);
    }
  }

  lemma ThroughPositional(flags: seq<string>, ok: (nat, bool) -> bool, ch: Choice, i: nat, skip: bool, j: nat, n: nat)
    requires Standing(flags, ok, ch, i, skip, j, n) && BinaryReads(flags, ch, Handed(flags, ch, i), skip, n)
    requires i < |flags| && IsPositional(flags[i])
    ensures HasWay(flags, ch, n)
    decreases |flags| - i, 0
  {
    assert Passes(flags, ok, n, i, false);
    if Leading(flags, i) {
      assert forall x | GoHands(flags, ch, i + 1, x) :: GoHands(flags, ch, i, x);
      OnlyThroughGap(flags, ok, ch, i + 1, false, 0, n);
    } else {
      VerbatimIsHarmless(flags, ok, ch, i, false, skip, n);
    }
  }

  lemma ThroughForwarded(flags: seq<string>, ok: (nat, bool) -> bool, ch: Choice, i: nat, skip: bool, j: nat, n: nat)
    requires Standing(flags, ok, ch, i, skip, j, n) && BinaryReads(flags, ch, Handed(flags, ch, i), skip, n)
    requires i < |flags| && IsFlagFor(GoCommand, flags[i]) && ch.Go(flags[i]).Forwards?
    ensures HasWay(flags, ch, n)
    decreases |flags| - i, 0
  {
    PassesFlag(flags, ok, i, n);
    if WithValue(flags, i) {
      ValueOn(flags, ch, i, skip, n);
      assert Standing(flags, ok, ch, i + 2, false, 0, n);
      OnlyThroughGap(flags, ok, ch, i + 2, false, 0, n);
    } else {
      HandedOn(flags, ch, i, skip, n);
      assert Standing(flags, ok, ch, i + 1, !skip && ch.Eats(flags[i]), i, n);
      OnlyThroughGap(flags, ok, ch, i + 1, !skip && ch.Eats(flags[i]), i, n);
    }
  }

  lemma PairIsHanded(flags: seq<string>, ch: Choice, i: nat)
    requires i < |flags| && IsFlagFor(GoCommand, flags[i]) && ch.Go(flags[i]).Forwards? && WithValue(flags, i)
    ensures Handed(flags, ch, i) == [i] + ([i + 1] + Handed(flags, ch, i + 2))
  {
    var rest := Handed(flags, ch, i + 2);
    assert [i, i + 1] + rest == [i] + ([i + 1] + rest);
  }

  /** A flag handed on with its value: the binary stops at the value, or reads it as one. */
  lemma ValueOn(flags: seq<string>, ch: Choice, i: nat, skip: bool, n: nat)
    requires i < |flags| && IsFlagFor(GoCommand, flags[i]) && ch.Go(flags[i]).Forwards? && WithValue(flags, i) && i != n
    requires Continues(flags, ch, i, skip) && BinaryReads(flags, ch, Handed(flags, ch, i), skip, n)
    ensures BinaryReads(flags, ch, Handed(flags, ch, i + 2), false, n) && Continues(flags, ch, i + 2, false)
  {
    var rest := Handed(flags, ch, i + 2);
    PairIsHanded(flags, ch, i);
    ReadsOne(flags, ch, i, [i + 1] + rest, skip, n);
    ReadsOne(flags, ch, i + 1, rest, !skip && ch.Eats(flags[i]), n);
    forall x | i + 2 <= x && BinaryReads(flags, ch, rest, false, x) ensures BinaryReads(flags, ch, Handed(flags, ch, 0), false, x) {
      ReadsOne(flags, ch, i, [i + 1] + rest, skip, x);
      ReadsOne(flags, ch, i + 1, rest, true, x);
      assert BinaryReads(flags, ch, Handed(flags, ch, i), skip, x);
    }
    forall x | GoHands(flags, ch, i + 2, x) ensures GoHands(flags, ch, 0, x) {
      assert GoHands(flags, ch, i, x);
    }
  }

  /** A flag handed on alone: the binary takes it for a value, or comes to it, and may wait for the next field. */
  lemma HandedOn(flags: seq<string>, ch: Choice, i: nat, skip: bool, n: nat)
    requires i < |flags| && IsFlagFor(GoCommand, flags[i]) && ch.Go(flags[i]).Forwards? && !WithValue(flags, i)
    requires Continues(flags, ch, i, skip) && BinaryReads(flags, ch, Handed(flags, ch, i), skip, n) && i != n
    ensures Continues(flags, ch, i + 1, !skip && ch.Eats(flags[i]))
    ensures BinaryReads(flags, ch, Handed(flags, ch, i + 1), !skip && ch.Eats(flags[i]), n)
    ensures !skip && ch.Eats(flags[i]) ==> Waiting(flags, ch, i, i + 1)
  {
    var rest, skip' := Handed(flags, ch, i + 1), !skip && ch.Eats(flags[i]);
    assert Handed(flags, ch, i) == [i] + rest;
    ReadsOne(flags, ch, i, rest, skip, i);
    ReadsOne(flags, ch, i, rest, skip, n);
    assert GoHands(flags, ch, i, i);
    assert !skip ==> BinaryReads(flags, ch, Handed(flags, ch, i), skip, i);
    forall x | i + 1 <= x && BinaryReads(flags, ch, rest, skip', x) ensures BinaryReads(flags, ch, Handed(flags, ch, 0), false, x) {
      ReadsOne(flags, ch, i, rest, skip, x);
      assert BinaryReads(flags, ch, Handed(flags, ch, i), skip, x);
    }
    forall x | GoHands(flags, ch, i + 1, x) ensures GoHands(flags, ch, 0, x) {
      assert GoHands(flags, ch, i, x);
    }
  }

  lemma ThroughBoundary(flags: seq<string>, ok: (nat, bool) -> bool, ch: Choice, i: nat, skip: bool, j: nat, n: nat)
    requires Standing(flags, ok, ch, i, skip, j, n) && BinaryReads(flags, ch, Handed(flags, ch, i), skip, n)
    requires i < |flags| && IsFlagBoundary(flags[i])
    ensures HasWay(flags, ch, n)
  {
    if flags[i] != "--" {
      assert Passes(flags, ok, n, i, false);
      VerbatimIsHarmless(flags, ok, ch, i + 1, !BoundaryConsumed(flags, i), skip, n);
    } else if BoundaryConsumed(flags, i) {
      VerbatimIsHarmless(flags, ok, ch, i, false, skip, n);
    } else {
      ThroughTerminator(flags, ch, i, skip, j, n);
    }
  }

  lemma ReadsAhead(flags: seq<string>, ch: Choice, i: nat, n: nat)
    requires BinaryReads(flags, ch, From(flags, i), false, n)
    ensures i <= n < |flags|
  {
    ReadsFlag(flags, ch, From(flags, i), false, n);
    FromIsAhead(flags, i);
  }

  lemma ThroughTerminator(flags: seq<string>, ch: Choice, i: nat, skip: bool, j: nat, n: nat)
    requires i < |flags| && flags[i] == "--" && !BoundaryConsumed(flags, i)
    requires skip ==> Waiting(flags, ch, j, i)
    requires BinaryReads(flags, ch, From(flags, i), skip, n)
    ensures HasWay(flags, ch, n)
  {
    assert From(flags, i)[0] == i;
    SkipsOne(flags, ch, i, n);
    ReadsAhead(flags, ch, i + 1, n);
    assert AllTaken(flags, ch, i, i);
    assert Way(flags, ch, j, i, n);
  }

  // ----- through the gap one does -----

  lemma {:induction false} TakenHandsNothing(flags: seq<string>, ch: Choice, i: nat, k: nat)
    requires i <= k && AllTaken(flags, ch, i, k)
    ensures Handed(flags, ch, i) == Handed(flags, ch, k)
    decreases k - i
  {
    if i < k { TakenHandsNothing(flags, ch, Behind(flags, ch, i), k); }
  }

  /** What the test binary reads once it has come to a flag the go command hands on, it reads. */
  lemma {:induction false} ReadsThrough(flags: seq<string>, ch: Choice, i: nat, skip: bool, j: nat, n: nat)
    requires GoHands(flags, ch, i, j) && BinaryReads(flags, ch, Handed(flags, ch, i), skip, j)
    requires j < n && BinaryReads(flags, ch, Handed(flags, ch, j), false, n)
    ensures BinaryReads(flags, ch, Handed(flags, ch, i), skip, n)
    decreases |flags| - i
  {
    if IsPositional(flags[i]) {
      ReadsThrough(flags, ch, i + 1, skip, j, n);
    } else if ch.Go(flags[i]) != Forwards {
      ReadsThrough(flags, ch, Behind(flags, ch, i), skip, j, n);
    } else if WithValue(flags, i) {
      ReadsThroughValue(flags, ch, i, skip, j, n);
    } else {
      ReadsThroughFlag(flags, ch, i, skip, j, n);
    }
  }

  /** Behind a flag handed on with its value the binary reads only if it reads that as one. */
  lemma PairIsRead(flags: seq<string>, ch: Choice, i: nat, skip: bool, n: nat)
    requires i < |flags| && IsFlagFor(GoCommand, flags[i]) && ch.Go(flags[i]).Forwards? && WithValue(flags, i) && i + 1 < n
    ensures BinaryReads(flags, ch, Handed(flags, ch, i), skip, n) <==>
      !skip && ch.Eats(flags[i]) && BinaryReads(flags, ch, Handed(flags, ch, i + 2), false, n)
  {
    var rest := Handed(flags, ch, i + 2);
    PairIsHanded(flags, ch, i);
    ReadsOne(flags, ch, i, [i + 1] + rest, skip, n);
    ReadsOne(flags, ch, i + 1, rest, !skip && ch.Eats(flags[i]), n);
  }

  lemma ReadsThroughValue(flags: seq<string>, ch: Choice, i: nat, skip: bool, j: nat, n: nat)
    requires GoHands(flags, ch, i, j) && BinaryReads(flags, ch, Handed(flags, ch, i), skip, j)
    requires j < n && BinaryReads(flags, ch, Handed(flags, ch, j), false, n)
    requires IsFlagFor(GoCommand, flags[i]) && ch.Go(flags[i]) == Forwards && WithValue(flags, i)
    ensures BinaryReads(flags, ch, Handed(flags, ch, i), skip, n)
    decreases |flags| - i, 0
  {
    HandsAhead(flags, ch, i + 2, j);
    PairIsRead(flags, ch, i, skip, j);
    ReadsThrough(flags, ch, i + 2, false, j, n);
    PairIsRead(flags, ch, i, skip, n);
  }

  lemma ReadsThroughFlag(flags: seq<string>, ch: Choice, i: nat, skip: bool, j: nat, n: nat)
    requires GoHands(flags, ch, i, j) && BinaryReads(flags, ch, Handed(flags, ch, i), skip, j)
    requires j < n && BinaryReads(flags, ch, Handed(flags, ch, j), false, n)
    requires IsFlagFor(GoCommand, flags[i]) && ch.Go(flags[i]) == Forwards && !WithValue(flags, i)
    ensures BinaryReads(flags, ch, Handed(flags, ch, i), skip, n)
    decreases |flags| - i, 0
  {
    var rest := Handed(flags, ch, i + 1);
    assert Handed(flags, ch, i) == [i] + rest;
    ReadsOne(flags, ch, i, rest, skip, j);
    HandedIsAhead(flags, ch, i + 1);
    if i == j {
      if skip { ReadsFlag(flags, ch, rest, false, j); }
    } else {
      ReadsThrough(flags, ch, i + 1, !skip && ch.Eats(flags[i]), j, n);
      ReadsOne(flags, ch, i, rest, skip, n);
    }
  }

  lemma {:induction false} HandsAhead(flags: seq<string>, ch: Choice, i: nat, n: nat)
    requires GoHands(flags, ch, i, n)
    ensures i <= n < |flags| && IsFlagFor(GoCommand, flags[n]) && ch.Go(flags[n]) == Forwards && !WithValue(flags, n)
    decreases |flags| - i
  {
    if IsPositional(flags[i]) {
      HandsAhead(flags, ch, i + 1, n);
    } else if ch.Go(flags[i]) != Forwards {
      HandsAhead(flags, ch, Behind(flags, ch, i), n);
    } else if WithValue(flags, i) {
      HandsAhead(flags, ch, i + 2, n);
    } else if i != n {
      HandsAhead(flags, ch, i + 1, n);
    }
  }

  lemma WayIsRead(flags: seq<string>, ch: Choice, j: nat, k: nat, n: nat)
    requires Way(flags, ch, j, k, n)
    ensures InEffect(flags, ch, n, TestBinary)
  {
    HandsAhead(flags, ch, 0, j);
    TakenHandsNothing(flags, ch, j + 1, k);
    assert Handed(flags, ch, j) == [j] + From(flags, k);
    SkipsOne(flags, ch, k, n);
    ReadsOne(flags, ch, j, From(flags, k), false, n);
    ReadsThrough(flags, ch, 0, false, j, n);
  }

  /** The guard holds for accepted fields, whatever flags are known and take values, exactly when there is no gap among them. */
  lemma GuardIsSound(flags: seq<string>)
    requires Accepts(flags, 0, false)
    ensures CanOverride(flags) <==> HasGap(flags)
  {
    if HasGap(flags) {
      var ch: Choice, n: nat :| n < |flags| && HasWay(flags, ch, n) && Overrides(flags[n], TestBinary);
      var j, k :| Way(flags, ch, j, k, n);
      WayIsRead(flags, ch, j, k, n);
    }
    if CanOverride(flags) {
      var ch: Choice, n: nat, p: Parser :| n < |flags| && InEffect(flags, ch, n, p) && Overrides(flags[n], p);
      if p == GoCommand {
        TakenIsHarmless(flags, ch, 0, n);
      } else {
        GuardGuards(flags, n);
        OnlyThroughGap(flags, Guard(flags), ch, 0, false, 0, n);
      }
    }
  }

  /** A flag without a value in front of an accepted `--`: what a gap needs, and what can be seen of the fields alone. */
  predicate MayGap(flags: seq<string>) {
    exists j, k | 0 <= j < k < |flags| ::
      IsFlagFor(GoCommand, flags[j]) && MayConsume(flags[j]) && flags[k] == "--" && !BoundaryConsumed(flags, k)
  }

  /** Where there is none, fields the guard accepts are safe. */
  lemma NoBareFlagNoGap(flags: seq<string>)
    requires Accepts(flags, 0, false) && !MayGap(flags)
    ensures !CanOverride(flags)
  {
    GuardIsSound(flags);
    if HasGap(flags) {
      var ch: Choice, n: nat :| n < |flags| && HasWay(flags, ch, n) && Overrides(flags[n], TestBinary);
      var j, k :| Way(flags, ch, j, k, n);
      HandsAhead(flags, ch, 0, j);
    }
  }

  /** Fields with a gap: a flag the go command hands on, another it takes, the `--`, and behind it a managed flag. */
  lemma GuardHasGap(x: string, taken: string, managed: string)
    requires IsFlagFor(GoCommand, x) && MayConsume(x) && FlagName(x) !in MANAGED
    requires IsFlagFor(GoCommand, taken) && !MayConsume(taken) && FlagName(taken) !in MANAGED && Spelled(taken) != Spelled(x)
    requires IsFlagFor(TestBinary, managed) && Overrides(managed, TestBinary)
    ensures Accepts([x, taken, "--", managed], 0, false) && CanOverride([x, taken, "--", managed])
  {
    var flags := [x, taken, "--", managed];
    var ch := Choice((s: string) => if s == Spelled(x) then Forwards else Takes, (s: string) => true);
    assert Accepts(flags, 2, false) && Accepts(flags, 1, false);
    assert Handed(flags, ch, 0) == [0] + Handed(flags, ch, 1);
    ReadsOne(flags, ch, 0, Handed(flags, ch, 1), false, 0);
    assert AllTaken(flags, ch, 2, 2) && AllTaken(flags, ch, 1, 2);
    assert From(flags, 3)[0] == 3;
    assert Way(flags, ch, 0, 2, 3);
    WayIsRead(flags, ch, 0, 2, 3);
  }

  /** No such fields: of two flags of one name the go command cannot hand on one and take the other. */
  lemma OneNameHasNoGap(x: string, again: string, managed: string)
    requires IsFlagFor(GoCommand, x) && MayConsume(x) && FlagName(x) !in MANAGED
    requires IsFlagFor(GoCommand, again) && !MayConsume(again) && Spelled(again) == Spelled(x)
    requires managed != "--"
    ensures Accepts([x, again, "--", managed], 0, false) && !CanOverride([x, again, "--", managed])
  {
    var flags := [x, again, "--", managed];
    assert Accepts(flags, 2, false) && Accepts(flags, 1, false);
    GuardIsSound(flags);
    forall ch, j, k, n ensures !Way(flags, ch, j, k, n) {
      if GoHands(flags, ch, 0, j) { HandsAhead(flags, ch, 0, j); }
      assert AllTaken(flags, ch, 1, 2) ==> ch.Go(again) != Forwards;
    }
  }

  /** `-foo -tags=x -- -test.run=X` is accepted, and where `-foo` takes a value `-test.run` counts. */
  lemma GuardIsUnsound()
    ensures var flags := ["-foo", "-tags=x", "--", "-test.run=X"]; Accepts(flags, 0, false) && CanOverride(flags)
  {
    TestRunOverrides();
    FooMayBeHandedOn();
    TagsMayBeTaken();
    GuardHasGap("-foo", "-tags=x", "-test.run=X");
  }

  lemma FooMayBeHandedOn()
    ensures IsFlagFor(GoCommand, "-foo") && MayConsume("-foo") && FlagName("-foo") !in MANAGED && Spelled("-foo")[0] == 'f'
  {
    var f, bare := "-foo", "foo";
    assert f[1..] == bare && TrimLeft(f, '-') == bare;
    NoEquals(bare);
    assert bare[0] == 'f' && !HasPrefix(bare, "test.");
    assert f[1] == 'f';
  }

  lemma TagsMayBeTaken()
    ensures IsFlagFor(GoCommand, "-tags=x") && !MayConsume("-tags=x") && FlagName("-tags=x") !in MANAGED && Spelled("-tags=x")[0] == 't'
  {
    var f, bare := "-tags=x", "tags=x";
    assert f[1..] == bare && TrimLeft(f, '-') == bare;
    assert IndexOf(bare, '=') == 4 by {
      assert bare[4] == '=' && '=' !in bare[..4];
    }
    var name := bare[..4];
    assert name == "tags" && name[1] == 'a' && !HasPrefix(name, "test.");
    assert f[5] == '=' && f[1] == 't';
  }

  // ----- how strict it is -----

  /**
   No boundary directly behind another, no lone dash, and every field that is no flag is a package in front of all flags
   or directly behind a flag without a value; and flags of one name without a value are followed alike.
   */
  predicate Regular(flags: seq<string>) {
    && (forall i | 0 <= i < |flags| :: flags[i] != "-")
    && (forall i | 0 <= i < |flags| - 1 :: !(IsFlagBoundary(flags[i]) && IsFlagBoundary(flags[i + 1])))
    && (forall i | 0 <= i < |flags| && IsPositional(flags[i]) ::
          Leading(flags, i) || (MayConsume(flags[i - 1]) && !IsFlagBoundary(flags[i - 1])))
    && (forall i, k | 0 <= i < |flags| && 0 <= k < |flags| && Spelled(flags[i]) == Spelled(flags[k]) && MayConsume(flags[i]) && MayConsume(flags[k]) ::
          Wanted(flags, i + 1) == Wanted(flags, k + 1))
  }

  /** A field only a flag's value can be, if the fields are to be read on behind it. */
  predicate Wanted(flags: seq<string>, i: nat) {
    0 < i < |flags| && MayConsume(flags[i - 1]) && !IsFlagBoundary(flags[i - 1]) && (IsFlagBoundary(flags[i]) || IsPositional(flags[i]))
  }

  /** A flag of this name must take the field behind it, for the reading to get on. */
  predicate Hungry(flags: seq<string>, name: string) {
    exists i | 0 <= i < |flags| :: Spelled(flags[i]) == name && MayConsume(flags[i]) && Wanted(flags, i + 1)
  }

  /** The reading that gets on where it can. */
  function Evading(flags: seq<string>): Choice {
    Choice((name: string) => if Hungry(flags, name) then TakesNext else Takes, (name: string) => Hungry(flags, name))
  }

  lemma EvadingAt(flags: seq<string>, i: nat)
    requires Regular(flags) && i < |flags|
    ensures Evading(flags).Eats(flags[i]) <==> Wanted(flags, i + 1)
    ensures Evading(flags).Go(flags[i]) != Forwards
    ensures MayConsume(flags[i]) ==> Evading(flags).Go(flags[i]) == if Wanted(flags, i + 1) then TakesNext else Takes
  {
  }

  lemma ReadsOn(flags: seq<string>, ch: Choice, i: nat, n: nat)
    requires i < |flags| && IsFlagFor(TestBinary, flags[i])
    requires BinaryReads(flags, ch, From(flags, i + 1), ch.Eats(flags[i]), n)
    ensures BinaryReads(flags, ch, From(flags, i), false, n)
  {
    assert From(flags, i)[1..] == From(flags, i + 1);
  }

  lemma ReadsPastValue(flags: seq<string>, ch: Choice, i: nat, n: nat)
    requires i + 1 < |flags| && IsFlagFor(TestBinary, flags[i]) && ch.Eats(flags[i])
    requires BinaryReads(flags, ch, From(flags, i + 2), false, n)
    ensures BinaryReads(flags, ch, From(flags, i), false, n)
  {
    SkipsOne(flags, ch, i + 1, n);
    ReadsOn(flags, ch, i, n);
  }

  lemma WantedPasses(flags: seq<string>, i: nat, after: bool)
    requires Wanted(flags, i)
    ensures Accepts(flags, i, after) <==> Accepts(flags, i + 1, after)
  {
    BoundariesAreUnmanaged(flags[i]);
  }

  /** A managed flag that is read is found; one that is not has to be looked for behind it. */
  lemma {:induction false} RejectedByBinary(flags: seq<string>, i: nat) returns (n: nat)
    requires Regular(flags) && i <= |flags| && !Accepts(flags, i, true)
    requires !Wanted(flags, i) && !Leading(flags, i)
    ensures n < |flags| && BinaryReads(flags, Evading(flags), From(flags, i), false, n) && Overrides(flags[n], TestBinary)
    decreases |flags| - i
  {
    assert IsFlagFor(TestBinary, flags[i]) by { ReadAsFlag(flags, i); }
    if Accepts(flags, i + 1, true) {
      n := i;
      assert From(flags, i)[0] == i;
      FoundHere(flags, i);
    } else if Wanted(flags, i + 1) {
      EvadingAt(flags, i);
      WantedPasses(flags, i + 1, true);
      n := RejectedByBinary(flags, i + 2);
      ReadsPastValue(flags, Evading(flags), i, n);
    } else {
      EvadingAt(flags, i);
      n := RejectedByBinary(flags, i + 1);
      ReadsOn(flags, Evading(flags), i, n);
    }
  }

  lemma ReadAsFlag(flags: seq<string>, i: nat)
    requires Regular(flags) && i < |flags| && !Accepts(flags, i, true) && !Wanted(flags, i) && !Leading(flags, i)
    ensures IsFlagFor(TestBinary, flags[i])
  {
  }

  lemma FoundHere(flags: seq<string>, i: nat)
    requires i < |flags| && !Accepts(flags, i, true) && Accepts(flags, i + 1, true)
    ensures Overrides(flags[i], TestBinary)
  {
    FlagNameMeans(flags[i]);
    if IsFlagBoundary(flags[i]) { BoundariesAreUnmanaged(flags[i]); }
  }

  lemma RejectedBehindArgs(flags: seq<string>, i: nat) returns (n: nat)
    requires Regular(flags) && i < |flags| && IsFlagBoundary(flags[i]) && !Accepts(flags, i, false) && !Wanted(flags, i)
    ensures n < |flags| && BinaryReads(flags, Evading(flags), Handed(flags, Evading(flags), i), false, n)
    ensures Overrides(flags[n], TestBinary)
  {
    BoundariesAreUnmanaged(flags[i]);
    assert !BoundaryConsumed(flags, i);
    n := RejectedByBinary(flags, i + 1);
  }

  lemma FoundByGo(flags: seq<string>, i: nat)
    requires i < |flags| && !IsFlagBoundary(flags[i]) && !Accepts(flags, i, false) && Accepts(flags, i + 1, false)
    ensures Overrides(flags[i], GoCommand)
  {
    FlagNameMeans(flags[i]);
  }

  lemma {:induction false} RejectedByGo(flags: seq<string>, i: nat) returns (n: nat, p: Parser)
    requires Regular(flags) && i <= |flags| && !Accepts(flags, i, false) && !Wanted(flags, i)
    ensures n < |flags| && Overrides(flags[n], p)
    ensures if p == GoCommand then GoTakes(flags, Evading(flags), i, n)
            else BinaryReads(flags, Evading(flags), Handed(flags, Evading(flags), i), false, n)
    decreases |flags| - i
  {
    var f := flags[i];
    EvadingAt(flags, i);
    if IsFlagBoundary(f) {
      n := RejectedBehindArgs(flags, i);
      p := TestBinary;
    } else if IsPositional(f) {
      BoundariesAreUnmanaged(f);
      n, p := RejectedByGo(flags, i + 1);
    } else if Accepts(flags, i + 1, false) {
      FoundByGo(flags, i);
      n, p := i, GoCommand;
    } else if Wanted(flags, i + 1) {
      WantedPasses(flags, i + 1, false);
      n, p := RejectedByGo(flags, i + 2);
    } else {
      n, p := RejectedByGo(flags, i + 1);
    }
  }

  /** Of such fields those that can override are the ones the guard rejects and the ones with a gap. */
  lemma GuardIsExact(flags: seq<string>)
    requires Regular(flags)
    ensures CanOverride(flags) <==> !Accepts(flags, 0, false) || HasGap(flags)
  {
    if Accepts(flags, 0, false) {
      GuardIsSound(flags);
    } else {
      var n, p := RejectedByGo(flags, 0);
      assert InEffect(flags, Evading(flags), n, p);
    }
  }

  /** Two boundaries in a row it rejects without need: `--` behind `-args` ends the binary's flags whatever comes next. */
  lemma GuardIsStrict(flags: seq<string>)
    requires |flags| >= 3 && flags[0] == "-args" && flags[1] == "--" && Overrides(flags[2], TestBinary)
    ensures !Accepts(flags, 0, false) && !CanOverride(flags)
  {
    BoundariesAreUnmanaged("--");
    if IsFlagBoundary(flags[2]) { BoundariesAreUnmanaged(flags[2]); }
    FlagNameMeans(flags[2]);
    assert !Accepts(flags, 2, true);
    assert !Accepts(flags, 1, true);
    forall ch: Choice, n: nat, p: Parser ensures !InEffect(flags, ch, n, p) {
      assert Handed(flags, ch, 0) == From(flags, 1) && From(flags, 1)[0] == 1;
    }
  }

  /** Such fields exist. */
  lemma TestRunOverrides()
    ensures Overrides("-test.run=X", TestBinary) && FlagName("-test.run=X") == "run" && IsFlagFor(TestBinary, "-test.run=X")
  {
    var f, bare := "-test.run=X", "test.run=X";
    assert f[1..] == bare && TrimLeft(f, '-') == bare;
    assert IndexOf(bare, '=') == 8 by {
      assert bare[8] == '=' && '=' !in bare[..8];
    }
    assert bare[..8] == "test.run" && "test.run"[5..] == "run";
    FlagNameMeans(f);
  }
}
