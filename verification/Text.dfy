/**
 Go strings and the few standard-library operations on them that the model needs.
 A Go string is a sequence of bytes; here each `char` stands for one byte.
 */
module Text {

  /** Bytewise lexicographic order: Go's `<` on strings. */
  predicate StrLess(a: string, b: string) {
    if b == "" then false
    else if a == "" then true
    else a[0] < b[0] || (a[0] == b[0] && StrLess(a[1..], b[1..]))
  }

  lemma {:induction false} StrLessIrreflexive(a: string)
    ensures !StrLess(a, a)
  {
    if a != "" { StrLessIrreflexive(a[1..]); }
  }

  lemma {:induction false} StrLessTransitive(a: string, b: string, c: string)
    requires StrLess(a, b) && StrLess(b, c)
    ensures StrLess(a, c)
  {
    if a != "" && a[0] == b[0] && b[0] == c[0] { StrLessTransitive(a[1..], b[1..], c[1..]); }
  }

  lemma {:induction false} StrLessTotal(a: string, b: string)
    ensures a == b || StrLess(a, b) || StrLess(b, a)
  {
    if a != "" && b != "" && a[0] == b[0] {
      StrLessTotal(a[1..], b[1..]);
      assert a == [a[0]] + a[1..] && b == [b[0]] + b[1..];
    }
  }

  /** Strings compare by the first byte at which they differ, or, where there is none, by length. */
  lemma {:induction false} StrLessMeans(a: string, b: string) returns (k: nat)
    ensures k <= |a| && k <= |b| && a[..k] == b[..k] && (k < |a| && k < |b| ==> a[k] != b[k])
    ensures StrLess(a, b) <==> if k < |a| && k < |b| then a[k] < b[k] else |a| < |b|
  {
    if a == "" || b == "" || a[0] != b[0] {
      k := 0;
    } else {
      k := StrLessMeans(a[1..], b[1..]);
      k := k + 1;
      assert a[..k] == [a[0]] + a[1..][..k - 1] && b[..k] == [b[0]] + b[1..][..k - 1];
    }
  }

  predicate HasPrefix(s: string, prefix: string) {
    prefix <= s
  }

  predicate HasSuffix(s: string, suffix: string) {
    |suffix| <= |s| && s[|s| - |suffix|..] == suffix
  }

  function TrimPrefix(s: string, prefix: string): string {
    if HasPrefix(s, prefix) then s[|prefix|..] else s
  }

  /** The index of the last `c` in `s`, or -1. */
  function LastIndex(s: string, c: char): (i: int)
    ensures -1 <= i < |s|
    ensures 0 <= i ==> s[i] == c
    ensures forall j | i < j < |s| :: s[j] != c
  {
    if s == "" then -1
    else if s[|s| - 1] == c then |s| - 1
    else LastIndex(s[..|s| - 1], c)
  }

  /** The index of the first `c` in `s`, or |s|. */
  function IndexOf(s: string, c: char): (i: nat)
    ensures i <= |s|
    ensures i < |s| ==> s[i] == c
    ensures forall j | 0 <= j < i :: s[j] != c
  {
    if s == "" || s[0] == c then 0 else 1 + IndexOf(s[1..], c)
  }

  /** What precedes the first `c` in `s`, or all of `s`: the first result of `strings.Cut`. */
  function CutBefore(s: string, c: char): string {
    s[..IndexOf(s, c)]
  }

  /** `strings.TrimLeft` for a one-character cut set. */
  function TrimLeft(s: string, c: char): string {
    if s != "" && s[0] == c then TrimLeft(s[1..], c) else s
  }

  /** The part of a slash-separated path behind its last slash: `filepath.Base` of a file path. */
  function Base(p: string): (b: string)
    ensures '/' !in b
  {
    p[LastIndex(p, '/') + 1..]
  }

  /** The part of a slash-separated path before its last slash: `filepath.Dir` of a file path. */
  function Dir(p: string): string {
    var i := LastIndex(p, '/');
    if i < 0 then "." else if i == 0 then "/" else p[..i]
  }

  /** `filepath.Join` of a directory and a clean relative path. */
  function Join(dir: string, name: string): string {
    if dir == "/" then dir + name else dir + "/" + name
  }

  lemma DirBaseOfJoin(dir: string, name: string)
    requires dir != "" && '/' !in name
    ensures Dir(Join(dir, name)) == dir && Base(Join(dir, name)) == name
  {
    var p, n := Join(dir, name), if dir == "/" then 0 else |dir|;
    assert p[n] == '/';
    assert forall j | n < j < |p| :: p[j] == name[j - n - 1];
    assert LastIndex(p, '/') == n;
  }

  lemma PathOfOneElement(name: string)
    requires '/' !in name
    ensures Dir(name) == "." && Base(name) == name
  {
    assert LastIndex(name, '/') == -1;
  }

  predicate IsDigit(c: char) {
    '0' <= c <= '9'
  }

  function Digit(d: nat): (c: char)
    requires d < 10
    ensures IsDigit(c)
  {
    '0' + d as char
  }

  /** Decimal rendering: Go's `%d` of a non-negative integer. */
  function Decimal(n: nat): (s: string)
    ensures s != "" && forall i | 0 <= i < |s| :: IsDigit(s[i])
  {
    if n < 10 then [Digit(n)] else Decimal(n / 10) + [Digit(n % 10)]
  }

  /** A number's last digit is its remainder by ten, and the others are those of its tenth, where there is one. */
  lemma DecimalMeans(n: nat)
    ensures Decimal(n) == (if n < 10 then "" else Decimal(n / 10)) + ['0' + (n % 10) as char]
  {
  }

  lemma {:induction false} DecimalInjective(a: nat, b: nat)
    requires Decimal(a) == Decimal(b)
    ensures a == b
  {
    var s, t := Decimal(a), Decimal(b);
    assert s[|s| - 1] == Digit(a % 10) && t[|t| - 1] == Digit(b % 10);
    if a >= 10 && b >= 10 {
      assert s[..|s| - 1] == Decimal(a / 10) && t[..|t| - 1] == Decimal(b / 10);
      DecimalInjective(a / 10, b / 10);
    }
  }

  /** A string free of `sep` in front of a `sep` can be read off what follows. */
  lemma SplitAtFirst(a: string, x: string, b: string, y: string, sep: char)
    requires sep !in a && sep !in b
    requires a + ([sep] + x) == b + ([sep] + y)
    ensures a == b && x == y
  {
    var l, r := a + ([sep] + x), b + ([sep] + y);
    assert l[|a|] == sep && r[|b|] == sep;
    assert |a| == |b|;
    assert a == l[..|a|] && b == r[..|b|] && x == l[|a| + 1..] && y == r[|b| + 1..];
  }

  /** The same for a string behind the last `sep`. */
  lemma SplitAtLast(a: string, x: string, b: string, y: string, sep: char)
    requires sep !in x && sep !in y
    requires a + ([sep] + x) == b + ([sep] + y)
    ensures a == b && x == y
  {
    var l, r := a + ([sep] + x), b + ([sep] + y);
    assert l[|a|] == sep && r[|b|] == sep;
    assert |a| == |b|;
    assert a == l[..|a|] && b == r[..|b|] && x == l[|a| + 1..] && y == r[|b| + 1..];
  }

  /** Equal prefixes of equal lengths come off. */
  lemma SplitAtLength<T>(a: seq<T>, x: seq<T>, b: seq<T>, y: seq<T>)
    requires |a| == |b| && a + x == b + y
    ensures a == b && x == y
  {
    assert a == (a + x)[..|a|] && b == (b + y)[..|b|];
    assert x == (a + x)[|a|..] && y == (b + y)[|b|..];
  }
}
