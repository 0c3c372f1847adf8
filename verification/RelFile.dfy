/**
 The report path of a file (`computeRelFile` and `longestCommonPrefix` in internal/discover/discover.go): the import
 path less what all packages of the run share, then the file's base name. The cache identifies a mutant's file by it.
 */
module RelFile {
  import opened Text

  // ----- the shared prefix -----

  /** Cut `prefix` at slashes from the right until `p` starts with it. */
  function Shrink(prefix: string, p: string): string {
    if HasPrefix(p, prefix) then prefix
    else
      var slash := LastIndex(prefix, '/');
      if slash == -1 then "" else Shrink(prefix[..slash], p)
  }

  function CommonPrefix(paths: seq<string>): string {
    if |paths| == 0 then ""
    else if |paths| == 1 then paths[0]
    else Shrink(CommonPrefix(paths[..|paths| - 1]), paths[|paths| - 1])
  }

  method LongestCommonPrefix(paths: seq<string>) returns (prefix: string)
    ensures prefix == CommonPrefix(paths)
  {
    if |paths| == 0 { return ""; }
    prefix := paths[0];
    for i := 1 to |paths|
      invariant prefix == CommonPrefix(paths[..i])
    {
      ghost var before, path := prefix, paths[i];
      assert paths[..i + 1][..i] == paths[..i];
      while !HasPrefix(paths[i], prefix)
        invariant Shrink(prefix, path) == Shrink(before, path)
        decreases |prefix|
      {
        var slash := LastIndex(prefix, '/');
        if slash == -1 {
          EmptyStays(paths, i + 1);
          return "";
        }
        prefix := prefix[..slash];
      }
    }
    assert paths[..|paths|] == paths;
  }

  /** Once nothing is shared nothing will be: the loop may stop. */
  lemma {:induction false} EmptyStays(paths: seq<string>, n: nat)
    requires 1 < n <= |paths| && CommonPrefix(paths[..n]) == ""
    ensures CommonPrefix(paths) == ""
    decreases |paths|
  {
    if n == |paths| {
      assert paths[..n] == paths;
    } else {
      var front := paths[..|paths| - 1];
      assert front[..n] == paths[..n];
      EmptyStays(front, n);
    }
  }

  /** `c` is all of `first` or ends right before one of its slashes, or is empty. */
  predicate IsCut(first: string, c: string) {
    c <= first && (c == "" || c == first || first[|c|] == '/')
  }

  /** The longest cut of the first path that every path starts with. */
  ghost predicate IsLongestCut(paths: seq<string>, c: string)
    requires paths != []
  {
    && IsCut(paths[0], c)
    && (forall k | 0 <= k < |paths| :: HasPrefix(paths[k], c))
    && (forall d | IsCut(paths[0], d) && (forall k | 0 <= k < |paths| :: HasPrefix(paths[k], d)) :: |d| <= |c|)
  }

  lemma {:induction false} ShrinkIsLongest(first: string, prefix: string, p: string)
    requires IsCut(first, prefix)
    ensures IsCut(first, Shrink(prefix, p)) && HasPrefix(p, Shrink(prefix, p)) && Shrink(prefix, p) <= prefix
    ensures forall d | IsCut(first, d) && d <= prefix && HasPrefix(p, d) :: |d| <= |Shrink(prefix, p)|
    decreases |prefix|
  {
    if !HasPrefix(p, prefix) {
      var slash := LastIndex(prefix, '/');
      forall d | IsCut(first, d) && d <= prefix && HasPrefix(p, d) ensures d == "" || (0 <= slash && d <= prefix[..slash]) {
        if d != "" { assert d != prefix && first[|d|] == prefix[|d|] == '/'; }
      }
      if slash != -1 { ShrinkIsLongest(first, prefix[..slash], p); }
    }
  }

  /** The loop over paths finds the longest shared cut of the first: a cut of strings, not of path elements. */
  lemma {:induction false} CommonPrefixIsLongest(paths: seq<string>)
    requires paths != []
    ensures IsLongestCut(paths, CommonPrefix(paths))
    decreases |paths|
  {
    var n := |paths| - 1;
    if n > 0 {
      var front, last := paths[..n], paths[n];
      var shared := CommonPrefix(front);
      CommonPrefixIsLongest(front);
      assert front[0] == paths[0];
      ShrinkIsLongest(paths[0], shared, last);
      var c := CommonPrefix(paths);
      forall k | 0 <= k < |paths| ensures HasPrefix(paths[k], c) {
        if k < n { assert front[k] == paths[k] && HasPrefix(front[k], shared); }
      }
      forall d | IsCut(paths[0], d) && (forall k | 0 <= k < |paths| :: HasPrefix(paths[k], d)) ensures |d| <= |c| {
        assert forall k | 0 <= k < |front| :: front[k] == paths[k];
        assert |d| <= |shared|;
        assert d <= shared;
      }
    }
  }

  // ----- the report path -----

  function TrimSlash(s: string): string {
    if s != "" && s[0] == '/' then s[1..] else s
  }

  /** `rel` is what `filepath.Rel` makes of the module root and the file's path. */
  function ComputeRelFile(commonPrefix: string, pkg: string, absPath: string, rel: string): string {
    if commonPrefix != "" && HasPrefix(pkg, commonPrefix) then
      var sub := TrimSlash(TrimPrefix(pkg, commonPrefix));
      if sub == "" then Base(absPath) else sub + "/" + Base(absPath)
    else rel
  }

  /** Behind the shared prefix, a slash in front left out, the rest of the package leads the base name. */
  lemma RelFileMeans(c: string, pkg: string, file: string, rel: string)
    ensures c == "" || !(c <= pkg) ==> ComputeRelFile(c, pkg, file, rel) == rel
    ensures c != "" && (pkg == c || pkg == c + "/") ==> ComputeRelFile(c, pkg, file, rel) == Base(file)
    ensures forall sub | c != "" && sub != "" && pkg == c + "/" + sub :: ComputeRelFile(c, pkg, file, rel) == sub + "/" + Base(file)
    ensures forall sub | c != "" && sub != "" && sub[0] != '/' && pkg == c + sub ::
      ComputeRelFile(c, pkg, file, rel) == sub + "/" + Base(file)
  {
    forall sub | c != "" && sub != "" && pkg == c + "/" + sub ensures ComputeRelFile(c, pkg, file, rel) == sub + "/" + Base(file) {
      assert pkg == c + ("/" + sub) && pkg[|c|..] == "/" + sub && ("/" + sub)[1..] == sub;
    }
    forall sub | c != "" && sub != "" && sub[0] != '/' && pkg == c + sub
      ensures ComputeRelFile(c, pkg, file, rel) == sub + "/" + Base(file)
    {
      assert pkg[|c|..] == sub;
    }
  }

  /** `q` is `p` with a slash put in right behind the shared prefix. */
  predicate SlashApart(commonPrefix: string, p: string, q: string)
    requires HasPrefix(p, commonPrefix)
  {
    !HasPrefix(p[|commonPrefix|..], "/") && q == commonPrefix + "/" + p[|commonPrefix|..]
  }

  lemma TrimCollides(c: string, p: string, q: string)
    requires HasPrefix(p, c) && HasPrefix(q, c)
    ensures TrimSlash(TrimPrefix(p, c)) == TrimSlash(TrimPrefix(q, c)) <==> p == q || SlashApart(c, p, q) || SlashApart(c, q, p)
  {
    var s, t := p[|c|..], q[|c|..];
    assert p == c + s && q == c + t;
    assert SlashApart(c, p, q) <==> !HasPrefix(s, "/") && t == "/" + s by {
      assert c + "/" + s == c + ("/" + s);
      assert c + t == c + ("/" + s) ==> t == (c + t)[|c|..] == ("/" + s);
    }
    assert SlashApart(c, q, p) <==> !HasPrefix(t, "/") && s == "/" + t by {
      assert c + "/" + t == c + ("/" + t);
      assert c + s == c + ("/" + t) ==> s == (c + s)[|c|..] == ("/" + t);
    }
    assert HasPrefix(s, "/") ==> s == "/" + s[1..];
    assert HasPrefix(t, "/") ==> t == "/" + t[1..];
  }

  lemma RelFileParts(sub: string, base: string, sub': string, base': string)
    requires '/' !in base && '/' !in base'
    ensures (if sub == "" then base else sub + "/" + base) == (if sub' == "" then base' else sub' + "/" + base')
      <==> sub == sub' && base == base'
  {
    var l, r := if sub == "" then base else sub + "/" + base, if sub' == "" then base' else sub' + "/" + base';
    assert sub != "" ==> l[|sub|] == '/';
    assert sub' != "" ==> r[|sub'|] == '/';
    if l == r && sub != "" && sub' != "" {
      assert l == sub + (['/'] + base) && r == sub' + (['/'] + base');
      SplitAtLast(sub, base, sub', base', '/');
    }
  }

  /**
   Two files of packages under the shared prefix get one report path exactly when their base names agree and the
   packages are the same or differ by a slash right behind the prefix.
   */
  lemma RelFileCollides(commonPrefix: string, p: string, q: string, file: string, file': string, rel: string, rel': string)
    requires commonPrefix != "" && HasPrefix(p, commonPrefix) && HasPrefix(q, commonPrefix)
    ensures ComputeRelFile(commonPrefix, p, file, rel) == ComputeRelFile(commonPrefix, q, file', rel')
      <==> Base(file) == Base(file') && (p == q || SlashApart(commonPrefix, p, q) || SlashApart(commonPrefix, q, p))
  {
    TrimCollides(commonPrefix, p, q);
    RelFileParts(TrimSlash(TrimPrefix(p, commonPrefix)), Base(file), TrimSlash(TrimPrefix(q, commonPrefix)), Base(file'));
  }

  ghost predicate AllUnder(paths: seq<string>, c: string) {
    forall p | p in paths :: HasPrefix(p, c)
  }

  /** Files of one base name in different packages have different report paths. */
  ghost predicate TellsApart(paths: seq<string>, c: string, file: string) {
    forall p, q | p in paths && q in paths && p != q :: ComputeRelFile(c, p, file, "") != ComputeRelFile(c, q, file, "")
  }

  ghost predicate SomeSlashApart(paths: seq<string>, c: string)
    requires AllUnder(paths, c)
  {
    exists p, q | p in paths && q in paths :: SlashApart(c, p, q)
  }

  lemma CommonPrefixIsShared(paths: seq<string>)
    ensures AllUnder(paths, CommonPrefix(paths))
  {
    if paths != [] {
      CommonPrefixIsLongest(paths);
      forall p | p in paths ensures HasPrefix(p, CommonPrefix(paths)) {
        var k :| 0 <= k < |paths| && paths[k] == p;
      }
    }
  }

  /** A run's report paths tell its files apart exactly when no two of its packages are a slash apart. */
  lemma RelFilesDistinct(paths: seq<string>, c: string, file: string)
    requires c != "" && AllUnder(paths, c)
    ensures TellsApart(paths, c, file) <==> !SomeSlashApart(paths, c)
  {
    if SomeSlashApart(paths, c) {
      var p, q :| p in paths && q in paths && SlashApart(c, p, q);
      assert |q| == |p| + 1;
      RelFileCollides(c, p, q, file, file, "", "");
    } else {
      forall p, q | p in paths && q in paths && p != q ensures ComputeRelFile(c, p, file, "") != ComputeRelFile(c, q, file, "") {
        RelFileCollides(c, p, q, file, file, "", "");
      }
    }
  }

  lemma CutInsideAnElement()
    ensures CommonPrefix(["m/foo", "m/foo/bar", "m/foobar"]) == "m/foo"
  {
    var paths := ["m/foo", "m/foo/bar", "m/foobar"];
    assert paths[..2][..1] == ["m/foo"];
    assert CommonPrefix(paths[..2][..1]) == "m/foo";
    assert CommonPrefix(paths[..2]) == Shrink("m/foo", paths[..2][1]);
    assert HasPrefix(paths[..2][1], "m/foo") && HasPrefix(paths[2], "m/foo");
  }

  /** Such a run: the prefix ends inside the path element foobar, and two packages' files share report paths. */
  lemma RelFilesCanCollide(file: string)
    ensures var paths := ["m/foo", "m/foo/bar", "m/foobar"]; !TellsApart(paths, CommonPrefix(paths), file)
  {
    var paths := ["m/foo", "m/foo/bar", "m/foobar"];
    CutInsideAnElement();
    CommonPrefixIsShared(paths);
    var c, p, q := CommonPrefix(paths), paths[2], paths[1];
    assert p in paths && q in paths;
    var sub, slash := p[|c|..], "/";
    assert sub == "bar" && sub[0] != slash[0];
    assert SlashApart(c, p, q);
    RelFilesDistinct(paths, c, file);
  }
}
