/**
 The byte streams the cache digests (internal/cache/cache.go): what is written, frame by frame, and that
 nothing written can be read back in two ways.
 */
module Framing {
  import opened Text

  /** One hashed file: its name in the frame (a basename or a directory-relative path) and its digest. */
  datatype Input = Input(name: string, digest: string)

  /** A digest as rendered: never empty and free of the separator. */
  predicate IsDigest(d: string) {
    d != "" && '|' !in d
  }

  ghost predicate Wellformed(inputs: seq<Input>) {
    forall f | f in inputs :: IsDigest(f.digest)
  }

  // Each stream is written in front of what is written next, `rest`.

  /** `%d:%s|%s|`: the frame shared by every stream. */
  function Frame(f: Input, rest: string): string {
    Decimal(|f.name|) + ([':'] + (f.name + (['|'] + (f.digest + (['|'] + rest)))))
  }

  function Frames(fs: seq<Input>, rest: string): string {
    if fs == [] then rest else Frame(fs[0], Frames(fs[1..], rest))
  }

  /** The coverage key marks the frame of an embedded file, so it is not taken for a source file's. */
  function EmbedFrames(fs: seq<Input>, rest: string): string {
    if fs == [] then rest else "embed:" + Frame(fs[0], EmbedFrames(fs[1..], rest))
  }

  /** `tag:%d:%s|`: one setting of the coverage key. */
  function Field(tag: string, v: string, rest: string): string {
    tag + (Decimal(|v|) + ([':'] + (v + (['|'] + rest))))
  }

  /** Everything the coverage key digests; `gosum` is empty when there is no go.sum. */
  datatype CoverageInputs = CoverageInputs(
    files: seq<Input>,
    embeds: seq<Input>,
    gomod: string,
    gosum: string,
    coverpkg: string,
    tags: string,
    testflags: string,
    toolchain: string,
    env: string)

  function Settings(c: CoverageInputs): string {
    Field("gomod:", c.gomod, Field("gosum:", c.gosum, Field("coverpkg:", c.coverpkg, Field("tags:", c.tags,
    Field("testflags:", c.testflags, Field("toolchain:", c.toolchain, Field("env:", c.env, "")))))))
  }

  function CoverageStream(c: CoverageInputs): string {
    Frames(c.files, EmbedFrames(c.embeds, Settings(c)))
  }

  /** The tests digest's stream. */
  function TestStream(files: seq<Input>): string {
    Frames(files, "")
  }

  /** The package digest's stream: its files, then its embedded files, framed alike and with nothing between. */
  function PkgStream(files: seq<Input>, embeds: seq<Input>): string {
    Frames(files, Frames(embeds, ""))
  }

  // ----- reading a stream back -----

  lemma LengthPrefix(v: string, x: string, w: string, y: string)
    requires Decimal(|v|) + ([':'] + (v + x)) == Decimal(|w|) + ([':'] + (w + y))
    ensures v == w && x == y
  {
    SplitAtFirst(Decimal(|v|), v + x, Decimal(|w|), w + y, ':');
    DecimalInjective(|v|, |w|);
    SplitAtLength(v, x, w, y);
  }

  lemma FrameDecodes(f: Input, x: string, g: Input, y: string)
    requires IsDigest(f.digest) && IsDigest(g.digest)
    requires Frame(f, x) == Frame(g, y)
    ensures f == g && x == y
  {
    LengthPrefix(f.name, ['|'] + (f.digest + (['|'] + x)), g.name, ['|'] + (g.digest + (['|'] + y)));
    SplitAtLength(['|'], f.digest + (['|'] + x), ['|'], g.digest + (['|'] + y));
    SplitAtFirst(f.digest, x, g.digest, y, '|');
  }

  lemma FrameStartsWithDigit(f: Input, x: string)
    ensures Frame(f, x) != "" && IsDigit(Frame(f, x)[0])
  {
    assert Frame(f, x)[0] == Decimal(|f.name|)[0];
  }

  /** A run of frames ends where something other than a digit follows, so it can be cut off what follows it. */
  lemma {:induction false} FramesDecode(fs: seq<Input>, x: string, gs: seq<Input>, y: string)
    requires Wellformed(fs) && Wellformed(gs)
    requires x != "" ==> !IsDigit(x[0])
    requires y != "" ==> !IsDigit(y[0])
    requires Frames(fs, x) == Frames(gs, y)
    ensures fs == gs && x == y
    decreases |fs|
  {
    if fs == [] && gs == [] {
    } else if fs == [] {
      FrameStartsWithDigit(gs[0], Frames(gs[1..], y));
    } else if gs == [] {
      FrameStartsWithDigit(fs[0], Frames(fs[1..], x));
    } else {
      FrameDecodes(fs[0], Frames(fs[1..], x), gs[0], Frames(gs[1..], y));
      FramesDecode(fs[1..], x, gs[1..], y);
      assert fs == [fs[0]] + fs[1..] && gs == [gs[0]] + gs[1..];
    }
  }

  /** The tests digest's stream determines its sequence of (basename, digest). */
  lemma TestStreamDecodes(fs: seq<Input>, gs: seq<Input>)
    requires Wellformed(fs) && Wellformed(gs)
    requires TestStream(fs) == TestStream(gs)
    ensures fs == gs
  {
    FramesDecode(fs, "", gs, "");
  }

  lemma {:induction false} FramesConcat(fs: seq<Input>, gs: seq<Input>, rest: string)
    ensures Frames(fs + gs, rest) == Frames(fs, Frames(gs, rest))
  {
    if fs == [] {
      assert fs + gs == gs;
    } else {
      FramesConcat(fs[1..], gs, rest);
      assert (fs + gs)[1..] == fs[1..] + gs;
    }
  }

  /** Frames written one after another, as the loops write them. */
  lemma {:induction false} FramesAppend(fs: seq<Input>, rest: string)
    ensures Frames(fs, rest) == Frames(fs, "") + rest
  {
    if fs != [] {
      FramesAppend(fs[1..], rest);
      FrameAppend(fs[0], Frames(fs[1..], ""), rest);
    }
  }

  lemma FramesSnoc(fs: seq<Input>, f: Input)
    ensures Frames(fs + [f], "") == Frames(fs, "") + Frame(f, "")
  {
    FramesConcat(fs, [f], "");
    FramesAppend(fs, Frame(f, ""));
  }

  lemma FrameAppend(f: Input, x: string, rest: string)
    ensures Frame(f, x + rest) == Frame(f, x) + rest
  {
    var a, b, c := Decimal(|f.name|), f.name, f.digest;
    assert c + (['|'] + (x + rest)) == c + (['|'] + x) + rest;
    assert b + (['|'] + (c + (['|'] + x) + rest)) == b + (['|'] + (c + (['|'] + x))) + rest;
    var tail := b + (['|'] + (c + (['|'] + x)));
    assert a + ([':'] + (tail + rest)) == a + ([':'] + tail) + rest;
  }

  // ----- the package stream -----

  /** The name of a file `goFilesIn` lists when it skips test files. */
  predicate IsSourceName(name: string) {
    HasSuffix(name, ".go") && !HasSuffix(name, "_test.go") && '/' !in name
  }

  ghost predicate Mentions(fs: seq<Input>, name: string) {
    exists i | 0 <= i < |fs| :: fs[i].name == name
  }

  ghost predicate DistinctNames(fs: seq<Input>) {
    forall i, j | 0 <= i < j < |fs| :: fs[i].name != fs[j].name
  }

  /** A directory's listing and its embedded files: an embedded source file of the directory is listed as well. */
  ghost predicate PkgListing(files: seq<Input>, embeds: seq<Input>) {
    && Wellformed(files) && Wellformed(embeds)
    && DistinctNames(files)
    && (forall f | f in files :: IsSourceName(f.name))
    && (forall f | f in embeds && IsSourceName(f.name) :: Mentions(files, f.name))
  }

  /** Where the embedded files start, read off the frames: at the first that is no source file or repeats a name. */
  ghost function SourcePrefix(fs: seq<Input>, k: nat): nat
    requires k <= |fs|
    decreases |fs| - k
  {
    if k < |fs| && IsSourceName(fs[k].name) && !Mentions(fs[..k], fs[k].name) then SourcePrefix(fs, k + 1) else k
  }

  lemma {:induction false} SourcePrefixIsListing(files: seq<Input>, embeds: seq<Input>, k: nat)
    requires PkgListing(files, embeds) && k <= |files|
    ensures SourcePrefix(files + embeds, k) == |files|
    decreases |files| - k
  {
    var all := files + embeds;
    if k < |files| {
      assert all[k] == files[k] && files[k] in files;
      assert all[..k] == files[..k];
      SourcePrefixIsListing(files, embeds, k + 1);
    } else if k < |all| {
      assert all[k] == embeds[0] && embeds[0] in embeds;
      assert all[..k] == files;
    }
  }

  /** The package stream determines where its embedded files start, though nothing marks the place. */
  lemma PkgStreamDecodes(files: seq<Input>, embeds: seq<Input>, files': seq<Input>, embeds': seq<Input>)
    requires PkgListing(files, embeds) && PkgListing(files', embeds')
    requires PkgStream(files, embeds) == PkgStream(files', embeds')
    ensures files == files' && embeds == embeds'
  {
    FramesConcat(files, embeds, "");
    FramesConcat(files', embeds', "");
    TestStreamDecodes(files + embeds, files' + embeds');
    SourcePrefixIsListing(files, embeds, 0);
    SourcePrefixIsListing(files', embeds', 0);
    SplitAtLength(files, embeds, files', embeds');
  }

  /** Without that condition the place is lost: two files listed, or one listed and one embedded, give one stream. */
  lemma UnlistedEmbedIsAmbiguous(a: Input, b: Input)
    ensures PkgStream([a, b], []) == PkgStream([a], [b])
  {
    FramesConcat([a], [b], "");
    assert [a] + [b] == [a, b];
  }

  // ----- the coverage key's stream -----

  lemma FieldDecodes(tag: string, v: string, x: string, w: string, y: string)
    requires Field(tag, v, x) == Field(tag, w, y)
    ensures v == w && x == y
  {
    SplitAtLength(tag, Decimal(|v|) + ([':'] + (v + (['|'] + x))), tag, Decimal(|w|) + ([':'] + (w + (['|'] + y))));
    LengthPrefix(v, ['|'] + x, w, ['|'] + y);
    SplitAtLength(['|'], x, ['|'], y);
  }

  lemma SettingsDecode(c: CoverageInputs, d: CoverageInputs)
    requires Settings(c) == Settings(d)
    ensures c.(files := d.files, embeds := d.embeds) == d
  {
    var c6, d6 := Field("env:", c.env, ""), Field("env:", d.env, "");
    var c5, d5 := Field("toolchain:", c.toolchain, c6), Field("toolchain:", d.toolchain, d6);
    var c4, d4 := Field("testflags:", c.testflags, c5), Field("testflags:", d.testflags, d5);
    var c3, d3 := Field("tags:", c.tags, c4), Field("tags:", d.tags, d4);
    var c2, d2 := Field("coverpkg:", c.coverpkg, c3), Field("coverpkg:", d.coverpkg, d3);
    var c1, d1 := Field("gosum:", c.gosum, c2), Field("gosum:", d.gosum, d2);
    FieldDecodes("gomod:", c.gomod, c1, d.gomod, d1);
    FieldDecodes("gosum:", c.gosum, c2, d.gosum, d2);
    FieldDecodes("coverpkg:", c.coverpkg, c3, d.coverpkg, d3);
    FieldDecodes("tags:", c.tags, c4, d.tags, d4);
    FieldDecodes("testflags:", c.testflags, c5, d.testflags, d5);
    FieldDecodes("toolchain:", c.toolchain, c6, d.toolchain, d6);
    FieldDecodes("env:", c.env, "", d.env, "");
  }

  /** The settings start with a letter no frame starts with. */
  lemma EmbedFramesStart(fs: seq<Input>, c: CoverageInputs)
    ensures EmbedFrames(fs, Settings(c)) != ""
    ensures EmbedFrames(fs, Settings(c))[0] == if fs == [] then 'g' else 'e'
  {
  }

  lemma {:induction false} EmbedFramesDecode(fs: seq<Input>, c: CoverageInputs, gs: seq<Input>, d: CoverageInputs)
    requires Wellformed(fs) && Wellformed(gs)
    requires EmbedFrames(fs, Settings(c)) == EmbedFrames(gs, Settings(d))
    ensures fs == gs && Settings(c) == Settings(d)
    decreases |fs|
  {
    EmbedFramesStart(fs, c);
    EmbedFramesStart(gs, d);
    if fs != [] {
      var x, y := EmbedFrames(fs[1..], Settings(c)), EmbedFrames(gs[1..], Settings(d));
      SplitAtLength("embed:", Frame(fs[0], x), "embed:", Frame(gs[0], y));
      FrameDecodes(fs[0], x, gs[0], y);
      EmbedFramesDecode(fs[1..], c, gs[1..], d);
      assert fs == [fs[0]] + fs[1..] && gs == [gs[0]] + gs[1..];
    }
  }

  /** The coverage key's stream determines every dimension of the key. */
  lemma CoverageStreamDecodes(c: CoverageInputs, d: CoverageInputs)
    requires Wellformed(c.files) && Wellformed(c.embeds) && Wellformed(d.files) && Wellformed(d.embeds)
    requires CoverageStream(c) == CoverageStream(d)
    ensures c == d
  {
    EmbedFramesStart(c.embeds, c);
    EmbedFramesStart(d.embeds, d);
    FramesDecode(c.files, EmbedFrames(c.embeds, Settings(c)), d.files, EmbedFrames(d.embeds, Settings(d)));
    EmbedFramesDecode(c.embeds, c, d.embeds, d);
    SettingsDecode(c, d);
  }
}
