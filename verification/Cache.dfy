/** The incremental cache: entries, `Lookup`, `Update` and `Load` (internal/cache/cache.go). */
module Cache {
  import opened Text
  import opened Ordering
  import opened Mutants
  import opened Hashing

  /** What identifies a mutant in the cache. */
  datatype Key = Key(
    relFile: string,
    line: int,
    col: int,
    typ: string,
    startOffset: int,
    original: string,
    replacement: string)

  datatype Entry = Entry(
    key: Key,
    prodHash: string,
    pkgHash: string,
    testsHash: string,
    status: string,
    durationMs: nat,
    rechecked: bool)

  function KeyOf(m: Mutant): Key {
    Key(m.relFile, m.line, m.col, m.typ, m.startOffset, m.original, m.replacement)
  }

  // ----- statuses -----

  predicate CanReuse(s: Status) {
    s.Killed? || s.Lived? || s.TimedOut? || s.NotViable? || s.Equivalent?
  }

  predicate NeedsTestsHash(s: Status) {
    s.Killed? || s.Lived? || s.TimedOut? || s.Equivalent?
  }

  function ParseStatus(s: string): Status {
    if s == "KILLED" then Killed
    else if s == "LIVED" then Lived
    else if s == "TIMED OUT" then TimedOut
    else if s == "NOT VIABLE" then NotViable
    else if s == "EQUIVALENT" then Equivalent
    else Pending
  }

  /** A status survives the file exactly when it is one the cache reuses; every other string reads as pending. */
  lemma StatusRoundTrip(s: Status, text: string)
    ensures ParseStatus(StatusString(s)) == if CanReuse(s) then s else Pending
    ensures CanReuse(ParseStatus(text)) ==> StatusString(ParseStatus(text)) == text
  {
    match s {
      case Pending => assert "PENDING"[0] == 'P';
      case NotCovered => assert "NOT COVERED"[4] == 'C' && "NOT VIABLE"[4] == 'V';
      case InfraError => assert "INFRA ERROR"[0] == 'I';
      case _ =>
    }
  }

  // ----- the order entries are written in -----

  predicate PlaceLess(a: Key, b: Key) {
    a.line < b.line || (a.line == b.line && (a.col < b.col || (a.col == b.col && a.startOffset < b.startOffset)))
  }

  predicate SamePlace(a: Key, b: Key) {
    a.line == b.line && a.col == b.col && a.startOffset == b.startOffset
  }

  predicate ChangeLess(a: Key, b: Key) {
    StrLess(a.typ, b.typ) || (a.typ == b.typ &&
      (StrLess(a.original, b.original) || (a.original == b.original && StrLess(a.replacement, b.replacement))))
  }

  /** Relative file, line, column, offset, type, original, replacement. */
  predicate KeyLess(a: Key, b: Key) {
    StrLess(a.relFile, b.relFile)
    || (a.relFile == b.relFile && (PlaceLess(a, b) || (SamePlace(a, b) && ChangeLess(a, b))))
  }

  lemma ChangeLessOrder(a: Key, b: Key, c: Key)
    ensures !ChangeLess(a, a)
    ensures ChangeLess(a, b) && ChangeLess(b, c) ==> ChangeLess(a, c)
    ensures ChangeLess(a, b) || ChangeLess(b, a) ||
      (a.typ == b.typ && a.original == b.original && a.replacement == b.replacement)
  {
    StrLessIsStrictTotal();
  }

  lemma KeyLessIsStrictTotal()
    ensures StrictTotal(KeyLess)
  {
    StrLessIsStrictTotal();
    forall a ensures !KeyLess(a, a) { ChangeLessOrder(a, a, a); }
    forall a, b, c | KeyLess(a, b) && KeyLess(b, c) ensures KeyLess(a, c) { ChangeLessOrder(a, b, c); }
    forall a, b ensures a == b || KeyLess(a, b) || KeyLess(b, a) { ChangeLessOrder(a, b, a); }
  }

  /** A set of keys in the order their entries are written in. */
  ghost function InOrder(keys: set<Key>): (s: seq<Key>)
    ensures forall k :: k in s <==> k in keys
    ensures StrictlySorted(s, KeyLess)
  {
    KeyLessIsStrictTotal();
    ListOf(keys, KeyLess)
  }

  lemma InOrderUnique(s: seq<Key>, keys: set<Key>)
    requires StrictlySorted(s, KeyLess) && forall k :: k in s <==> k in keys
    ensures s == InOrder(keys)
  {
    KeyLessIsStrictTotal();
    StrictlySortedUnique(s, InOrder(keys), KeyLess);
  }

  // ----- Lookup -----

  /** What a run hashes with: the disk, the hasher's state, and the test files each mutant's verdict rests on. */
  datatype World = World(host: Host, memo: Memo, testFiles: Mutant -> seq<string>, projectDir: string)

  function Prod(w: World, m: Mutant): Read<string> {
    FileDigest(w.host, w.memo, m.file)
  }

  function Pkg(w: World, m: Mutant): Read<string> {
    PkgDigest(w.host, w.memo, Dir(m.file))
  }

  function Tests(w: World, m: Mutant): Read<string> {
    TestsDigest(w.host, w.memo, w.testFiles(m))
  }

  /** The entry each key is looked up as: of two entries with one key, the later. */
  function Index(entries: seq<Entry>): map<Key, Entry> {
    if entries == [] then map[]
    else
      var last := entries[|entries| - 1];
      Index(entries[..|entries| - 1])[last.key := last]
  }

  /** Whether a mutant's digests are those the entry was recorded under. */
  predicate Matches(w: World, m: Mutant, e: Entry) {
    && CanReuse(ParseStatus(e.status))
    && Prod(w, m) == Ok(e.prodHash)
    && Pkg(w, m) == Ok(e.pkgHash)
    && (NeedsTestsHash(ParseStatus(e.status)) ==> Tests(w, m) == Ok(e.testsHash))
  }

  predicate Hit(w: World, index: map<Key, Entry>, m: Mutant) {
    m.status == Pending && KeyOf(m) in index && Matches(w, m, index[KeyOf(m)])
  }

  function Replayed(m: Mutant, e: Entry): Mutant {
    m.(status := ParseStatus(e.status), duration := e.durationMs * 1_000_000, rechecked := e.rechecked, fromCache := true)
  }

  function LookedUp(w: World, entries: seq<Entry>, m: Mutant): Mutant {
    var index := Index(entries);
    if Hit(w, index, m) then Replayed(m, index[KeyOf(m)]) else m
  }

  function LookedUpAll(w: World, entries: seq<Entry>, ms: seq<Mutant>): (r: seq<Mutant>)
    ensures |r| == |ms|
  {
    seq(|ms|, i requires 0 <= i < |ms| => LookedUp(w, entries, ms[i]))
  }

  /** The mutants with the first `i` looked up. */
  function LookedUpTo(w: World, entries: seq<Entry>, ms: seq<Mutant>, i: nat): (r: seq<Mutant>)
    requires i <= |ms|
    ensures |r| == |ms| && (i < |ms| ==> r[i] == ms[i])
  {
    LookedUpAll(w, entries, ms[..i]) + ms[i..]
  }

  lemma LookedUpStep(w: World, entries: seq<Entry>, ms: seq<Mutant>, i: nat)
    requires i < |ms|
    ensures LookedUpTo(w, entries, ms, i + 1) == LookedUpTo(w, entries, ms, i)[i := LookedUp(w, entries, ms[i])]
  {
  }

  function Hits(w: World, entries: seq<Entry>, ms: seq<Mutant>): nat {
    if ms == [] then 0
    else Hits(w, entries, ms[..|ms| - 1]) + if Hit(w, Index(entries), ms[|ms| - 1]) then 1 else 0
  }

  // ----- what a lookup does -----

  /** A mutant is given its own entry's outcome, and else left alone: `e` is the last of the entries with its key. */
  lemma LookedUpMeans(w: World, entries: seq<Entry>, m: Mutant, i: nat)
    requires i < |entries| && (forall j | i < j < |entries| :: entries[j].key != entries[i].key)
    requires entries[i].key.relFile == m.relFile && entries[i].key.line == m.line && entries[i].key.col == m.col && entries[i].key.typ == m.typ
    requires entries[i].key.startOffset == m.startOffset && entries[i].key.original == m.original && entries[i].key.replacement == m.replacement
    ensures var e, r := entries[i], LookedUp(w, entries, m);
      if && m.status == Pending
         && FileDigest(w.host, w.memo, m.file) == Ok(e.prodHash) && PkgDigest(w.host, w.memo, Dir(m.file)) == Ok(e.pkgHash)
         && (e.status == "NOT VIABLE"
             || ((e.status == "KILLED" || e.status == "LIVED" || e.status == "TIMED OUT" || e.status == "EQUIVALENT")
                 && TestsDigest(w.host, w.memo, w.testFiles(m)) == Ok(e.testsHash)))
      then && r == m.(status := r.status, duration := e.durationMs * 1_000_000, rechecked := e.rechecked, fromCache := true)
           && r.status != Pending && StatusString(r.status) == e.status
      else r == m
  {
    IndexIsLast(entries, i);
    var e := entries[i];
    assert e.key == KeyOf(m);
    StatusRoundTrip(Killed, e.status);
    StatusesDiffer();
  }

  lemma StatusesDiffer()
    ensures "NOT VIABLE" != "KILLED" && "NOT VIABLE" != "LIVED" && "NOT VIABLE" != "TIMED OUT" && "NOT VIABLE" != "EQUIVALENT"
  {
  }

  /** And left alone where none has its key. */
  lemma LookedUpWithout(w: World, entries: seq<Entry>, m: Mutant)
    requires forall e | e in entries ::
      !(e.key.relFile == m.relFile && e.key.line == m.line && e.key.col == m.col && e.key.typ == m.typ
        && e.key.startOffset == m.startOffset && e.key.original == m.original && e.key.replacement == m.replacement)
    ensures LookedUp(w, entries, m) == m
  {
    IndexIsOf(entries, KeyOf(m));
  }

  lemma {:induction false} IndexIsLast(entries: seq<Entry>, i: nat)
    requires i < |entries| && (forall j | i < j < |entries| :: entries[j].key != entries[i].key)
    ensures entries[i].key in Index(entries) && Index(entries)[entries[i].key] == entries[i]
  {
    if i < |entries| - 1 { IndexIsLast(entries[..|entries| - 1], i); }
  }

  lemma {:induction false} IndexIsOf(entries: seq<Entry>, k: Key)
    ensures k in Index(entries) ==> exists e | e in entries :: e.key == k
  {
    if entries != [] {
      var front, last := entries[..|entries| - 1], entries[|entries| - 1];
      IndexIsOf(front, k);
      assert last in entries && forall e | e in front :: e in entries;
    }
  }

  /** The positions a lookup changes: those that were pending and are not any more. */
  ghost function Replays(before: seq<Mutant>, after: seq<Mutant>): set<nat>
    requires |before| == |after|
  {
    set i: nat | i < |before| && before[i].status == Pending && after[i].status != Pending
  }

  lemma ReplaysSnoc(before: seq<Mutant>, after: seq<Mutant>, m: Mutant, m': Mutant)
    requires |before| == |after|
    ensures Replays(before + [m], after + [m'])
      == if m.status == Pending && m'.status != Pending then Replays(before, after) + {|before|} else Replays(before, after)
  {
  }

  lemma HitChanges(w: World, entries: seq<Entry>, m: Mutant)
    ensures Hit(w, Index(entries), m) <==> m.status == Pending && LookedUp(w, entries, m).status != Pending
  {
  }

  /** The hits are as many. */
  lemma {:induction false} HitsAreReplays(w: World, entries: seq<Entry>, ms: seq<Mutant>)
    ensures Hits(w, entries, ms) == |Replays(ms, LookedUpAll(w, entries, ms))|
  {
    var all := Replays(ms, LookedUpAll(w, entries, ms));
    if ms == [] {
      assert all == {};
    } else {
      var front, last := ms[..|ms| - 1], ms[|ms| - 1];
      HitsAreReplays(w, entries, front);
      HitChanges(w, entries, last);
      ReplaysSnoc(front, LookedUpAll(w, entries, front), last, LookedUp(w, entries, last));
      assert ms == front + [last];
      assert LookedUpAll(w, entries, ms) == LookedUpAll(w, entries, front) + [LookedUp(w, entries, last)];
    }
  }

  // ----- Update -----

  predicate Recorded(w: World, m: Mutant) {
    CanReuse(m.status) && Prod(w, m).Ok? && Pkg(w, m).Ok?
  }

  /** A tests digest that fails leaves the field empty, which no later digest equals. */
  function EntryOf(w: World, m: Mutant): Entry
    requires Recorded(w, m)
  {
    Entry(KeyOf(m), Prod(w, m).value, Pkg(w, m).value,
          if NeedsTestsHash(m.status) && Tests(w, m).Ok? then Tests(w, m).value else "",
          StatusString(m.status), m.duration / 1_000_000, m.rechecked)
  }

  /** This run's entries: of two recorded mutants with one key, the later. */
  function Fresh(w: World, ms: seq<Mutant>): map<Key, Entry> {
    if ms == [] then map[]
    else
      var front, m := Fresh(w, ms[..|ms| - 1]), ms[|ms| - 1];
      if Recorded(w, m) then front[KeyOf(m) := EntryOf(w, m)] else front
  }

  /** Whether an entry this run did not write is carried over: not once its source is gone, but while it cannot be read. */
  predicate Keep(w: World, e: Entry) {
    var abs := Join(w.projectDir, e.key.relFile);
    var file, pkg := FileDigest(w.host, w.memo, abs), PkgDigest(w.host, w.memo, Dir(abs));
    if file.NotExist? || pkg.NotExist? then false
    else if !file.Ok? || !pkg.Ok? then true
    else file.value == e.prodHash && pkg.value == e.pkgHash
  }

  function CarryOver(w: World, own: map<Key, Entry>, prior: seq<Entry>): map<Key, Entry> {
    if prior == [] then own
    else
      var acc, e := CarryOver(w, own, prior[..|prior| - 1]), prior[|prior| - 1];
      if e.key !in acc && Keep(w, e) then acc[e.key := e] else acc
  }

  function Merged(w: World, ms: seq<Mutant>, prior: seq<Entry>): map<Key, Entry> {
    CarryOver(w, Fresh(w, ms), prior)
  }

  ghost predicate KeyedByKey(m: map<Key, Entry>) {
    forall k | k in m :: m[k].key == k
  }

  /** A merged map as it is written: its entries in the order of their keys. */
  ghost function Emit(m: map<Key, Entry>): (s: seq<Entry>)
    ensures |s| == |InOrder(m.Keys)|
    ensures forall i | 0 <= i < |s| :: s[i] == m[InOrder(m.Keys)[i]]
  {
    var keys := InOrder(m.Keys);
    seq(|keys|, i requires 0 <= i < |keys| => assert keys[i] in keys; m[keys[i]])
  }

  ghost function Updated(w: World, ms: seq<Mutant>, prior: seq<Entry>): seq<Entry> {
    Emit(Merged(w, ms, prior))
  }

  /** Checkpoints one after another, each updating what the one before left. */
  ghost function UpdatedBy(w: World, slices: seq<seq<Mutant>>, prior: seq<Entry>): seq<Entry> {
    if slices == [] then prior
    else Updated(w, slices[|slices| - 1], UpdatedBy(w, slices[..|slices| - 1], prior))
  }

  // ----- what the merge holds -----

  /** The last mutant recorded under key `k`, or -1. */
  function LastRecorded(w: World, ms: seq<Mutant>, k: Key): (i: int)
    ensures -1 <= i < |ms|
    ensures 0 <= i ==> Recorded(w, ms[i]) && KeyOf(ms[i]) == k
    ensures forall j | i < j < |ms| :: !(Recorded(w, ms[j]) && KeyOf(ms[j]) == k)
  {
    if ms == [] then -1
    else
      var n := |ms| - 1;
      if Recorded(w, ms[n]) && KeyOf(ms[n]) == k then n
      else
        var i := LastRecorded(w, ms[..n], k);
        assert forall j | 0 <= j < n :: ms[..n][j] == ms[j];
        i
  }

  /** Of the mutants recorded under one key the last is the one written. */
  lemma {:induction false} FreshAt(w: World, ms: seq<Mutant>, k: Key)
    ensures var i := LastRecorded(w, ms, k);
      && (k in Fresh(w, ms) <==> 0 <= i)
      && (0 <= i ==> Fresh(w, ms)[k] == EntryOf(w, ms[i]))
  {
    if ms != [] {
      FreshAt(w, ms[..|ms| - 1], k);
    }
  }

  /** The first of the prior entries with key `k` that is kept, or their number. */
  function FirstKept(w: World, prior: seq<Entry>, k: Key): (i: nat)
    ensures i <= |prior|
    ensures i < |prior| ==> prior[i].key == k && Keep(w, prior[i])
    ensures forall j | 0 <= j < i :: !(prior[j].key == k && Keep(w, prior[j]))
  {
    if prior == [] then 0
    else
      var n := |prior| - 1;
      var i := FirstKept(w, prior[..n], k);
      assert forall j | 0 <= j < n :: prior[..n][j] == prior[j];
      if i < n then i
      else if prior[n].key == k && Keep(w, prior[n]) then n
      else n + 1
  }

  /** What carrying over comes to: this run's entries, and for every other key the first kept prior entry. */
  lemma {:induction false} CarryOverAt(w: World, own: map<Key, Entry>, prior: seq<Entry>, k: Key)
    ensures var i := FirstKept(w, prior, k);
      && (k in CarryOver(w, own, prior) <==> k in own || i < |prior|)
      && (k in own ==> CarryOver(w, own, prior)[k] == own[k])
      && (k !in own && i < |prior| ==> CarryOver(w, own, prior)[k] == prior[i])
  {
    if prior != [] {
      CarryOverAt(w, own, prior[..|prior| - 1], k);
    }
  }

  lemma MergedKeyed(w: World, ms: seq<Mutant>, prior: seq<Entry>)
    ensures KeyedByKey(Merged(w, ms, prior))
  {
    var own := Fresh(w, ms);
    forall k | k in Merged(w, ms, prior) ensures Merged(w, ms, prior)[k].key == k {
      FreshAt(w, ms, k);
      CarryOverAt(w, own, prior, k);
    }
  }

  ghost predicate DistinctKeys(es: seq<Entry>) {
    forall i, j | 0 <= i < j < |es| :: es[i].key != es[j].key
  }

  ghost predicate CanonicalEntries(es: seq<Entry>) {
    forall i, j | 0 <= i < j < |es| :: KeyLess(es[i].key, es[j].key)
  }

  lemma EmitHolds(m: map<Key, Entry>)
    requires KeyedByKey(m)
    ensures CanonicalEntries(Emit(m)) && DistinctKeys(Emit(m))
    ensures forall e :: e in Emit(m) <==> e.key in m && m[e.key] == e
  {
    var keys, es := InOrder(m.Keys), Emit(m);
    KeyLessIsStrictTotal();
    forall i | 0 <= i < |es| ensures es[i].key == keys[i] {
      assert keys[i] in keys;
    }
    forall e: Entry | e.key in m && m[e.key] == e ensures e in es {
      assert e.key in keys;
      var i :| 0 <= i < |keys| && keys[i] == e.key;
      assert es[i] == e;
    }
    forall e | e in es ensures e.key in m && m[e.key] == e {
      var i :| 0 <= i < |es| && es[i] == e;
      assert keys[i] in keys;
    }
  }

  /** A list in key order that holds a map's entries is what `Emit` writes. */
  lemma EmitUnique(m: map<Key, Entry>, es: seq<Entry>)
    requires KeyedByKey(m) && CanonicalEntries(es)
    requires forall e :: e in es <==> e.key in m && m[e.key] == e
    ensures es == Emit(m)
  {
    var keys := seq(|es|, i requires 0 <= i < |es| => es[i].key);
    assert StrictlySorted(keys, KeyLess);
    forall k ensures k in keys <==> k in m.Keys {
      if k in m.Keys {
        assert m[k] in es;
        var i :| 0 <= i < |es| && es[i] == m[k];
        assert keys[i] == k;
      }
      if k in keys {
        var i :| 0 <= i < |keys| && keys[i] == k;
        assert es[i] in es;
      }
    }
    InOrderUnique(keys, m.Keys);
    forall i | 0 <= i < |es| ensures es[i] == Emit(m)[i] {
      assert es[i] in es;
    }
  }

  lemma {:induction false} IndexOfDistinct(es: seq<Entry>, e: Entry)
    requires DistinctKeys(es) && e in es
    ensures e.key in Index(es) && Index(es)[e.key] == e
  {
    var n := |es| - 1;
    if e != es[n] {
      var i :| 0 <= i < |es| && es[i] == e;
      assert es[..n][i] == e;
      IndexOfDistinct(es[..n], e);
    }
  }

  // ----- checkpoints -----

  /** `t` is `s` with more mutants done: none that had a cacheable outcome loses it. */
  ghost predicate Completes(s: seq<Mutant>, t: seq<Mutant>) {
    && |s| == |t|
    && forall i | 0 <= i < |s| ::
      && KeyOf(s[i]) == KeyOf(t[i]) && s[i].file == t[i].file
      && (CanReuse(s[i].status) ==> CanReuse(t[i].status))
  }

  lemma CompletesRecords(w: World, s: seq<Mutant>, t: seq<Mutant>, k: Key)
    requires Completes(s, t) && k in Fresh(w, s)
    ensures k in Fresh(w, t)
  {
    FreshAt(w, s, k);
    FreshAt(w, t, k);
    var i := LastRecorded(w, s, k);
    assert Recorded(w, t[i]) && KeyOf(t[i]) == k;
  }

  /** A key the run has not written is carried over by the checkpoint as it would be without it. */
  lemma CheckpointCarries(w: World, s: seq<Mutant>, prior: seq<Entry>, k: Key)
    requires k !in Fresh(w, s)
    ensures var mid := Updated(w, s, prior); var i, j := FirstKept(w, prior, k), FirstKept(w, mid, k);
      && (i < |prior| <==> j < |mid|)
      && (i < |prior| ==> prior[i] == mid[j])
  {
    var merged, mid := Merged(w, s, prior), Updated(w, s, prior);
    var i, j := FirstKept(w, prior, k), FirstKept(w, mid, k);
    MergedKeyed(w, s, prior);
    EmitHolds(merged);
    CarryOverAt(w, Fresh(w, s), prior, k);
    if i < |prior| {
      assert prior[i] in mid;
    }
    if j < |mid| {
      assert mid[j] in mid;
    }
  }

  /** A checkpoint leaves no trace in what the next update writes. */
  lemma CheckpointIsTransparent(w: World, s: seq<Mutant>, t: seq<Mutant>, prior: seq<Entry>)
    requires Completes(s, t)
    ensures Updated(w, t, Updated(w, s, prior)) == Updated(w, t, prior)
  {
    var mid := Updated(w, s, prior);
    var own := Fresh(w, t);
    var a, b := Merged(w, t, mid), Merged(w, t, prior);
    forall k ensures (k in a <==> k in b) && (k in a ==> a[k] == b[k]) {
      CarryOverAt(w, own, mid, k);
      CarryOverAt(w, own, prior, k);
      if k !in own {
        if k in Fresh(w, s) { CompletesRecords(w, s, t, k); }
        CheckpointCarries(w, s, prior, k);
      }
    }
    assert a == b;
  }

  /** Any number of checkpoints, then the final flush: the file the flush alone would have written. */
  lemma {:induction false} CheckpointsAreTransparent(w: World, slices: seq<seq<Mutant>>, final: seq<Mutant>, prior: seq<Entry>)
    requires forall s | s in slices :: Completes(s, final)
    ensures Updated(w, final, UpdatedBy(w, slices, prior)) == Updated(w, final, prior)
  {
    if slices != [] {
      var n := |slices| - 1;
      assert slices[n] in slices;
      CheckpointIsTransparent(w, slices[n], final, UpdatedBy(w, slices[..n], prior));
      CheckpointsAreTransparent(w, slices[..n], final, prior);
    }
  }

  /** What is written is in the order of its keys, no key twice: one map of entries has one file. */
  lemma UpdatedIsCanonical(w: World, ms: seq<Mutant>, prior: seq<Entry>)
    ensures CanonicalEntries(Updated(w, ms, prior)) && DistinctKeys(Updated(w, ms, prior))
    ensures forall i, j | 0 <= i < j < |Updated(w, ms, prior)| ::
      var a, b := Updated(w, ms, prior)[i].key, Updated(w, ms, prior)[j].key;
      StrLess(a.relFile, b.relFile) || (a.relFile == b.relFile
        && (a.line < b.line || (a.line == b.line
        && (a.col < b.col || (a.col == b.col
        && (a.startOffset < b.startOffset || (a.startOffset == b.startOffset
        && (StrLess(a.typ, b.typ) || (a.typ == b.typ
        && (StrLess(a.original, b.original) || (a.original == b.original && StrLess(a.replacement, b.replacement))))))))))))
  {
    MergedKeyed(w, ms, prior);
    EmitHolds(Merged(w, ms, prior));
  }

  // ----- resuming -----

  /** The same mutant, discovered anew. */
  predicate Rediscovered(again: Mutant, m: Mutant) {
    again.status == Pending && KeyOf(again) == KeyOf(m)
  }

  /** What the file keeps of a duration. */
  function ToMillisecond(d: nat): nat {
    d / 1_000_000 * 1_000_000
  }

  /** Its digests in another run are what they were. */
  predicate Unchanged(w: World, m: Mutant, w': World, again: Mutant) {
    && Prod(w', again) == Prod(w, m) && Pkg(w', again) == Pkg(w, m)
    && (NeedsTestsHash(m.status) ==> Tests(w', again) == Tests(w, m))
  }

  /**
   Over unchanged files a lookup restores what an update recorded, the duration to the millisecond, unless a later
   mutant was recorded under the same key.
   */
  lemma LookupRestores(w: World, ms: seq<Mutant>, prior: seq<Entry>, i: nat, w': World, again: Mutant)
    requires i < |ms| && Recorded(w, ms[i]) && Rediscovered(again, ms[i]) && Unchanged(w, ms[i], w', again)
    requires NeedsTestsHash(ms[i].status) ==> Tests(w, ms[i]).Ok?
    requires LastRecorded(w, ms, KeyOf(ms[i])) == i
    ensures LookedUp(w', Updated(w, ms, prior), again) == again.(
        status := ms[i].status,
        duration := ToMillisecond(ms[i].duration),
        rechecked := ms[i].rechecked,
        fromCache := true)
  {
    FreshAt(w, ms, KeyOf(ms[i]));
    OwnEntryIsFound(w, ms, prior, KeyOf(ms[i]));
    EntryMatches(w, ms[i], w', again);
  }

  /** The entry this run wrote for a key is the one the next lookup finds. */
  lemma OwnEntryIsFound(w: World, ms: seq<Mutant>, prior: seq<Entry>, k: Key)
    requires k in Fresh(w, ms)
    ensures var index := Index(Updated(w, ms, prior)); k in index && index[k] == Fresh(w, ms)[k]
  {
    CarryOverAt(w, Fresh(w, ms), prior, k);
    MergedKeyed(w, ms, prior);
    EmitHolds(Merged(w, ms, prior));
    IndexOfDistinct(Updated(w, ms, prior), Merged(w, ms, prior)[k]);
  }

  lemma EntryMatches(w: World, m: Mutant, w': World, again: Mutant)
    requires Recorded(w, m) && Unchanged(w, m, w', again)
    requires NeedsTestsHash(m.status) ==> Tests(w, m).Ok?
    ensures Matches(w', again, EntryOf(w, m)) && ParseStatus(EntryOf(w, m).status) == m.status
  {
    StatusRoundTrip(m.status, "");
  }

  /** Of mutants of one run recorded under one key the last one's outcome stays: another's is lost wherever it differs. */
  lemma SharedKeyLoses(w: World, ms: seq<Mutant>, prior: seq<Entry>, i: nat, w': World, again: Mutant)
    requires i < |ms| && Recorded(w, ms[i]) && Rediscovered(again, ms[i])
    requires var j := LastRecorded(w, ms, KeyOf(ms[i])); j > i && ms[j].status != ms[i].status
    ensures LookedUp(w', Updated(w, ms, prior), again).status != ms[i].status
  {
    var j := LastRecorded(w, ms, KeyOf(ms[i]));
    FreshAt(w, ms, KeyOf(ms[i]));
    OwnEntryIsFound(w, ms, prior, KeyOf(ms[i]));
    StatusRoundTrip(ms[j].status, "");
  }

  // ----- carrying over -----

  /** An entry this run does not write is carried over exactly when what its relative file names under the project still has its digests. */
  lemma CarriedExactly(w: World, e: Entry, prior: seq<Entry>, ms: seq<Mutant>)
    requires DistinctKeys(prior) && e in prior && e.key !in Fresh(w, ms)
    ensures e in Updated(w, ms, prior) <==> Keep(w, e)
    ensures var abs := Join(w.projectDir, e.key.relFile);
      var file, pkg := FileDigest(w.host, w.memo, abs), PkgDigest(w.host, w.memo, Dir(abs));
      && (file == NotExist || pkg == NotExist ==> e !in Updated(w, ms, prior))
      && (file.Ok? && pkg.Ok? ==> (e in Updated(w, ms, prior) <==> file.value == e.prodHash && pkg.value == e.pkgHash))
      && ((file == Unreadable && pkg != NotExist) || (pkg == Unreadable && file != NotExist) ==> e in Updated(w, ms, prior))
  {
    var i := FirstKept(w, prior, e.key);
    CarryOverAt(w, Fresh(w, ms), prior, e.key);
    MergedKeyed(w, ms, prior);
    EmitHolds(Merged(w, ms, prior));
    var j :| 0 <= j < |prior| && prior[j] == e;
    assert i < |prior| ==> i == j;
  }

  /** A cacheable outcome whose files hash is written, stamped with what they hash to, unless a later mutant has its key. */
  lemma OwnOutcomeIsWritten(w: World, ms: seq<Mutant>, prior: seq<Entry>, i: nat, status: string)
    requires i < |ms| && forall j | i < j < |ms| :: KeyOf(ms[j]) != KeyOf(ms[i])
    requires (ms[i].status == Killed && status == "KILLED") || (ms[i].status == Lived && status == "LIVED")
      || (ms[i].status == TimedOut && status == "TIMED OUT") || (ms[i].status == NotViable && status == "NOT VIABLE")
      || (ms[i].status == Equivalent && status == "EQUIVALENT")
    requires FileDigest(w.host, w.memo, ms[i].file).Ok? && PkgDigest(w.host, w.memo, Dir(ms[i].file)).Ok?
    ensures var m, tests := ms[i], TestsDigest(w.host, w.memo, w.testFiles(ms[i]));
      Entry(Key(m.relFile, m.line, m.col, m.typ, m.startOffset, m.original, m.replacement),
            FileDigest(w.host, w.memo, m.file).value, PkgDigest(w.host, w.memo, Dir(m.file)).value,
            if m.status != NotViable && tests.Ok? then tests.value else "",
            status, m.duration / 1_000_000, m.rechecked) in Updated(w, ms, prior)
  {
    EntryIsStamp(w, ms[i], status);
    RecordedIsWritten(w, ms, prior, i);
  }

  lemma EntryIsStamp(w: World, m: Mutant, status: string)
    requires (m.status == Killed && status == "KILLED") || (m.status == Lived && status == "LIVED")
      || (m.status == TimedOut && status == "TIMED OUT") || (m.status == NotViable && status == "NOT VIABLE")
      || (m.status == Equivalent && status == "EQUIVALENT")
    requires FileDigest(w.host, w.memo, m.file).Ok? && PkgDigest(w.host, w.memo, Dir(m.file)).Ok?
    ensures Recorded(w, m)
    ensures var tests := TestsDigest(w.host, w.memo, w.testFiles(m));
      EntryOf(w, m) == Entry(Key(m.relFile, m.line, m.col, m.typ, m.startOffset, m.original, m.replacement),
            FileDigest(w.host, w.memo, m.file).value, PkgDigest(w.host, w.memo, Dir(m.file)).value,
            if m.status != NotViable && tests.Ok? then tests.value else "",
            status, m.duration / 1_000_000, m.rechecked)
  {
  }

  lemma RecordedIsWritten(w: World, ms: seq<Mutant>, prior: seq<Entry>, i: nat)
    requires i < |ms| && Recorded(w, ms[i]) && forall j | i < j < |ms| :: KeyOf(ms[j]) != KeyOf(ms[i])
    ensures EntryOf(w, ms[i]) in Updated(w, ms, prior)
  {
    var k := KeyOf(ms[i]);
    FreshAt(w, ms, k);
    assert LastRecorded(w, ms, k) == i;
    CarryOverAt(w, Fresh(w, ms), prior, k);
    MergedKeyed(w, ms, prior);
    EmitHolds(Merged(w, ms, prior));
  }

  /** Nothing else is written: every entry is one from before or a mutant's with its five statuses. */
  lemma NothingElseIsWritten(w: World, ms: seq<Mutant>, prior: seq<Entry>, e: Entry)
    requires e in Updated(w, ms, prior)
    ensures e in prior || exists m | m in ms ::
      && e.key == Key(m.relFile, m.line, m.col, m.typ, m.startOffset, m.original, m.replacement)
      && e.status == StatusString(m.status) && m.status in {Killed, Lived, TimedOut, NotViable, Equivalent}
  {
    MergedKeyed(w, ms, prior);
    EmitHolds(Merged(w, ms, prior));
    CarryOverAt(w, Fresh(w, ms), prior, e.key);
    FreshAt(w, ms, e.key);
    if e.key in Fresh(w, ms) { assert ms[LastRecorded(w, ms, e.key)] in ms; }
  }

  /** Two mutants have one key only where they are one mutation at one place. */
  lemma KeysTell(m: Mutant, n: Mutant)
    ensures KeyOf(m) == KeyOf(n) <==>
      && m.relFile == n.relFile && m.line == n.line && m.col == n.col && m.typ == n.typ
      && m.startOffset == n.startOffset && m.original == n.original && m.replacement == n.replacement
  {
  }

  /** None kept, none left. */
  lemma {:induction false} NoneCarried(w: World, es: seq<Entry>, ms: seq<Mutant>)
    requires forall e | e in es :: !Keep(w, e)
    ensures Updated(w, ms, es) == Updated(w, ms, [])
  {
    NoneMerged(w, Fresh(w, ms), es);
  }

  lemma {:induction false} NoneMerged(w: World, own: map<Key, Entry>, es: seq<Entry>)
    requires forall e | e in es :: !Keep(w, e)
    ensures CarryOver(w, own, es) == own
  {
    if es != [] {
      assert es[|es| - 1] in es && forall e | e in es[..|es| - 1] :: e in es;
      NoneMerged(w, own, es[..|es| - 1]);
    }
  }

  // ----- worlds that hash alike -----

  /** Every digest is the same in both. */
  ghost predicate Alike(w: World, w': World) {
    && w.testFiles == w'.testFiles && w.projectDir == w'.projectDir
    && (forall p :: FileDigest(w.host, w.memo, p) == FileDigest(w'.host, w'.memo, p))
    && (forall dir :: PkgDigest(w.host, w.memo, dir) == PkgDigest(w'.host, w'.memo, dir))
    && (forall paths :: TestsDigest(w.host, w.memo, paths) == TestsDigest(w'.host, w'.memo, paths))
  }

  lemma {:induction false} AlikeRecords(w: World, w': World, ms: seq<Mutant>)
    requires Alike(w, w')
    ensures Fresh(w, ms) == Fresh(w', ms)
  {
    if ms != [] { AlikeRecords(w, w', ms[..|ms| - 1]); }
  }

  lemma {:induction false} AlikeCarries(w: World, w': World, own: map<Key, Entry>, prior: seq<Entry>)
    requires Alike(w, w')
    ensures CarryOver(w, own, prior) == CarryOver(w', own, prior)
  {
    if prior != [] { AlikeCarries(w, w', own, prior[..|prior| - 1]); }
  }

  lemma {:induction false} AlikeHits(w: World, w': World, entries: seq<Entry>, ms: seq<Mutant>)
    requires Alike(w, w')
    ensures Hits(w, entries, ms) == Hits(w', entries, ms)
  {
    if ms != [] { AlikeHits(w, w', entries, ms[..|ms| - 1]); }
  }

  /**
   However the disk changes while a run goes on, each of its lookups and updates is the one over a single disk: every
   file as it was when this run's hasher came to it.
   */
  lemma CallsSeeOneDisk(hosts: seq<Host>, memos: seq<Memo>, n: nat, now: Host, testFiles: Mutant -> seq<string>, projectDir: string,
                        entries: seq<Entry>, ms: seq<Mutant>)
    requires Run(hosts, memos) && n < |memos| && forall h | h in hosts :: h.sha == now.sha
    ensures var w, seen := World(now, memos[n], testFiles, projectDir), World(Seen(hosts, memos, n, now), memos[0], testFiles, projectDir);
      && Alike(w, seen)
      && LookedUpAll(w, entries, ms) == LookedUpAll(seen, entries, ms) && Hits(w, entries, ms) == Hits(seen, entries, ms)
      && Updated(w, ms, entries) == Updated(seen, ms, entries)
  {
    var w, seen := World(now, memos[n], testFiles, projectDir), World(Seen(hosts, memos, n, now), memos[0], testFiles, projectDir);
    forall p ensures FileDigest(w.host, w.memo, p) == FileDigest(seen.host, seen.memo, p) { OneDisk(hosts, memos, n, now, p, "", []); }
    forall dir ensures PkgDigest(w.host, w.memo, dir) == PkgDigest(seen.host, seen.memo, dir) { OneDisk(hosts, memos, n, now, "", dir, []); }
    forall ps ensures TestsDigest(w.host, w.memo, ps) == TestsDigest(seen.host, seen.memo, ps) { OneDisk(hosts, memos, n, now, "", "", ps); }
    AlikeCalls(w, seen, entries, ms);
  }

  lemma AlikeCalls(w: World, w': World, entries: seq<Entry>, ms: seq<Mutant>)
    requires Alike(w, w')
    ensures LookedUpAll(w, entries, ms) == LookedUpAll(w', entries, ms) && Hits(w, entries, ms) == Hits(w', entries, ms)
    ensures Updated(w, ms, entries) == Updated(w', ms, entries)
  {
    AlikeHits(w, w', entries, ms);
    AlikeRecords(w, w', ms);
    AlikeCarries(w, w', Fresh(w, ms), entries);
    forall i | 0 <= i < |ms| ensures LookedUp(w, entries, ms[i]) == LookedUp(w', entries, ms[i]) {
      AlikeLooks(w, w', entries, ms[i]);
    }
  }

  lemma AlikeLooks(w: World, w': World, entries: seq<Entry>, m: Mutant)
    requires Alike(w, w')
    ensures LookedUp(w, entries, m) == LookedUp(w', entries, m)
  {
  }

  // ----- the cache in memory -----

  predicate EntryLess(a: Entry, b: Entry) {
    KeyLess(a.key, b.key)
  }

  lemma EntryLessIsWeak()
    ensures WeakOrder(EntryLess)
  {
    KeyLessIsStrictTotal();
    forall a, b, c | !EntryLess(b, a) && !EntryLess(c, b) ensures !EntryLess(c, a) {
      assert a.key == b.key || KeyLess(a.key, b.key);
      assert b.key == c.key || KeyLess(b.key, c.key);
    }
  }

  /** Sorting a map's entries, met in any order, by their keys gives the one file `Emit` describes. */
  lemma SortEmits(m: map<Key, Entry>, es: seq<Entry>)
    requires KeyedByKey(m) && DistinctKeys(es)
    requires forall e :: e in es <==> e.key in m && m[e.key] == e
    ensures Sort(es, EntryLess) == Emit(m)
  {
    var s := Sort(es, EntryLess);
    EntryLessIsWeak();
    SortSorts(es, EntryLess);
    KeyLessIsStrictTotal();
    forall e ensures e in s <==> e in es {
      assert e in multiset(s) <==> e in multiset(es);
    }
    forall i, j | 0 <= i < j < |s| ensures KeyLess(s[i].key, s[j].key) {
      SortedKeepsDistinct(es, s, i, j);
    }
    EmitUnique(m, s);
  }

  lemma SortedKeepsDistinct(es: seq<Entry>, s: seq<Entry>, i: nat, j: nat)
    requires DistinctKeys(es) && multiset(s) == multiset(es) && i < j < |s|
    ensures s[i].key != s[j].key
  {
    DistinctPermutation(es, s);
    assert s[i] in multiset(es) && s[j] in multiset(es);
    var a :| 0 <= a < |es| && es[a] == s[i];
    var b :| 0 <= b < |es| && es[b] == s[j];
    assert a != b;
  }

  /** A cache in memory. */
  class EntryCache {
    var entries: seq<Entry>

    constructor (loaded: seq<Entry>)
      ensures entries == loaded
    {
      entries := loaded;
    }

    /** Hashes one mutant's files, cheapest first, and stops at the first that does not match. */
    static method MatchesNow(hasher: Hasher, h: Host, testFiles: Mutant -> seq<string>, m: Mutant, e: Entry, ghost w: World)
        returns (matches: bool)
      requires w.host == h && w.testFiles == testFiles && Grows(h, w.memo, hasher.State())
      modifies hasher`files, hasher`dirs
      ensures matches == Matches(w, m, e)
      ensures Grows(h, w.memo, hasher.State())
    {
      var status := ParseStatus(e.status);
      if !CanReuse(status) {
        return false;
      }
      ghost var m1 := hasher.State();
      GrowsKeepsDigests(h, w.memo, m1, m.file, Dir(m.file), testFiles(m));
      var prod := hasher.File(h, m.file);
      GrowsTransitive(h, w.memo, m1, hasher.State());
      if prod != Ok(e.prodHash) {
        return false;
      }
      ghost var m2 := hasher.State();
      GrowsKeepsDigests(h, w.memo, m2, m.file, Dir(m.file), testFiles(m));
      var pkg := hasher.HashPkgFiles(h, Dir(m.file));
      GrowsTransitive(h, w.memo, m2, hasher.State());
      if pkg != Ok(e.pkgHash) {
        return false;
      }
      if NeedsTestsHash(status) {
        ghost var m3 := hasher.State();
        GrowsKeepsDigests(h, w.memo, m3, m.file, Dir(m.file), testFiles(m));
        var tests := hasher.HashTestFiles(h, testFiles(m));
        GrowsTransitive(h, w.memo, m3, hasher.State());
        if tests != Ok(e.testsHash) {
          return false;
        }
      }
      matches := true;
    }

    method BuildIndex() returns (index: map<Key, Entry>)
      ensures index == Index(entries)
    {
      index := map[];
      for i := 0 to |entries|
        invariant index == Index(entries[..i])
      {
        assert entries[..i + 1][..i] == entries[..i];
        index := index[entries[i].key := entries[i]];
      }
      assert entries[..|entries|] == entries;
    }

    static method LookupOne(m: Mutant, index: map<Key, Entry>, hasher: Hasher, h: Host, testFiles: Mutant -> seq<string>,
                            ghost w: World)
        returns (hit: bool)
      requires w.host == h && w.testFiles == testFiles && Grows(h, w.memo, hasher.State())
      modifies hasher`files, hasher`dirs
      ensures hit == Hit(w, index, m)
      ensures Grows(h, w.memo, hasher.State())
    {
      if m.status != Pending || KeyOf(m) !in index {
        return false;
      }
      hit := MatchesNow(hasher, h, testFiles, m, index[KeyOf(m)], w);
    }

    static method ReplayAt(mutants: array<Mutant>, i: nat, index: map<Key, Entry>, hit: bool, ghost w: World)
      requires i < mutants.Length && hit == Hit(w, index, mutants[i])
      modifies mutants
      ensures mutants[..] == old(mutants[..])[i := if hit then Replayed(old(mutants[i]), index[KeyOf(old(mutants[i]))]) else old(mutants[i])]
    {
      if hit {
        mutants[i] := Replayed(mutants[i], index[KeyOf(mutants[i])]);
      }
    }

    method ReplayAll(mutants: array<Mutant>, hasher: Hasher, h: Host, testFiles: Mutant -> seq<string>, ghost w: World)
        returns (hits: nat)
      requires w.host == h && w.testFiles == testFiles && Grows(h, w.memo, hasher.State())
      modifies mutants, hasher`files, hasher`dirs
      ensures mutants[..] == LookedUpAll(w, entries, old(mutants[..]))
      ensures hits == Hits(w, entries, old(mutants[..]))
      ensures Grows(h, w.memo, hasher.State())
    {
      var index := BuildIndex();
      hits := 0;
      ghost var was := mutants[..];
      for i := 0 to mutants.Length
        invariant Grows(h, w.memo, hasher.State())
        invariant mutants[..] == LookedUpTo(w, entries, was, i)
        invariant hits == Hits(w, entries, was[..i])
      {
        assert mutants[i] == mutants[..][i] == was[i];
        assert was[..i + 1][..i] == was[..i];
        LookedUpStep(w, entries, was, i);
        var hit := LookupOne(mutants[i], index, hasher, h, testFiles, w);
        ReplayAt(mutants, i, index, hit, w);
        if hit {
          hits := hits + 1;
        }
      }
      assert was[..mutants.Length] == was;
    }

    /** Replays cached outcomes onto the pending mutants, in place, and counts them. */
    method Lookup(mutants: array<Mutant>, hasher: Hasher, h: Host, testFiles: Mutant -> seq<string>, ghost w: World)
        returns (hits: nat)
      requires w.host == h && w.testFiles == testFiles && Grows(h, w.memo, hasher.State())
      modifies mutants, hasher`files, hasher`dirs
      ensures mutants[..] == LookedUpAll(w, entries, old(mutants[..]))
      ensures hits == Hits(w, entries, old(mutants[..]))
      ensures var was, now := old(mutants[..]), mutants[..];
        hits == |set i: nat | i < |was| && was[i].status == Pending && now[i].status != Pending|
      ensures Grows(h, w.memo, hasher.State())
    {
      ghost var was := mutants[..];
      hits := ReplayAll(mutants, hasher, h, testFiles, w);
      HitsAreReplays(w, entries, was);
      ghost var now := mutants[..];
      assert Replays(was, now) == set i: nat | i < |was| && was[i].status == Pending && now[i].status != Pending;
    }

    /** The entry a mutant is recorded as, none when its outcome is not cacheable or its files do not hash. */
    static method EntryNow(m: Mutant, hasher: Hasher, h: Host, testFiles: Mutant -> seq<string>, ghost w: World)
        returns (recorded: bool, e: Entry)
      requires w.host == h && w.testFiles == testFiles && Grows(h, w.memo, hasher.State())
      modifies hasher`files, hasher`dirs
      ensures recorded == Recorded(w, m)
      ensures recorded ==> e == EntryOf(w, m)
      ensures Grows(h, w.memo, hasher.State())
    {
      recorded, e := false, Entry(KeyOf(m), "", "", "", StatusString(m.status), m.duration / 1_000_000, m.rechecked);
      if !CanReuse(m.status) {
        return;
      }
      ghost var m1 := hasher.State();
      GrowsKeepsDigests(h, w.memo, m1, m.file, Dir(m.file), testFiles(m));
      var prod := hasher.File(h, m.file);
      GrowsTransitive(h, w.memo, m1, hasher.State());
      if !prod.Ok? {
        return;
      }
      ghost var m2 := hasher.State();
      GrowsKeepsDigests(h, w.memo, m2, m.file, Dir(m.file), testFiles(m));
      var pkg := hasher.HashPkgFiles(h, Dir(m.file));
      GrowsTransitive(h, w.memo, m2, hasher.State());
      if !pkg.Ok? {
        return;
      }
      recorded, e := true, e.(prodHash := prod.value, pkgHash := pkg.value);
      if NeedsTestsHash(m.status) {
        ghost var m3 := hasher.State();
        GrowsKeepsDigests(h, w.memo, m3, m.file, Dir(m.file), testFiles(m));
        var tests := hasher.HashTestFiles(h, testFiles(m));
        GrowsTransitive(h, w.memo, m3, hasher.State());
        if tests.Ok? {
          e := e.(testsHash := tests.value);
        }
      }
    }

    /** This run's entries, by key. */
    static method Record(ms: seq<Mutant>, hasher: Hasher, h: Host, testFiles: Mutant -> seq<string>, ghost w: World)
        returns (own: map<Key, Entry>)
      requires w.host == h && w.testFiles == testFiles && Grows(h, w.memo, hasher.State())
      modifies hasher`files, hasher`dirs
      ensures own == Fresh(w, ms)
      ensures Grows(h, w.memo, hasher.State())
    {
      own := map[];
      for i := 0 to |ms|
        invariant Grows(h, w.memo, hasher.State())
        invariant own == Fresh(w, ms[..i])
      {
        assert ms[..i + 1][..i] == ms[..i];
        var recorded, e := EntryNow(ms[i], hasher, h, testFiles, w);
        if recorded {
          own := own[e.key := e];
        }
      }
      assert ms[..|ms|] == ms;
    }

    static method KeepNow(hasher: Hasher, h: Host, projectDir: string, e: Entry, ghost w: World) returns (keep: bool)
      requires w.host == h && w.projectDir == projectDir && Grows(h, w.memo, hasher.State())
      modifies hasher`files, hasher`dirs
      ensures keep == Keep(w, e)
      ensures Grows(h, w.memo, hasher.State())
    {
      var abs := Join(projectDir, e.key.relFile);
      ghost var m1 := hasher.State();
      GrowsKeepsDigests(h, w.memo, m1, abs, Dir(abs), []);
      var file := hasher.File(h, abs);
      GrowsTransitive(h, w.memo, m1, hasher.State());
      ghost var m2 := hasher.State();
      GrowsKeepsDigests(h, w.memo, m2, abs, Dir(abs), []);
      var pkg := hasher.HashPkgFiles(h, Dir(abs));
      GrowsTransitive(h, w.memo, m2, hasher.State());
      if file.NotExist? || pkg.NotExist? {
        keep := false;
      } else if !file.Ok? || !pkg.Ok? {
        keep := true;
      } else {
        keep := file.value == e.prodHash && pkg.value == e.pkgHash;
      }
    }

    /** A map's entries in whatever order the map gives them. */
    static method Values(m: map<Key, Entry>) returns (es: seq<Entry>)
      requires KeyedByKey(m)
      ensures DistinctKeys(es)
      ensures forall e :: e in es <==> e.key in m && m[e.key] == e
    {
      es := [];
      var todo := m.Keys;
      while todo != {}
        invariant todo <= m.Keys
        invariant DistinctKeys(es)
        invariant forall e :: e in es <==> e.key in m && e.key !in todo && m[e.key] == e
      {
        var k :| k in todo;
        todo := todo - {k};
        ghost var front := es;
        es := es + [m[k]];
        assert forall e :: e in es <==> e in front || e == m[k];
        assert forall i | 0 <= i < |front| :: front[i] in front;
      }
    }

    /** Merges this run's outcomes into the entries and drops those whose source has moved on. */
    method Update(ms: seq<Mutant>, hasher: Hasher, h: Host, projectDir: string, testFiles: Mutant -> seq<string>, ghost w: World)
      requires w.host == h && w.testFiles == testFiles && w.projectDir == projectDir && Grows(h, w.memo, hasher.State())
      modifies this, hasher`files, hasher`dirs
      ensures entries == Updated(w, ms, old(entries))
      ensures Grows(h, w.memo, hasher.State())
    {
      var byKey := Record(ms, hasher, h, testFiles, w);
      for i := 0 to |entries|
        invariant Grows(h, w.memo, hasher.State())
        invariant entries == old(entries)
        invariant byKey == CarryOver(w, Fresh(w, ms), entries[..i])
      {
        var prior := entries[i];
        assert entries[..i + 1][..i] == entries[..i];
        if prior.key in byKey {
          continue;
        }
        var keep := KeepNow(hasher, h, projectDir, prior, w);
        if keep {
          byKey := byKey[prior.key := prior];
        }
      }
      assert entries[..|entries|] == entries;
      MergedKeyed(w, ms, entries);
      var merged := Values(byKey);
      SortEmits(byKey, merged);
      entries := Sort(merged, EntryLess);
    }
  }
}
