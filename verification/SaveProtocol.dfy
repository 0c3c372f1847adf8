/** `Save`: the cache reaches its path whole or not at all (internal/cache/cache.go). */
module SaveProtocol {
  import opened Mutants
  import opened Cache
  import opened CacheHistory

  /** The files on disk, by path. */
  type Files = map<string, string>

  datatype Content = Nothing | Bytes(data: string)

  function At(files: Files, path: string): Content {
    if path in files then Bytes(files[path]) else Nothing
  }

  /** Which of the calls a save makes fail, and how many bytes of the encoding its one write gets down. */
  datatype Faults = Faults(
    mkdir: bool,
    create: bool,
    wrote: nat,
    encode: bool,
    close: bool,
    chmod: bool,
    rename: bool,
    remove: bool)

  /** A disk that remembers every state it went through: the process can be killed in any of them. */
  class Disk {
    var files: Files
    ghost var past: seq<Files>

    constructor (files: Files)
      ensures this.files == files && past == [files]
    {
      this.files := files;
      past := [files];
    }

    method Put(path: string, data: string)
      modifies this
      ensures files == old(files)[path := data] && past == old(past) + [files]
    {
      files := files[path := data];
      past := past + [files];
    }

    method Remove(path: string)
      modifies this
      ensures files == old(files) - {path} && past == old(past) + [files]
    {
      files := files - {path};
      past := past + [files];
    }

    method Rename(from: string, to: string)
      requires from in files
      modifies this
      ensures files == (old(files) - {from})[to := old(files)[from]] && past == old(past) + [files]
    {
      files := (files - {from})[to := files[from]];
      past := past + [files];
    }
  }

  /** In every state since `past` began the target held what it held before, or, if the save lands, all of the new data. */
  ghost predicate WholeAlways(past: seq<Files>, path: string, before: Content, landed: bool, data: string) {
    forall i | 0 <= i < |past| :: At(past[i], path) == before || (landed && At(past[i], path) == Bytes(data))
  }

  /** `tmp` is the name the system picks for the temporary file: one not in use. */
  method Save(disk: Disk, data: string, path: string, tmp: string, faults: Faults) returns (ok: bool)
    requires tmp !in disk.files && tmp != path
    modifies disk
    ensures |old(disk.past)| <= |disk.past| && disk.past[..|old(disk.past)|] == old(disk.past)
    ensures WholeAlways(disk.past[|old(disk.past)|..], path, At(old(disk.files), path), ok && path != "", data)
    ensures path != "" && ok ==> disk.files == old(disk.files)[path := data]
    ensures path == "" ==> ok && disk.files == old(disk.files)
    ensures !ok ==> disk.files - {tmp} == old(disk.files)
    ensures !ok && !faults.remove ==> disk.files == old(disk.files)
    ensures !ok ==> faults.mkdir || faults.create || faults.encode || faults.wrote < |data| || faults.close
                    || faults.chmod || faults.rename
  {
    if path == "" {
      return true;
    }
    if faults.mkdir {
      return false;
    }
    if faults.create {
      return false;
    }
    ghost var was := disk.files;
    disk.Put(tmp, "");
    var wrote := if faults.wrote < |data| then faults.wrote else |data|;
    disk.Put(tmp, data[..wrote]);
    if faults.encode || wrote < |data| || faults.close || faults.chmod || faults.rename {
      if !faults.remove {
        disk.Remove(tmp);
      }
      return false;
    }
    assert data[..wrote] == data;
    assert disk.files - {tmp} == was;
    disk.Rename(tmp, path);
    ok := true;
  }

  // ----- kill and resume -----

  /** JSON, taken to give back what it was given. */
  datatype Codec = Codec(encode: CacheFile -> string, decode: string -> CacheFile)

  ghost predicate Faithful(codec: Codec) {
    forall file: CacheFile | file.Written? :: codec.decode(codec.encode(file)) == file
  }

  function Stored(codec: Codec, files: Files, path: string): CacheFile {
    match At(files, path)
    case Nothing => Absent
    case Bytes(data) => codec.decode(data)
  }

  /** The disk between the saves of a run's flushes, each of which landed whole or left the target alone. */
  ghost predicate Saves(states: seq<Files>, datas: seq<string>, path: string) {
    && |states| == |datas| + 1
    && forall i | 0 <= i < |datas| ::
      At(states[i + 1], path) == At(states[i], path) || At(states[i + 1], path) == Bytes(datas[i])
  }

  ghost predicate Holds(states: seq<Files>, path: string, c: Content) {
    exists k | 0 <= k < |states| :: At(states[k], path) == c
  }

  /** Each state's target is what it was between some two of the saves. */
  ghost predicate Between(past: seq<Files>, states: seq<Files>, path: string) {
    forall i | 0 <= i < |past| :: Holds(states, path, At(past[i], path))
  }

  lemma BetweenOn(past: seq<Files>, states: seq<Files>, more: seq<Files>, path: string, landed: bool, data: string, now: Files)
    requires Between(past, states, path) && states != []
    requires WholeAlways(more, path, At(states[|states| - 1], path), landed, data) && (landed ==> At(now, path) == Bytes(data))
    ensures Between(past + more, states + [now], path)
  {
    var all, states', n := past + more, states + [now], |states|;
    forall i | 0 <= i < |all| ensures Holds(states', path, At(all[i], path)) {
      if i < |past| {
        assert Holds(states, path, At(past[i], path));
        var k :| 0 <= k < n && At(states[k], path) == At(past[i], path);
        assert states'[k] == states[k];
      } else {
        assert all[i] == more[i - |past|];
        assert states'[n - 1] == states[n - 1] && states'[n] == now;
      }
    }
  }

  /**
   A run's saves, whatever fails in each. Killed in any state the disk goes through, the run leaves the target as it is
   between two of them. `unused` is how the system picks names of temporary files.
   */
  method SaveAll(disk: Disk, datas: seq<string>, path: string, unused: Files -> string, faults: seq<Faults>)
    returns (ghost states: seq<Files>)
    requires |faults| == |datas| && forall files: Files :: unused(files) !in files && unused(files) != path
    modifies disk
    ensures Saves(states, datas, path) && states[0] == old(disk.files) && states[|datas|] == disk.files
    ensures |old(disk.past)| <= |disk.past| && disk.past[..|old(disk.past)|] == old(disk.past)
    ensures Between(disk.past[|old(disk.past)|..], states, path)
  {
    states := [disk.files];
    ghost var begin := |disk.past|;
    for n := 0 to |datas|
      invariant |states| == n + 1 && states[0] == old(disk.files) && states[n] == disk.files
      invariant Saves(states, datas[..n], path)
      invariant begin <= |disk.past| && disk.past[..begin] == old(disk.past)
      invariant Between(disk.past[begin..], states, path)
    {
      ghost var was, past := disk.files, disk.past;
      var ok := Save(disk, datas[n], path, unused(disk.files), faults[n]);
      ghost var more := disk.past[|past|..];
      assert disk.past == past + more;
      assert disk.past[begin..] == past[begin..] + more;
      BetweenOn(past[begin..], states, more, path, ok && path != "", datas[n], disk.files);
      assert At(disk.files, path) == At(was, path) || At(disk.files, path) == Bytes(datas[n]) by {
        if !ok { FailedLeaves(was, disk.files, unused(was), path); }
      }
      SavesSnoc(states, datas, n, path, disk.files);
      states := states + [disk.files];
    }
    assert datas[..|datas|] == datas;
  }

  /** But for its temporary file a failed save changes nothing. */
  lemma FailedLeaves(was: Files, now: Files, tmp: string, path: string)
    requires now - {tmp} == was && tmp != path
    ensures At(now, path) == At(was, path)
  {
    assert path in now <==> path in now - {tmp};
    assert path in now ==> now[path] == (now - {tmp})[path];
  }

  lemma SavesSnoc(states: seq<Files>, datas: seq<string>, n: nat, path: string, now: Files)
    requires n < |datas| && Saves(states, datas[..n], path)
    requires At(now, path) == At(states[n], path) || At(now, path) == Bytes(datas[n])
    ensures Saves(states + [now], datas[..n + 1], path)
  {
    var states' := states + [now];
    forall i | 0 <= i < n + 1
      ensures At(states'[i + 1], path) == At(states'[i], path) || At(states'[i + 1], path) == Bytes(datas[..n + 1][i])
    {
      if i < n { assert datas[..n][i] == datas[..n + 1][i] && states'[i + 1] == states[i + 1]; }
    }
  }

  /** The flush the target holds: the last that landed, or 0 when none has. */
  function LastLanded(states: seq<Files>, datas: seq<string>, path: string, n: nat): (k: nat)
    requires |states| == |datas| + 1 && n <= |datas|
    ensures k <= n
  {
    if n == 0 then 0
    else if At(states[n], path) == At(states[n - 1], path) then LastLanded(states, datas, path, n - 1)
    else n
  }

  lemma {:induction false} TargetHoldsLastLanded(states: seq<Files>, datas: seq<string>, path: string, n: nat)
    requires Saves(states, datas, path) && n <= |datas|
    ensures var k := LastLanded(states, datas, path, n);
      At(states[n], path) == if k == 0 then At(states[0], path) else Bytes(datas[k - 1])
  {
    if n > 0 {
      TargetHoldsLastLanded(states, datas, path, n - 1);
      assert At(states[n], path) == At(states[n - 1], path) || At(states[n], path) == Bytes(datas[n - 1]);
    }
  }

  /** The bytes a run's flushes save, one file after another. */
  ghost predicate FlushBytes(codec: Codec, r: RunOf, file: CacheFile, datas: seq<string>) {
    && |datas| == |r.flushes|
    && forall k | 0 <= k < |datas| :: datas[k] == codec.encode(Written(r.id, UpdatedThrough(r.flushes[..k + 1], Load(file, r.id))))
  }

  /** What the target holds after any of the saves reads as the history of runs has it: the run killed at its last landed flush. */
  lemma DiskIsHistory(codec: Codec, r: RunOf, file: CacheFile, states: seq<Files>, datas: seq<string>, path: string, n: nat)
    requires Faithful(codec) && FlushBytes(codec, r, file, datas)
    requires Saves(states, datas, path) && n <= |datas| && Stored(codec, states[0], path) == file
    ensures Stored(codec, states[n], path) == FileAfter(r.(landed := LastLanded(states, datas, path, n)), file)
  {
    TargetHoldsLastLanded(states, datas, path, n);
  }

  /**
   Kill a run after any number of saves. The next run over unchanged files takes back every outcome the last landed
   flush recorded, with its re-check flag and its duration to the millisecond.
   */
  lemma KillAndResume(codec: Codec, r: RunOf, file: CacheFile, states: seq<Files>, datas: seq<string>, path: string, n: nat, i: nat,
                      w': World, again: Mutant)
    requires Faithful(codec) && FlushBytes(codec, r, file, datas)
    requires Saves(states, datas, path) && n <= |datas| && Stored(codec, states[0], path) == file
    requires 0 < LastLanded(states, datas, path, n)
    requires var fl := r.flushes[LastLanded(states, datas, path, n) - 1];
      && i < |fl.slice| && Recorded(fl.world, fl.slice[i]) && Rediscovered(again, fl.slice[i]) && Unchanged(fl.world, fl.slice[i], w', again)
      && (NeedsTestsHash(fl.slice[i].status) ==> Tests(fl.world, fl.slice[i]).Ok?)
      && LastRecorded(fl.world, fl.slice, KeyOf(fl.slice[i])) == i
    ensures var m := r.flushes[LastLanded(states, datas, path, n) - 1].slice[i];
      LookedUp(w', Load(Stored(codec, states[n], path), r.id), again) == again.(
        status := m.status,
        duration := ToMillisecond(m.duration),
        rechecked := m.rechecked,
        fromCache := true)
  {
    var k := LastLanded(states, datas, path, n);
    var fl := r.flushes[k - 1];
    DiskIsHistory(codec, r, file, states, datas, path, n);
    UpdatedSnoc(r.flushes, k - 1, Load(file, r.id));
    LookupRestores(fl.world, fl.slice, UpdatedThrough(r.flushes[..k - 1], Load(file, r.id)), i, w', again);
  }
}
