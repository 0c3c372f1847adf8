/**
 A whole run and the cache file (`runMutants` and `checkpoint` in pipeline.go): what the pool and then the equivalence
 pass leave in the shared slice at any moment, flushed any number of times, leaves no trace behind the final flush.
 */
module Checkpointing {
  import opened Mutants
  import opened Cache
  import opened CacheHistory
  import Pool
  import Tce

  /** Testing a mutant changes its outcome, not what it is. */
  ghost predicate KeepsIdentity(tested: Mutant -> Mutant) {
    forall m :: KeyOf(tested(m)) == KeyOf(m) && tested(m).file == m.file
  }

  lemma CompletesTransitive(a: seq<Mutant>, b: seq<Mutant>, c: seq<Mutant>)
    requires Completes(a, b) && Completes(b, c)
    ensures Completes(a, c)
  {
    forall i | 0 <= i < |a|
      ensures KeyOf(a[i]) == KeyOf(c[i]) && a[i].file == c[i].file && (CanReuse(a[i].status) ==> CanReuse(c[i].status))
    {
      assert KeyOf(a[i]) == KeyOf(b[i]) && a[i].file == b[i].file;
    }
  }

  lemma CompletesReflexive(a: seq<Mutant>)
    ensures Completes(a, a)
  {
  }

  /** Links of a chain make a chain. */
  lemma {:induction false} ChainCompletes(slices: seq<seq<Mutant>>, n: nat, m: nat)
    requires n <= m < |slices| && forall i: nat | i + 1 < |slices| :: Completes(slices[i], slices[i + 1])
    ensures Completes(slices[n], slices[m])
  {
    if n == m {
      CompletesReflexive(slices[n]);
    } else {
      ChainCompletes(slices, n, m - 1);
      assert Completes(slices[m - 1], slices[m - 1 + 1]);
      CompletesTransitive(slices[n], slices[m - 1], slices[m]);
    }
  }

  lemma OthersWriteNothing(r: Pool.Run, s: Pool.State, a: Pool.Action)
    requires Pool.Enabled(r, s, a) && !a.Collect?
    ensures Pool.Step(r, s, a).mutants == s.mutants
  {
  }

  lemma CollectCompletes(r: Pool.Run, s: Pool.State)
    requires Pool.GoodRun(r) && KeepsIdentity(r.tested) && Pool.Conserved(r, s) && Pool.Faithful(r, s) && s.results != []
    requires Pool.Enabled(r, s, Pool.Collect)
    ensures Completes(s.mutants, Pool.Step(r, s, Pool.Collect).mutants)
  {
    var q := s.results[0];
    Pool.CollectFinds(r, s);
    assert Pool.Outcome(r, s.cancelled, q.idx, q.mutant);
    assert s.mutants[q.idx] == r.initial[q.idx];
    Pool.ResultCounted(s.results, 0);
    assert Pool.Everywhere(s, q.idx) > 0 && q.idx in r.pending;
  }

  lemma PoolStepCompletes(r: Pool.Run, states: seq<Pool.State>, actions: seq<Pool.Action>, workers: nat, i: nat)
    requires Pool.GoodRun(r) && KeepsIdentity(r.tested) && Pool.Execution(r, states, actions, workers) && i < |actions|
    ensures Completes(states[i].mutants, states[i + 1].mutants)
  {
    Pool.ReachableInv(r, states, actions, workers, i);
    var s, a := states[i], actions[i];
    assert Pool.Enabled(r, s, a);
    if a.Collect? {
      CollectCompletes(r, s);
    } else {
      OthersWriteNothing(r, s, a);
      CompletesReflexive(s.mutants);
    }
  }

  /** Of two moments of the pool's run the later has every cacheable outcome the earlier has. */
  lemma PoolCompletes(r: Pool.Run, states: seq<Pool.State>, actions: seq<Pool.Action>, workers: nat, n: nat, m: nat)
    requires Pool.GoodRun(r) && KeepsIdentity(r.tested) && Pool.Execution(r, states, actions, workers) && n <= m < |states|
    ensures Completes(states[n].mutants, states[m].mutants)
  {
    var slices := seq(|states|, i requires 0 <= i < |states| => states[i].mutants);
    forall i: nat | i + 1 < |slices| ensures Completes(slices[i], slices[i + 1]) {
      PoolStepCompletes(r, states, actions, workers, i);
    }
    ChainCompletes(slices, n, m);
  }

  lemma TceStepCompletes(r: Tce.Run, s: Tce.State, a: Tce.Action)
    requires Tce.Enabled(r, s, a)
    ensures Completes(s.mutants, Tce.Step(r, s, a).mutants)
  {
  }

  lemma TceCompletes(r: Tce.Run, states: seq<Tce.State>, actions: seq<Tce.Action>, workers: int, n: nat, m: nat)
    requires Tce.Execution(r, states, actions, workers) && n <= m < |states|
    ensures Completes(states[n].mutants, states[m].mutants)
  {
    var slices := seq(|states|, i requires 0 <= i < |states| => states[i].mutants);
    forall i: nat | i + 1 < |slices| ensures Completes(slices[i], slices[i + 1]) {
      assert Tce.Enabled(r, states[i], actions[i]);
      TceStepCompletes(r, states[i], actions[i]);
    }
    ChainCompletes(slices, n, m);
  }

  /** A slice as some state of the pool, or of the equivalence pass behind it, holds it. */
  ghost predicate Seen(pool: seq<Pool.State>, tce: seq<Tce.State>, slice: seq<Mutant>) {
    || (exists n: nat :: n < |pool| && pool[n].mutants == slice)
    || (exists n: nat :: n < |tce| && tce[n].mutants == slice)
  }

  /**
   Every interleaving of the pool, then of the equivalence pass, cancelled or not: flushes at any moments, of whatever
   the slice then holds, change nothing of what the final flush leaves in the cache. Without detection the pass has no steps.
   */
  lemma RunCheckpointsAreTransparent(w: World, r: Pool.Run, pool: seq<Pool.State>, did: seq<Pool.Action>, workers: nat,
                                     t: Tce.Run, tce: seq<Tce.State>, did': seq<Tce.Action>, checkers: int,
                                     slices: seq<seq<Mutant>>, prior: seq<Entry>)
    requires Pool.GoodRun(r) && KeepsIdentity(r.tested) && Pool.Execution(r, pool, did, workers)
    requires Tce.Execution(t, tce, did', checkers) && t.initial == pool[|did|].mutants
    requires forall slice | slice in slices :: Seen(pool, tce, slice)
    ensures var final := tce[|did'|].mutants; Updated(w, final, UpdatedBy(w, slices, prior)) == Updated(w, final, prior)
  {
    var final := tce[|did'|].mutants;
    forall slice | slice in slices ensures Completes(slice, final) {
      if n: nat :| n < |pool| && pool[n].mutants == slice {
        PoolCompletes(r, pool, did, workers, n, |did|);
        TceCompletes(t, tce, did', checkers, 0, |did'|);
        CompletesTransitive(slice, t.initial, final);
      } else {
        var n: nat :| n < |tce| && tce[n].mutants == slice;
        TceCompletes(t, tce, did', checkers, n, |did'|);
      }
    }
    CheckpointsAreTransparent(w, slices, final, prior);
  }

  // ----- a run and its verdicts -----

  /** The pool's tests are the oracle's verdicts. */
  ghost predicate TestsAs(o: Oracle, r: RunOf, tested: Mutant -> Mutant) {
    forall m: Mutant | m.status == Pending :: SameMutant(m, tested(m)) && tested(m).status == AfterTest(o, r, m)
  }

  /** The equivalence pass's checks are the oracle's, of the disk each is made on. */
  ghost predicate ChecksAs(o: Oracle, r: RunOf, equal: Mutant -> bool) {
    forall m: Mutant :: equal(m) <==>
      var f := Measured(r.world, r.checked(m.id), m); o.equivalent(r.id, KeyOf(m), f.prod, f.files, f.embeds)
  }

  /** Whatever the pool leaves in the slice at any moment is a slice the cache's history allows to be flushed. */
  lemma PoolLeavesSlices(o: Oracle, r: RunOf, p: Pool.Run, states: seq<Pool.State>, actions: seq<Pool.Action>, workers: nat, n: nat)
    requires Pool.GoodRun(p) && Pool.Execution(p, states, actions, workers) && n < |states| && TestsAs(o, r, p.tested)
    ensures Slice(o, r, p.initial, states[n].mutants)
  {
    var s := states[n];
    Pool.ReachableInv(p, states, actions, workers, n);
    Pool.PoolIsSafe(p, states, actions, workers, n);
    forall i: nat | i < |s.mutants| ensures Reaches(o, r, p.initial[i], s.mutants[i]) {
      if i in s.written && i in p.pending {
        var k :| 0 <= k < |s.written| && s.written[k] == i;
        assert Pool.Outcome(p, s.cancelled, s.written[k], s.reported[k]);
      }
    }
  }

  /** What the equivalence pass may turn a mutant into. */
  lemma FlipReaches(o: Oracle, r: RunOf, m: Mutant, m': Mutant)
    requires Reaches(o, r, m, m') && m'.status == Lived && r.detect && StableTests(r.world)
    requires var f := Measured(r.world, r.checked(m'.id), m'); o.equivalent(r.id, KeyOf(m'), f.prod, f.files, f.embeds)
    ensures Reaches(o, r, m, m'.(status := Equivalent))
  {
    SameFacts(r, r.world, m, m');
  }

  /** And so is whatever the equivalence pass leaves. */
  lemma TceLeavesSlices(o: Oracle, r: RunOf, ms: seq<Mutant>, t: Tce.Run, states: seq<Tce.State>, actions: seq<Tce.Action>, workers: int, n: nat)
    requires Tce.GoodRun(t) && Tce.Execution(t, states, actions, workers) && n < |states| && ChecksAs(o, r, t.equal)
    requires Slice(o, r, ms, t.initial) && r.detect && StableTests(r.world)
    ensures Slice(o, r, ms, states[n].mutants)
  {
    var s := states[n];
    Tce.TceIsSafe(t, states, actions, workers, n);
    forall i: nat | i < |s.mutants| ensures Reaches(o, r, ms[i], s.mutants[i]) {
      assert Reaches(o, r, ms[i], t.initial[i]);
      if s.mutants[i] != t.initial[i] { FlipReaches(o, r, ms[i], t.initial[i]); }
    }
  }

  /** One run of the two machines. */
  datatype Phases = Phases(
    pool: Pool.Run,
    tested: seq<Pool.State>,
    did: seq<Pool.Action>,
    workers: nat,
    tce: Tce.Run,
    checked: seq<Tce.State>,
    did': seq<Tce.Action>,
    checkers: int)

  ghost predicate PoolDone(o: Oracle, r: RunOf, ms: seq<Mutant>, k: Phases) {
    && k.pool.initial == ms && k.workers > 0
    && Pool.GoodRun(k.pool) && TestsAs(o, r, k.pool.tested) && Pool.Execution(k.pool, k.tested, k.did, k.workers)
    && k.tested[|k.did|].collectorDone && !k.tested[|k.did|].cancelled
  }

  ghost predicate TceDone(o: Oracle, r: RunOf, k: Phases)
    requires |k.tested| == |k.did| + 1
  {
    && k.tce.initial == k.tested[|k.did|].mutants
    && Tce.GoodRun(k.tce) && ChecksAs(o, r, k.tce.equal) && Tce.Execution(k.tce, k.checked, k.did', k.checkers)
    && Tce.Ended(k.checked[|k.did'|]) && !k.checked[|k.did'|].cancelled
  }

  /** The machines ran on `ms` to their end, undisturbed. */
  ghost predicate Completed(o: Oracle, r: RunOf, ms: seq<Mutant>, k: Phases) {
    PoolDone(o, r, ms, k) && (r.detect ==> TceDone(o, r, k))
  }

  ghost function Final(r: RunOf, k: Phases): seq<Mutant>
    requires |k.tested| == |k.did| + 1 && (r.detect ==> |k.checked| == |k.did'| + 1)
  {
    if r.detect then k.checked[|k.did'|].mutants else k.tested[|k.did|].mutants
  }

  lemma PoolStatuses(o: Oracle, r: RunOf, ms: seq<Mutant>, k: Phases)
    requires PoolDone(o, r, ms, k)
    ensures var done := k.tested[|k.did|].mutants;
      |done| == |ms| && forall i: nat | i < |ms| :: SameMutant(ms[i], done[i]) && done[i].status == AfterTest(o, r, ms[i])
  {
    Pool.PoolIsSafe(k.pool, k.tested, k.did, k.workers, |k.did|);
    Pool.PoolIsComplete(k.pool, k.tested, k.did, k.workers, |k.did|);
    var done := k.tested[|k.did|].mutants;
    forall i: nat | i < |ms| ensures SameMutant(ms[i], done[i]) && done[i].status == AfterTest(o, r, ms[i]) {
      assert i in k.pool.pending <==> ms[i].status == Pending;
    }
  }

  /** The two phases end where the oracle says. */
  lemma CompletedStatuses(o: Oracle, r: RunOf, ms: seq<Mutant>, k: Phases)
    requires Completed(o, r, ms, k) && StableTests(r.world)
    ensures |Final(r, k)| == |ms|
    ensures forall i: nat | i < |ms| :: Final(r, k)[i].status == AfterDetection(o, r, ms[i])
  {
    PoolStatuses(o, r, ms, k);
    if r.detect {
      var done := k.tested[|k.did|].mutants;
      Tce.TceIsComplete(k.tce, k.checked, k.did', k.checkers, |k.did'|);
      forall i: nat | i < |ms| ensures Final(r, k)[i].status == AfterDetection(o, r, ms[i]) {
        assert SameMutant(ms[i], done[i]);
        SameFacts(r, r.world, ms[i], done[i]);
        assert i in k.tce.lived <==> done[i].status == Lived;
      }
    }
  }

  /**
   What a mutant still to be tested ends as: not viable if it does not compile, else by the result of its tests; of the
   survivors, where detection is on, those that compile to the same are equivalent.
   */
  lemma PendingEnds(o: Oracle, r: RunOf, ms: seq<Mutant>, k: Phases, i: nat)
    requires Completed(o, r, ms, k) && StableTests(r.world) && i < |ms| && ms[i].status == Pending && |Final(r, k)| == |ms|
    ensures var m, end := ms[i], Final(r, k)[i].status;
      var f, g := Measured(r.world, r.tested(m.id), m), Measured(r.world, r.checked(m.id), m);
      && (!o.viable(r.id, KeyOf(m), f.prod, f.files, f.embeds) ==> end == NotViable)
      && (o.viable(r.id, KeyOf(m), f.prod, f.files, f.embeds) ==>
          match o.result(r.id, KeyOf(m), f)
          case Kill => end == Killed
          case Expire => end == TimedOut
          case Fail => end == InfraError
          case Survive => end == if r.detect && o.equivalent(r.id, KeyOf(m), g.prod, g.files, g.embeds) then Equivalent else Lived)
  {
    CompletedStatuses(o, r, ms, k);
  }

  /** What the lookup replays, this run would have measured on what it hashed. */
  ghost predicate SteadyReplays(r: RunOf, file: CacheFile) {
    var applied := Applied(r, Load(file, r.id));
    forall i: nat | i < |r.mutants| && applied[i].status != r.mutants[i].status :: Steady(r, r.world, r.mutants[i])
  }

  /**
   End to end: after any history, a run that consults the cache and a run that does not, each tested by its own
   interleaving of workers, report the same status for every mutant.
   */
  lemma RunsAgree(o: Oracle, sha: string -> string, history: seq<RunOf>, now: RunOf, cached: Phases, plain: Phases)
    requires GoodHistory(o, sha, history) && GoodRun(o, sha, now, FileAfterAll(history))
    requires SteadyReplays(now, FileAfterAll(history))
    requires Completed(o, now, Applied(now, Load(FileAfterAll(history), now.id)), cached)
    requires Completed(o, now, now.mutants, plain)
    ensures |Final(now, cached)| == |Final(now, plain)|
    ensures forall i: nat | i < |Final(now, cached)| :: Final(now, cached)[i].status == Final(now, plain)[i].status
  {
    var applied := Applied(now, Load(FileAfterAll(history), now.id));
    CompletedStatuses(o, now, applied, cached);
    CompletedStatuses(o, now, now.mutants, plain);
    forall i: nat | i < |applied| ensures AfterDetection(o, now, applied[i]) == AfterDetection(o, now, now.mutants[i]) {
      CacheIsTransparent(o, sha, history, now, i);
    }
  }
}
