/**
 The equivalence pass as a machine (`Detector.Run` in internal/tce/tce.go): a feeder, workers that share one slice of
 mutants, a lock around writing and reporting, and a context that may be cancelled at any moment.
 */
module Tce {
  import opened Ordering
  import opened Mutants
  import opened WorkOrder
  import opened Counting

  /** Where a worker is with a survivor: between `Holding` and `Leaving` it has the lock. */
  datatype Worker =
    | Waiting
    | Received(idx: nat)
    | Checking(idx: nat)
    | Decided(idx: nat, equal: bool)
    | Holding(idx: nat, equal: bool)
    | Wrote(idx: nat)
    | Leaving
    | Exited

  datatype State = State(
    mutants: seq<Mutant>,
    unfed: seq<nat>,
    closed: bool,
    queue: seq<nat>,
    workers: seq<Worker>,
    holder: int,
    cancelled: bool,
    reported: seq<Mutant>,
    // What has become of positions that left the machine, and every check begun.
    done: seq<nat>,
    dropped: seq<nat>,
    begun: seq<nat>)

  datatype Action =
    | Feed
    | Close
    | Receive(w: nat)
    | WorkEnds(w: nat)
    | Look(w: nat)
    | Decide(w: nat, failed: bool)
    | Lock(w: nat)
    | Write(w: nat)
    | Report(w: nat)
    | Unlock(w: nat)
    | Cancel

  /** The mutants as they came, the survivors among them, and whether an undisturbed check finds a mutant equivalent. */
  datatype Run = Run(initial: seq<Mutant>, lived: seq<nat>, equal: Mutant -> bool)

  ghost predicate GoodRun(r: Run) {
    IsWorkList(r.initial, Lived, r.lived)
  }

  function WorkerCount(workers: int): (n: nat)
    ensures n > 0 && (workers > 0 ==> n == workers)
  {
    if workers < 1 then 1 else workers
  }

  function Start(r: Run, workers: int): State {
    State(r.initial, r.lived, false, [], seq(WorkerCount(workers), i => Waiting), -1, false, [], [], [], [])
  }

  predicate Enabled(r: Run, s: State, a: Action) {
    match a
    case Feed => s.unfed != [] && |s.queue| < |r.lived|
    case Close => s.unfed == [] && !s.closed
    case Receive(w) => w < |s.workers| && s.workers[w].Waiting? && s.queue != []
    case WorkEnds(w) => w < |s.workers| && s.workers[w].Waiting? && s.queue == [] && s.closed
    case Look(w) => w < |s.workers| && s.workers[w].Received?
    case Decide(w, failed) => w < |s.workers| && s.workers[w].Checking? && s.workers[w].idx < |s.mutants| && (failed ==> s.cancelled)
    case Lock(w) => w < |s.workers| && s.workers[w].Decided? && s.holder == -1
    case Write(w) => w < |s.workers| && s.workers[w].Holding? && s.workers[w].idx < |s.mutants|
    case Report(w) => w < |s.workers| && s.workers[w].Wrote? && s.workers[w].idx < |s.mutants|
    case Unlock(w) => w < |s.workers| && s.workers[w].Leaving?
    case Cancel => !s.cancelled
  }

  function Step(r: Run, s: State, a: Action): State
    requires Enabled(r, s, a)
  {
    match a
    case Feed => s.(unfed := s.unfed[1..], queue := s.queue + [s.unfed[0]])
    case Close => s.(closed := true)
    case Receive(w) => s.(queue := s.queue[1..], workers := s.workers[w := Received(s.queue[0])])
    case WorkEnds(w) => s.(workers := s.workers[w := Exited])
    case Look(w) =>
      var i := s.workers[w].idx;
      if s.cancelled then s.(workers := s.workers[w := Exited], dropped := s.dropped + [i])
      else s.(workers := s.workers[w := Checking(i)], begun := s.begun + [i])
    case Decide(w, failed) =>
      var i := s.workers[w].idx;
      s.(workers := s.workers[w := Decided(i, !failed && r.equal(s.mutants[i]))])
    case Lock(w) => s.(workers := s.workers[w := Holding(s.workers[w].idx, s.workers[w].equal)], holder := w)
    case Write(w) =>
      var i := s.workers[w].idx;
      s.(workers := s.workers[w := Wrote(i)],
         mutants := if s.workers[w].equal then s.mutants[i := s.mutants[i].(status := Equivalent)] else s.mutants)
    case Report(w) =>
      var i := s.workers[w].idx;
      s.(workers := s.workers[w := Leaving], reported := s.reported + [s.mutants[i]], done := s.done + [i])
    case Unlock(w) => s.(workers := s.workers[w := Waiting], holder := -1)
    case Cancel => s.(cancelled := true)
  }

  /** Any interleaving: a list of actions, each enabled where it is taken. */
  ghost predicate Execution(r: Run, states: seq<State>, actions: seq<Action>, workers: int) {
    && |states| == |actions| + 1 && states[0] == Start(r, workers)
    && forall i | 0 <= i < |actions| :: Enabled(r, states[i], actions[i]) && states[i + 1] == Step(r, states[i], actions[i])
  }

  /** The feeder has closed the queue and every worker is gone: `Run` goes on to count. */
  predicate Ended(s: State) {
    s.closed && forall w | 0 <= w < |s.workers| :: s.workers[w].Exited?
  }

  // ----- where every position is -----

  predicate Checks(w: Worker, i: nat) {
    (w.Checking? || w.Decided? || w.Holding? || w.Wrote?) && w.idx == i
  }

  predicate Holds(w: Worker, i: nat) {
    (w.Received? && w.idx == i) || Checks(w, i)
  }

  predicate Busy(w: Worker) {
    w.Received? || w.Checking? || w.Decided? || w.Holding? || w.Wrote?
  }

  function Held(ws: seq<Worker>, i: nat): nat {
    if ws == [] then 0 else One(Holds(ws[0], i)) + Held(ws[1..], i)
  }

  function InCheck(ws: seq<Worker>, i: nat): nat {
    if ws == [] then 0 else One(Checks(ws[0], i)) + InCheck(ws[1..], i)
  }

  lemma {:induction false} HeldUpdate(ws: seq<Worker>, w: nat, x: Worker, i: nat)
    requires w < |ws|
    ensures Held(ws[w := x], i) + One(Holds(ws[w], i)) == Held(ws, i) + One(Holds(x, i))
    ensures InCheck(ws[w := x], i) + One(Checks(ws[w], i)) == InCheck(ws, i) + One(Checks(x, i))
  {
    if w == 0 {
      assert ws[w := x][1..] == ws[1..];
    } else {
      HeldUpdate(ws[1..], w - 1, x, i);
      assert ws[w := x][1..] == ws[1..][w - 1 := x];
    }
  }

  lemma {:induction false} HeldBy(ws: seq<Worker>, w: nat, i: nat)
    requires w < |ws| && Holds(ws[w], i)
    ensures Held(ws, i) > 0
  {
    if w > 0 { HeldBy(ws[1..], w - 1, i); }
  }

  lemma {:induction false} CheckedAreHeld(ws: seq<Worker>, i: nat)
    ensures InCheck(ws, i) <= Held(ws, i)
  {
    if ws != [] { CheckedAreHeld(ws[1..], i); }
  }

  lemma {:induction false} ExitedHoldNothing(ws: seq<Worker>, i: nat)
    requires forall w | 0 <= w < |ws| :: ws[w].Exited?
    ensures Held(ws, i) == 0
  {
    if ws != [] { ExitedHoldNothing(ws[1..], i); }
  }

  lemma {:induction false} IdleHoldNothing(n: nat, i: nat)
    ensures var ws := seq(n, k => Waiting); Held(ws, i) == 0 && InCheck(ws, i) == 0
  {
    if n > 0 {
      IdleHoldNothing(n - 1, i);
      assert seq(n, k => Waiting)[1..] == seq(n - 1, k => Waiting);
    }
  }

  /** How often position `i` is anywhere: not yet fed, queued, with a worker, reported, dropped. */
  function Everywhere(s: State, i: nat): nat {
    CountIn(s.unfed, i) + CountIn(s.queue, i) + Held(s.workers, i) + CountIn(s.done, i) + CountIn(s.dropped, i)
  }

  ghost predicate Conserved(r: Run, s: State) {
    && (forall i: nat :: Everywhere(s, i) == One(i in r.lived))
    && (forall i: nat :: CountIn(s.begun, i) == InCheck(s.workers, i) + CountIn(s.done, i))
  }

  /** A step moves a position from one place to another. */
  ghost predicate Flows(s: State, s': State, i: nat) {
    && Everywhere(s', i) == Everywhere(s, i)
    && CountIn(s'.begun, i) + InCheck(s.workers, i) + CountIn(s.done, i)
       == CountIn(s.begun, i) + InCheck(s'.workers, i) + CountIn(s'.done, i)
  }

  lemma FeedFlows(r: Run, s: State, i: nat)
    requires Enabled(r, s, Feed)
    ensures Flows(s, Step(r, s, Feed), i)
  {
    CountAppend(s.queue, s.unfed[0], i);
  }

  lemma ReceiveFlows(r: Run, s: State, w: nat, i: nat)
    requires Enabled(r, s, Receive(w))
    ensures Flows(s, Step(r, s, Receive(w)), i)
  {
    HeldUpdate(s.workers, w, Received(s.queue[0]), i);
  }

  lemma LookFlows(r: Run, s: State, w: nat, i: nat)
    requires Enabled(r, s, Look(w))
    ensures Flows(s, Step(r, s, Look(w)), i)
  {
    var idx := s.workers[w].idx;
    if s.cancelled {
      HeldUpdate(s.workers, w, Exited, i);
      CountAppend(s.dropped, idx, i);
    } else {
      HeldUpdate(s.workers, w, Checking(idx), i);
      CountAppend(s.begun, idx, i);
    }
  }

  lemma ReportFlows(r: Run, s: State, w: nat, i: nat)
    requires Enabled(r, s, Report(w))
    ensures Flows(s, Step(r, s, Report(w)), i)
  {
    HeldUpdate(s.workers, w, Leaving, i);
    CountAppend(s.done, s.workers[w].idx, i);
  }

  /** The steps that leave every position with the worker that has it. */
  lemma StayingFlows(r: Run, s: State, a: Action, i: nat)
    requires Enabled(r, s, a) && (a.Decide? || a.Lock? || a.Write?)
    ensures Flows(s, Step(r, s, a), i)
  {
    HeldUpdate(s.workers, a.w, Step(r, s, a).workers[a.w], i);
  }

  lemma StepFlows(r: Run, s: State, a: Action, i: nat)
    requires Enabled(r, s, a)
    ensures Flows(s, Step(r, s, a), i)
  {
    match a {
      case Feed => FeedFlows(r, s, i);
      case Close =>
      case Receive(w) => ReceiveFlows(r, s, w, i);
      case WorkEnds(w) => HeldUpdate(s.workers, w, Exited, i);
      case Look(w) => LookFlows(r, s, w, i);
      case Report(w) => ReportFlows(r, s, w, i);
      case Unlock(w) => HeldUpdate(s.workers, w, Waiting, i);
      case Cancel =>
      case _ => StayingFlows(r, s, a, i);
    }
  }

  lemma StepConserves(r: Run, s: State, a: Action)
    requires Enabled(r, s, a) && Conserved(r, s)
    ensures Conserved(r, Step(r, s, a))
  {
    var s' := Step(r, s, a);
    forall i: nat ensures Everywhere(s', i) == One(i in r.lived) && CountIn(s'.begun, i) == InCheck(s'.workers, i) + CountIn(s'.done, i) {
      StepFlows(r, s, a, i);
    }
  }

  // ----- the lock -----

  predicate InSection(w: Worker) {
    w.Holding? || w.Wrote? || w.Leaving?
  }

  /** The lock is held by the one worker that is in the locked section, if any is. */
  ghost predicate Locked(s: State) {
    && -1 <= s.holder < |s.workers|
    && forall w | 0 <= w < |s.workers| :: InSection(s.workers[w]) <==> s.holder == w
  }

  lemma StepKeepsLock(r: Run, s: State, a: Action)
    requires Locked(s) && Enabled(r, s, a)
    ensures Locked(Step(r, s, a)) && |Step(r, s, a).workers| == |s.workers|
  {
  }

  // ----- what is written and reported -----

  /** What a mutant becomes when nothing disturbs its check. */
  function Settled(r: Run, m: Mutant): Mutant {
    if r.equal(m) then m.(status := Equivalent) else m
  }

  /** What may be of position `i` once it was written: only what its check found, or, once cancelled, what it was. */
  ghost predicate Outcome(r: Run, cancelled: bool, i: nat, m: Mutant) {
    i < |r.initial| && (m == Settled(r, r.initial[i]) || (cancelled && m == r.initial[i]))
  }

  ghost predicate Untouched(r: Run, s: State, i: nat) {
    i < |s.mutants| && i < |r.initial| && s.mutants[i] == r.initial[i]
  }

  /** What a worker knows of the mutant it has. */
  ghost predicate Knows(r: Run, s: State, w: Worker) {
    match w
    case Received(i) => Untouched(r, s, i)
    case Checking(i) => Untouched(r, s, i)
    case Decided(i, e) => Untouched(r, s, i) && (e == r.equal(r.initial[i]) || (s.cancelled && !e))
    case Holding(i, e) => Untouched(r, s, i) && (e == r.equal(r.initial[i]) || (s.cancelled && !e))
    case Wrote(i) => i < |s.mutants| && Outcome(r, s.cancelled, i, s.mutants[i])
    case _ => true
  }

  ghost predicate Faithful(r: Run, s: State) {
    && |s.mutants| == |r.initial|
    && (forall i: nat | i < |s.mutants| && i !in s.begun :: s.mutants[i] == r.initial[i])
    && (forall w | 0 <= w < |s.workers| :: Knows(r, s, s.workers[w]))
    && |s.reported| == |s.done|
    && (forall k | 0 <= k < |s.done| ::
          Outcome(r, s.cancelled, s.done[k], s.reported[k]) && s.reported[k] == s.mutants[s.done[k]])
  }

  /** No one else has the position a worker has, and it was not reported. */
  lemma HeldByOne(r: Run, s: State, w: nat)
    requires GoodRun(r) && Conserved(r, s) && w < |s.workers| && Busy(s.workers[w])
    ensures var i := s.workers[w].idx;
      && i in r.lived && i !in s.done && i !in s.queue
      && forall v | 0 <= v < |s.workers| && v != w :: !Holds(s.workers[v], i)
  {
    var i := s.workers[w].idx;
    HeldBy(s.workers, w, i);
    CountPositive(s.done, i);
    CountPositive(s.queue, i);
    assert Everywhere(s, i) == One(i in r.lived);
    forall v | 0 <= v < |s.workers| && v != w ensures !Holds(s.workers[v], i) {
      if Holds(s.workers[v], i) {
        HeldUpdate(s.workers, w, Waiting, i);
        HeldBy(s.workers[w := Waiting], v, i);
      }
    }
  }

  lemma ReceiveKeepsFaith(r: Run, s: State, w: nat)
    requires GoodRun(r) && Conserved(r, s) && Faithful(r, s) && Enabled(r, s, Receive(w))
    ensures Faithful(r, Step(r, s, Receive(w)))
  {
    var i := s.queue[0];
    assert Everywhere(s, i) == One(i in r.lived);
    assert CountIn(s.begun, i) == InCheck(s.workers, i) + CountIn(s.done, i);
    CheckedAreHeld(s.workers, i);
    CountPositive(s.begun, i);
  }

  lemma WriteKeepsFaith(r: Run, s: State, w: nat)
    requires GoodRun(r) && Conserved(r, s) && Faithful(r, s) && Enabled(r, s, Write(w))
    ensures Faithful(r, Step(r, s, Write(w)))
  {
    var s', i := Step(r, s, Write(w)), s.workers[w].idx;
    HeldByOne(r, s, w);
    assert Knows(r, s, s.workers[w]);
    forall v | 0 <= v < |s'.workers| ensures Knows(r, s', s'.workers[v]) {
      if v != w { assert s'.workers[v] == s.workers[v] && Knows(r, s, s.workers[v]) && !Holds(s.workers[v], i); }
    }
    assert i in s.begun by {
      CountPositive(s.begun, i);
      assert CountIn(s.begun, i) == InCheck(s.workers, i) + CountIn(s.done, i);
      HeldUpdate(s.workers, w, Waiting, i);
    }
    forall k | 0 <= k < |s'.done|
      ensures Outcome(r, s'.cancelled, s'.done[k], s'.reported[k]) && s'.reported[k] == s'.mutants[s'.done[k]]
    {
      assert s.done[k] in s.done && Outcome(r, s.cancelled, s.done[k], s.reported[k]);
    }
  }

  lemma ReportKeepsFaith(r: Run, s: State, w: nat)
    requires Faithful(r, s) && Enabled(r, s, Report(w))
    ensures Faithful(r, Step(r, s, Report(w)))
  {
    var s' := Step(r, s, Report(w));
    assert Knows(r, s, s.workers[w]);
    forall v | 0 <= v < |s'.workers| ensures Knows(r, s', s'.workers[v]) {
      if v != w { assert Knows(r, s, s.workers[v]); }
    }
    forall k | 0 <= k < |s'.done|
      ensures Outcome(r, s'.cancelled, s'.done[k], s'.reported[k]) && s'.reported[k] == s'.mutants[s'.done[k]]
    {
      if k < |s.done| { assert Outcome(r, s.cancelled, s.done[k], s.reported[k]); }
    }
  }

  lemma OtherKeepsKnowledge(r: Run, s: State, a: Action, v: nat)
    requires Enabled(r, s, a) && !a.Receive? && !a.Write? && !a.Report?
    requires v < |s.workers| && Knows(r, s, s.workers[v])
    ensures v < |Step(r, s, a).workers| && Knows(r, Step(r, s, a), Step(r, s, a).workers[v])
  {
  }

  /** The steps that neither write nor report, nor take from the queue. */
  lemma OtherKeepsFaith(r: Run, s: State, a: Action)
    requires Faithful(r, s) && Enabled(r, s, a) && !a.Receive? && !a.Write? && !a.Report?
    ensures Faithful(r, Step(r, s, a))
  {
    var s' := Step(r, s, a);
    assert |s'.workers| == |s.workers| && s'.mutants == s.mutants && s'.reported == s.reported && s'.done == s.done;
    assert s.begun <= s'.begun && (s.cancelled ==> s'.cancelled);
    forall v | 0 <= v < |s'.workers| ensures Knows(r, s', s'.workers[v]) {
      assert Knows(r, s, s.workers[v]);
      OtherKeepsKnowledge(r, s, a, v);
    }
    forall k | 0 <= k < |s'.done| ensures Outcome(r, s'.cancelled, s'.done[k], s'.reported[k]) {
      assert Outcome(r, s.cancelled, s.done[k], s.reported[k]);
    }
  }

  lemma StepKeepsFaith(r: Run, s: State, a: Action)
    requires GoodRun(r) && Conserved(r, s) && Faithful(r, s) && Enabled(r, s, a)
    ensures Faithful(r, Step(r, s, a))
  {
    match a {
      case Receive(w) => ReceiveKeepsFaith(r, s, w);
      case Write(w) => WriteKeepsFaith(r, s, w);
      case Report(w) => ReportKeepsFaith(r, s, w);
      case _ => OtherKeepsFaith(r, s, a);
    }
  }

  // ----- over every interleaving -----

  /** Without a cancellation a worker leaves only once everything was fed and taken. */
  ghost predicate Phased(s: State) {
    && (s.closed ==> s.unfed == [])
    && (!s.cancelled ==> s.dropped == [] && forall w | 0 <= w < |s.workers| && s.workers[w].Exited? :: s.closed && s.queue == [])
    && |s.workers| > 0
  }

  lemma StepKeepsPhase(r: Run, s: State, a: Action)
    requires Phased(s) && Enabled(r, s, a)
    ensures Phased(Step(r, s, a))
  {
  }

  /** What was not fed and what is queued is no more than the survivors: the buffer is as long. */
  ghost predicate Roomy(r: Run, s: State) {
    |s.unfed| + |s.queue| <= |r.lived|
  }

  ghost predicate Inv(r: Run, s: State) {
    Conserved(r, s) && Faithful(r, s) && Locked(s) && Phased(s) && Roomy(r, s)
  }

  lemma StartIsFine(r: Run, workers: int)
    requires GoodRun(r)
    ensures Inv(r, Start(r, workers))
  {
    var s := Start(r, workers);
    forall i: nat ensures Everywhere(s, i) == One(i in r.lived) && InCheck(s.workers, i) == 0 {
      IdleHoldNothing(WorkerCount(workers), i);
      CountDistinct(r.lived, i);
    }
  }

  lemma StepKeepsInv(r: Run, s: State, a: Action)
    requires GoodRun(r) && Inv(r, s) && Enabled(r, s, a)
    ensures Inv(r, Step(r, s, a))
  {
    StepConserves(r, s, a);
    StepKeepsFaith(r, s, a);
    StepKeepsLock(r, s, a);
    StepKeepsPhase(r, s, a);
  }

  lemma {:induction false} ReachableInv(r: Run, states: seq<State>, actions: seq<Action>, workers: int, n: nat)
    requires GoodRun(r) && Execution(r, states, actions, workers) && n < |states|
    ensures Inv(r, states[n])
  {
    if n == 0 {
      StartIsFine(r, workers);
    } else {
      ReachableInv(r, states, actions, workers, n - 1);
      assert Enabled(r, states[n - 1], actions[n - 1]);
      StepKeepsInv(r, states[n - 1], actions[n - 1]);
    }
  }

  /** The slice differs from what came only in survivors that became equivalent. */
  ghost predicate OnlyFlips(r: Run, now: seq<Mutant>) {
    && |now| == |r.initial|
    && forall i | 0 <= i < |now| :: now[i] == r.initial[i]
         || (r.initial[i].status == Lived && r.equal(r.initial[i]) && now[i] == r.initial[i].(status := Equivalent))
  }

  lemma FaithOnlyFlips(r: Run, s: State)
    requires GoodRun(r) && Inv(r, s)
    ensures OnlyFlips(r, s.mutants)
  {
    forall i: nat | i < |s.mutants| && s.mutants[i] != r.initial[i]
      ensures Outcome(r, s.cancelled, i, s.mutants[i]) && i in r.lived
    {
      CountPositive(s.begun, i);
      CheckedAreHeld(s.workers, i);
      CountPositive(s.done, i);
      assert Everywhere(s, i) == One(i in r.lived);
      if i in s.done {
        var k :| 0 <= k < |s.done| && s.done[k] == i;
        assert Outcome(r, s.cancelled, s.done[k], s.reported[k]);
      } else {
        assert CountIn(s.begun, i) == InCheck(s.workers, i) + CountIn(s.done, i);
        var w := CheckedBy(s.workers, i);
        assert Knows(r, s, s.workers[w]);
      }
    }
  }

  lemma {:induction false} CheckedBy(ws: seq<Worker>, i: nat) returns (w: nat)
    requires InCheck(ws, i) > 0
    ensures w < |ws| && Checks(ws[w], i)
  {
    if Checks(ws[0], i) {
      w := 0;
    } else {
      w := CheckedBy(ws[1..], i);
      w := w + 1;
    }
  }

  /**
   In every state of every interleaving, cancelled or not: each survivor is in exactly one place and checked at most
   once, the slice differs from what came only in survivors found equivalent, and no two workers are in the section
   where the slice is written and reported from.
   */
  lemma TceIsSafe(r: Run, states: seq<State>, actions: seq<Action>, workers: int, n: nat)
    requires GoodRun(r) && Execution(r, states, actions, workers) && n < |states|
    ensures var s := states[n];
      && (forall i: nat :: Everywhere(s, i) == One(i in r.lived))
      && Distinct(s.begun)
      && OnlyFlips(r, s.mutants)
      && |s.mutants| == |r.initial|
      && (forall i: nat | i < |s.mutants| && s.mutants[i] != r.initial[i] ::
            r.initial[i].status == Lived && r.equal(r.initial[i]) && s.mutants[i] == r.initial[i].(status := Equivalent))
      && (forall v, w | 0 <= v < |s.workers| && 0 <= w < |s.workers| :: InSection(s.workers[v]) && InSection(s.workers[w]) ==> v == w)
  {
    ReachableInv(r, states, actions, workers, n);
    var s := states[n];
    forall i: nat ensures CountIn(s.begun, i) <= 1 {
      assert Everywhere(s, i) == One(i in r.lived);
      CheckedAreHeld(s.workers, i);
    }
    AtMostOnceIsDistinct(s.begun);
    FaithOnlyFlips(r, s);
  }

  /** A run that ends uncancelled turned exactly the survivors whose check finds them equivalent, and reported each survivor once, as it left it. */
  lemma TceIsComplete(r: Run, states: seq<State>, actions: seq<Action>, workers: int, n: nat)
    requires GoodRun(r) && Execution(r, states, actions, workers) && n < |states|
    requires Ended(states[n]) && !states[n].cancelled
    ensures var s := states[n];
      && |s.mutants| == |r.initial|
      && (forall i: nat | i < |s.mutants| ::
            s.mutants[i] == if i in r.lived && r.equal(r.initial[i]) then r.initial[i].(status := Equivalent) else r.initial[i])
      && (forall i: nat :: CountIn(s.done, i) == One(i in r.lived))
      && |s.reported| == |s.done|
      && (forall k | 0 <= k < |s.done| :: s.done[k] < |s.mutants| && s.reported[k] == s.mutants[s.done[k]])
  {
    ReachableInv(r, states, actions, workers, n);
    var s := states[n];
    assert s.workers[0].Exited?;
    forall i: nat ensures CountIn(s.done, i) == One(i in r.lived) {
      assert Everywhere(s, i) == One(i in r.lived);
      ExitedHoldNothing(s.workers, i);
    }
    forall i: nat | i < |s.mutants| ensures s.mutants[i] == if i in r.lived then Settled(r, r.initial[i]) else r.initial[i] {
      CountPositive(s.done, i);
      FaithOnlyFlips(r, s);
      if i in r.lived {
        var k :| 0 <= k < |s.done| && s.done[k] == i;
        assert Outcome(r, s.cancelled, s.done[k], s.reported[k]);
      }
    }
  }

  /** Until every worker is gone and the queue closed, some part of the machine can go on: the lock's holder never waits. */
  lemma TceDoesNotDeadlock(r: Run, states: seq<State>, actions: seq<Action>, workers: int, n: nat) returns (a: Action)
    requires GoodRun(r) && Execution(r, states, actions, workers) && n < |states|
    requires !Ended(states[n])
    ensures a != Cancel && Enabled(r, states[n], a)
  {
    ReachableInv(r, states, actions, workers, n);
    var s := states[n];
    if !s.closed {
      a := if s.unfed == [] then Close else Feed;
    } else if s.holder >= 0 {
      var w := s.holder;
      assert InSection(s.workers[w]) && Knows(r, s, s.workers[w]);
      a := if s.workers[w].Holding? then Write(w) else if s.workers[w].Wrote? then Report(w) else Unlock(w);
    } else {
      var w :| 0 <= w < |s.workers| && !s.workers[w].Exited?;
      assert !InSection(s.workers[w]) && Knows(r, s, s.workers[w]);
      match s.workers[w] {
        case Waiting => a := if s.queue == [] then WorkEnds(w) else Receive(w);
        case Received(_) => a := Look(w);
        case Checking(_) => a := Decide(w, false);
        case Decided(_, _) => a := Lock(w);
        case _ =>
      }
    }
  }

  // ----- no interleaving goes on for ever -----

  function LeftOf(w: Worker): nat {
    match w
    case Waiting => 1
    case Received(_) => 7
    case Checking(_) => 6
    case Decided(_, _) => 5
    case Holding(_, _) => 4
    case Wrote(_) => 3
    case Leaving => 2
    case Exited => 0
  }

  function LeftOfAll(ws: seq<Worker>): nat {
    if ws == [] then 0 else LeftOf(ws[0]) + LeftOfAll(ws[1..])
  }

  function Left(s: State): nat {
    8 * |s.unfed| + 7 * |s.queue| + LeftOfAll(s.workers) + One(!s.closed) + One(!s.cancelled)
  }

  lemma {:induction false} LeftUpdate(ws: seq<Worker>, w: nat, x: Worker)
    requires w < |ws|
    ensures LeftOfAll(ws[w := x]) + LeftOf(ws[w]) == LeftOfAll(ws) + LeftOf(x)
  {
    if w == 0 {
      assert ws[w := x][1..] == ws[1..];
    } else {
      LeftUpdate(ws[1..], w - 1, x);
      assert ws[w := x][1..] == ws[1..][w - 1 := x];
    }
  }

  lemma StepMakesProgress(r: Run, s: State, a: Action)
    requires Enabled(r, s, a)
    ensures Left(Step(r, s, a)) < Left(s)
  {
    if !a.Feed? && !a.Close? && !a.Cancel? {
      LeftUpdate(s.workers, a.w, Step(r, s, a).workers[a.w]);
      assert Step(r, s, a).workers == s.workers[a.w := Step(r, s, a).workers[a.w]];
    }
  }

  lemma {:induction false} TceTerminates(r: Run, states: seq<State>, actions: seq<Action>, workers: int, n: nat)
    requires Execution(r, states, actions, workers) && n < |states|
    ensures n + Left(states[n]) <= Left(Start(r, workers))
  {
    if n > 0 {
      TceTerminates(r, states, actions, workers, n - 1);
      assert Enabled(r, states[n - 1], actions[n - 1]);
      StepMakesProgress(r, states[n - 1], actions[n - 1]);
    }
  }

  // ----- the count returned -----

  /** What `Run` returns: it counts survivors that are equivalent now, and that is how many positions the run changed. */
  method CountFlips(ghost r: Run, mutants: seq<Mutant>, lived: seq<nat>) returns (equivalent: nat)
    requires GoodRun(r) && lived == r.lived && OnlyFlips(r, mutants)
    ensures |mutants| == |r.initial| && equivalent == |set i: nat | i < |mutants| && mutants[i] != r.initial[i]|
  {
    equivalent := 0;
    ghost var counted: set<nat> := {};
    for k := 0 to |lived|
      invariant equivalent == |counted|
      invariant forall i: nat :: i in counted <==> i in lived[..k] && i < |mutants| && mutants[i].status == Equivalent
    {
      assert lived[k] in lived && lived[..k + 1] == lived[..k] + [lived[k]];
      assert lived[k] !in lived[..k];
      if mutants[lived[k]].status == Equivalent {
        equivalent := equivalent + 1;
        counted := counted + {lived[k]};
      }
    }
    assert lived[..|lived|] == lived;
    FlipsAreCounted(r, mutants, counted);
  }

  lemma FlipsAreCounted(r: Run, mutants: seq<Mutant>, counted: set<nat>)
    requires GoodRun(r) && OnlyFlips(r, mutants)
    requires forall i: nat :: i in counted <==> i in r.lived && i < |mutants| && mutants[i].status == Equivalent
    ensures counted == set i: nat | i < |mutants| && mutants[i] != r.initial[i]
  {
    forall i: nat ensures i in counted <==> i < |mutants| && mutants[i] != r.initial[i] {
    }
  }
}
