/**
 The worker pool as a machine whose steps may interleave in any way (`Pool.Run` in internal/runner/pool.go): a feeder, workers,
 a collector, two buffered channels and a context that may be cancelled at any moment.
 */
module Pool {
  import opened Text
  import opened Ordering
  import opened Mutants
  import opened WorkOrder
  import opened Counting

  // ----- the machine -----

  datatype Worker = Waiting | Received(idx: nat) | Testing(idx: nat) | Exited

  /** A result in the channel, and, for the proof, the position it is of. */
  datatype Result = Result(idx: nat, mutant: Mutant)

  datatype State = State(
    mutants: seq<Mutant>,
    unfed: seq<nat>,
    feederDone: bool,
    queue: seq<nat>,
    workers: seq<Worker>,
    results: seq<Result>,
    resultsClosed: bool,
    collectorDone: bool,
    cancelled: bool,
    reported: seq<Mutant>,
    // What has become of positions that left the machine, and every test begun.
    written: seq<nat>,
    dropped: seq<nat>,
    begun: seq<nat>)

  datatype Action =
    | Feed
    | FeedEnds
    | Receive(w: nat)
    | WorkEnds(w: nat)
    | Check(w: nat)
    | Finish(w: nat, interrupted: bool)
    | CloseResults
    | Collect
    | CollectEnds
    | Cancel

  /** What stays fixed: the mutants as they came, the work list, and what testing a mutant makes of it. */
  datatype Run = Run(initial: seq<Mutant>, pending: seq<nat>, tested: Mutant -> Mutant)

  ghost predicate GoodRun(r: Run) {
    && IsWorkList(r.initial, Pending, r.pending)
    && (forall i, j | 0 <= i < j < |r.initial| :: r.initial[i].id != r.initial[j].id)
    && (forall m :: r.tested(m).id == m.id)
  }

  function Start(r: Run, workers: nat): State {
    State(r.initial, r.pending, false, [], seq(workers, i => Waiting), [], false, false, false, [], [], [], [])
  }

  /** The position the collector looks a result's ID up at: with IDs apart, the one that has it. */
  ghost function PositionOf(mutants: seq<Mutant>, id: int): (i: int)
    ensures -1 <= i < |mutants|
    ensures 0 <= i ==> mutants[i].id == id
    ensures i == -1 ==> forall j | 0 <= j < |mutants| :: mutants[j].id != id
  {
    if exists j :: 0 <= j < |mutants| && mutants[j].id == id then
      var j :| 0 <= j < |mutants| && mutants[j].id == id; j
    else -1
  }

  ghost predicate Enabled(r: Run, s: State, a: Action) {
    match a
    case Feed => !s.feederDone && s.unfed != [] && |s.queue| < |r.pending|
    case FeedEnds => !s.feederDone && (s.unfed == [] || s.cancelled)
    case Receive(w) => w < |s.workers| && s.workers[w].Waiting? && s.queue != []
    case WorkEnds(w) => w < |s.workers| && s.workers[w].Waiting? && s.queue == [] && s.feederDone
    case Check(w) => w < |s.workers| && s.workers[w].Received?
    case Finish(w, interrupted) => w < |s.workers| && s.workers[w].Testing? && |s.results| < |r.pending|
        && s.workers[w].idx < |s.mutants| && (interrupted ==> s.cancelled)
    case CloseResults => !s.resultsClosed && forall w | 0 <= w < |s.workers| :: s.workers[w].Exited?
    case Collect => !s.collectorDone && s.results != []
    case CollectEnds => !s.collectorDone && s.results == [] && s.resultsClosed
    case Cancel => !s.cancelled
  }

  ghost function Step(r: Run, s: State, a: Action): State
    requires Enabled(r, s, a)
  {
    match a
    case Feed => s.(unfed := s.unfed[1..], queue := s.queue + [s.unfed[0]])
    case FeedEnds => s.(feederDone := true)
    case Receive(w) => s.(queue := s.queue[1..], workers := s.workers[w := Received(s.queue[0])])
    case WorkEnds(w) => s.(workers := s.workers[w := Exited])
    case Check(w) =>
      var i := s.workers[w].idx;
      if s.cancelled then s.(workers := s.workers[w := Exited], dropped := s.dropped + [i])
      else s.(workers := s.workers[w := Testing(i)], begun := s.begun + [i])
    case Finish(w, interrupted) =>
      var i := s.workers[w].idx;
      var m := s.mutants[i];
      s.(workers := s.workers[w := Waiting], results := s.results + [Result(i, if interrupted then m else r.tested(m))])
    case CloseResults => s.(resultsClosed := true)
    case Collect =>
      var m := s.results[0].mutant;
      var i := PositionOf(s.mutants, m.id);
      s.(results := s.results[1..], mutants := if i < 0 then s.mutants else s.mutants[i := m],
         reported := s.reported + [m], written := s.written + [s.results[0].idx])
    case CollectEnds => s.(collectorDone := true)
    case Cancel => s.(cancelled := true)
  }

  /** Any interleaving: a list of actions, each enabled where it is taken. */
  ghost predicate Execution(r: Run, states: seq<State>, actions: seq<Action>, workers: nat) {
    && |states| == |actions| + 1 && states[0] == Start(r, workers)
    && forall i | 0 <= i < |actions| :: Enabled(r, states[i], actions[i]) && states[i + 1] == Step(r, states[i], actions[i])
  }

  // ----- where every position is -----

  predicate Holds(w: Worker, i: nat) {
    (w.Received? || w.Testing?) && w.idx == i
  }

  predicate Tests(w: Worker, i: nat) {
    w.Testing? && w.idx == i
  }

  function Held(ws: seq<Worker>, i: nat): nat {
    if ws == [] then 0 else One(Holds(ws[0], i)) + Held(ws[1..], i)
  }

  function InTest(ws: seq<Worker>, i: nat): nat {
    if ws == [] then 0 else One(Tests(ws[0], i)) + InTest(ws[1..], i)
  }

  lemma {:induction false} HeldUpdate(ws: seq<Worker>, w: nat, x: Worker, i: nat)
    requires w < |ws|
    ensures Held(ws[w := x], i) + One(Holds(ws[w], i)) == Held(ws, i) + One(Holds(x, i))
    ensures InTest(ws[w := x], i) + One(Tests(ws[w], i)) == InTest(ws, i) + One(Tests(x, i))
  {
    if w == 0 {
      assert ws[w := x][1..] == ws[1..];
    } else {
      HeldUpdate(ws[1..], w - 1, x, i);
      assert ws[w := x][1..] == ws[1..][w - 1 := x];
    }
  }

  lemma {:induction false} HeldBy(ws: seq<Worker>, w: nat, i: nat)
    requires w < |ws| && Holds(ws[w], i)
    ensures Held(ws, i) > 0
  {
    if w > 0 { HeldBy(ws[1..], w - 1, i); }
  }

  function InResults(rs: seq<Result>, i: nat): nat {
    if rs == [] then 0 else One(rs[0].idx == i) + InResults(rs[1..], i)
  }

  lemma {:induction false} ResultsAppend(rs: seq<Result>, x: Result, i: nat)
    ensures InResults(rs + [x], i) == InResults(rs, i) + One(x.idx == i)
  {
    if rs == [] {
      assert ([] + [x])[1..] == [];
    } else {
      assert (rs + [x])[1..] == rs[1..] + [x];
      ResultsAppend(rs[1..], x, i);
    }
  }

  /** How often position `i` is anywhere: not yet fed, queued, with a worker, in the results, written back, dropped. */
  function Everywhere(s: State, i: nat): nat {
    CountIn(s.unfed, i) + CountIn(s.queue, i) + Held(s.workers, i) + InResults(s.results, i) + CountIn(s.written, i) + CountIn(s.dropped, i)
  }

  /** Every position of the work list is in exactly one place, every other in none, and no test was begun of one elsewhere. */
  ghost predicate Conserved(r: Run, s: State) {
    && (forall i: nat :: Everywhere(s, i) == One(i in r.pending))
    && (forall i: nat :: CountIn(s.begun, i) == InTest(s.workers, i) + InResults(s.results, i) + CountIn(s.written, i))
  }

  /** A step moves a position from one place to another. */
  ghost predicate Flows(s: State, s': State, i: nat) {
    && Everywhere(s', i) == Everywhere(s, i)
    && CountIn(s'.begun, i) + InTest(s.workers, i) + InResults(s.results, i) + CountIn(s.written, i)
       == CountIn(s.begun, i) + InTest(s'.workers, i) + InResults(s'.results, i) + CountIn(s'.written, i)
  }

  lemma FeedFlows(r: Run, s: State, i: nat)
    requires Enabled(r, s, Feed)
    ensures Flows(s, Step(r, s, Feed), i)
  {
    CountAppend(s.queue, s.unfed[0], i);
  }

  lemma ReceiveFlows(r: Run, s: State, w: nat, i: nat)
    requires Enabled(r, s, Receive(w))
    ensures Flows(s, Step(r, s, Receive(w)), i)
  {
    HeldUpdate(s.workers, w, Received(s.queue[0]), i);
  }

  lemma CheckFlows(r: Run, s: State, w: nat, i: nat)
    requires Enabled(r, s, Check(w))
    ensures Flows(s, Step(r, s, Check(w)), i)
  {
    var idx := s.workers[w].idx;
    if s.cancelled {
      HeldUpdate(s.workers, w, Exited, i);
      CountAppend(s.dropped, idx, i);
    } else {
      HeldUpdate(s.workers, w, Testing(idx), i);
      CountAppend(s.begun, idx, i);
    }
  }

  lemma FinishFlows(r: Run, s: State, w: nat, interrupted: bool, i: nat)
    requires Enabled(r, s, Finish(w, interrupted))
    ensures Flows(s, Step(r, s, Finish(w, interrupted)), i)
  {
    var idx := s.workers[w].idx;
    HeldUpdate(s.workers, w, Waiting, i);
    ResultsAppend(s.results, Result(idx, if interrupted then s.mutants[idx] else r.tested(s.mutants[idx])), i);
  }

  lemma CollectFlows(r: Run, s: State, i: nat)
    requires Enabled(r, s, Collect)
    ensures Flows(s, Step(r, s, Collect), i)
  {
    CountAppend(s.written, s.results[0].idx, i);
  }

  lemma StepFlows(r: Run, s: State, a: Action, i: nat)
    requires Enabled(r, s, a)
    ensures Flows(s, Step(r, s, a), i)
  {
    match a {
      case Feed => FeedFlows(r, s, i);
      case Receive(w) => ReceiveFlows(r, s, w, i);
      case WorkEnds(w) => HeldUpdate(s.workers, w, Exited, i);
      case Check(w) => CheckFlows(r, s, w, i);
      case Finish(w, interrupted) => FinishFlows(r, s, w, interrupted, i);
      case Collect => CollectFlows(r, s, i);
      case _ =>
    }
  }

  lemma StepConserves(r: Run, s: State, a: Action)
    requires Enabled(r, s, a) && Conserved(r, s)
    ensures Conserved(r, Step(r, s, a))
  {
    var s' := Step(r, s, a);
    forall i: nat ensures Everywhere(s', i) == One(i in r.pending)
      && CountIn(s'.begun, i) == InTest(s'.workers, i) + InResults(s'.results, i) + CountIn(s'.written, i)
    {
      StepFlows(r, s, a, i);
    }
  }

  // ----- what is written back and reported -----

  /** What may become of position `i`: its mutant tested, or, once cancelled, as it came. */
  predicate Outcome(r: Run, cancelled: bool, i: nat, m: Mutant) {
    i < |r.initial| && (m == r.tested(r.initial[i]) || (cancelled && m == r.initial[i]))
  }

  ghost predicate Faithful(r: Run, s: State) {
    && |s.mutants| == |r.initial|
    && (forall i | 0 <= i < |s.mutants| :: s.mutants[i].id == r.initial[i].id)
    && (forall i: nat | i < |s.mutants| && i !in s.written :: s.mutants[i] == r.initial[i])
    && (forall k | 0 <= k < |s.results| :: Outcome(r, s.cancelled, s.results[k].idx, s.results[k].mutant))
    && |s.reported| == |s.written|
    && (forall k | 0 <= k < |s.written| ::
          Outcome(r, s.cancelled, s.written[k], s.reported[k]) && s.reported[k] == s.mutants[s.written[k]])
  }

  /** A worker reads a position no one has written, and no one will write while it does. */
  lemma HeldIsUntouched(r: Run, s: State, w: nat)
    requires GoodRun(r) && Conserved(r, s) && Faithful(r, s)
    requires w < |s.workers| && (s.workers[w].Received? || s.workers[w].Testing?)
    ensures var i := s.workers[w].idx;
      && i < |s.mutants| && s.mutants[i] == r.initial[i] && i in r.pending
      && InResults(s.results, i) == 0
      && forall w' | 0 <= w' < |s.workers| && w' != w :: !Holds(s.workers[w'], i)
  {
    var i := s.workers[w].idx;
    HeldBy(s.workers, w, i);
    CountPositive(s.written, i);
    assert Everywhere(s, i) == One(i in r.pending);
    forall w' | 0 <= w' < |s.workers| && w' != w ensures !Holds(s.workers[w'], i) {
      if Holds(s.workers[w'], i) {
        HeldUpdate(s.workers, w, Waiting, i);
        HeldBy(s.workers[w := Waiting], w', i);
      }
    }
  }

  lemma {:induction false} ResultCounted(rs: seq<Result>, k: nat)
    requires k < |rs|
    ensures InResults(rs, rs[k].idx) > 0
  {
    if k > 0 { ResultCounted(rs[1..], k - 1); }
  }

  /** The collector finds a result's position by its ID. */
  lemma CollectFinds(r: Run, s: State)
    requires GoodRun(r) && Conserved(r, s) && Faithful(r, s) && s.results != []
    ensures PositionOf(s.mutants, s.results[0].mutant.id) == s.results[0].idx
    ensures s.results[0].idx !in s.written
  {
    var q := s.results[0];
    assert Outcome(r, s.cancelled, q.idx, q.mutant);
    assert s.mutants[q.idx].id == q.mutant.id;
    ResultCounted(s.results, 0);
    assert Everywhere(s, q.idx) == One(q.idx in r.pending);
    CountPositive(s.written, q.idx);
    var i := PositionOf(s.mutants, q.mutant.id);
    assert r.initial[i].id == r.initial[q.idx].id;
  }

  lemma FinishKeepsFaith(r: Run, s: State, w: nat, interrupted: bool)
    requires GoodRun(r) && Conserved(r, s) && Faithful(r, s) && Enabled(r, s, Finish(w, interrupted))
    ensures Faithful(r, Step(r, s, Finish(w, interrupted)))
  {
    HeldIsUntouched(r, s, w);
  }

  lemma CollectKeepsFaith(r: Run, s: State)
    requires GoodRun(r) && Conserved(r, s) && Faithful(r, s) && Enabled(r, s, Collect)
    ensures Faithful(r, Step(r, s, Collect))
  {
    var s', q := Step(r, s, Collect), s.results[0];
    CollectFinds(r, s);
    assert Outcome(r, s.cancelled, q.idx, q.mutant);
    assert s'.mutants == s.mutants[q.idx := q.mutant];
    forall k | 0 <= k < |s'.written|
      ensures Outcome(r, s'.cancelled, s'.written[k], s'.reported[k]) && s'.reported[k] == s'.mutants[s'.written[k]]
    {
      if k < |s.written| { assert s'.written[k] == s.written[k] && s.written[k] in s.written; }
    }
    forall i: nat | i < |s'.mutants| && i !in s'.written ensures s'.mutants[i] == r.initial[i] {
      assert q.idx in s'.written;
      assert i !in s.written;
    }
  }

  /** A step that touches neither mutants nor results, and at most cancels. */
  lemma OtherKeepsFaith(r: Run, s: State, s': State)
    requires Faithful(r, s) && (s.cancelled ==> s'.cancelled)
    requires s'.mutants == s.mutants && s'.results == s.results && s'.reported == s.reported && s'.written == s.written
    ensures Faithful(r, s')
  {
    forall k | 0 <= k < |s'.results| ensures Outcome(r, s'.cancelled, s'.results[k].idx, s'.results[k].mutant) {
      assert Outcome(r, s.cancelled, s.results[k].idx, s.results[k].mutant);
    }
    forall k | 0 <= k < |s'.written| ensures Outcome(r, s'.cancelled, s'.written[k], s'.reported[k]) {
      assert Outcome(r, s.cancelled, s.written[k], s.reported[k]);
    }
  }

  lemma StepKeepsFaith(r: Run, s: State, a: Action)
    requires GoodRun(r) && Conserved(r, s) && Faithful(r, s) && Enabled(r, s, a)
    ensures Faithful(r, Step(r, s, a))
  {
    if a.Finish? {
      FinishKeepsFaith(r, s, a.w, a.interrupted);
    } else if a.Collect? {
      CollectKeepsFaith(r, s);
    } else {
      OtherKeepsFaith(r, s, Step(r, s, a));
    }
  }

  // ----- who is done when -----

  ghost predicate AllExited(ws: seq<Worker>) {
    forall w | 0 <= w < |ws| :: ws[w].Exited?
  }

  /** Without a cancellation a worker leaves only once everything was fed and taken. */
  ghost predicate Ordered(s: State) {
    && (!s.cancelled ==>
          && s.dropped == []
          && (s.feederDone ==> s.unfed == [])
          && (forall w | 0 <= w < |s.workers| && s.workers[w].Exited? :: s.feederDone && s.queue == []))
    && (s.resultsClosed ==> AllExited(s.workers))
    && (s.collectorDone ==> s.resultsClosed && s.results == [])
  }

  lemma StepKeepsOrder(r: Run, s: State, a: Action)
    requires Ordered(s) && Enabled(r, s, a)
    ensures Ordered(Step(r, s, a)) && |Step(r, s, a).workers| == |s.workers|
  {
  }

  // ----- room in the channels -----

  function Busy(ws: seq<Worker>): nat {
    if ws == [] then 0 else One(ws[0].Received? || ws[0].Testing?) + Busy(ws[1..])
  }

  lemma {:induction false} BusyUpdate(ws: seq<Worker>, w: nat, x: Worker)
    requires w < |ws|
    ensures Busy(ws[w := x]) + One(ws[w].Received? || ws[w].Testing?) == Busy(ws) + One(x.Received? || x.Testing?)
  {
    if w == 0 {
      assert ws[w := x][1..] == ws[1..];
    } else {
      BusyUpdate(ws[1..], w - 1, x);
      assert ws[w := x][1..] == ws[1..][w - 1 := x];
    }
  }

  function Total(s: State): nat {
    |s.unfed| + |s.queue| + Busy(s.workers) + |s.results| + |s.written| + |s.dropped|
  }

  lemma StepKeepsTotal(r: Run, s: State, a: Action)
    requires Enabled(r, s, a)
    ensures Total(Step(r, s, a)) == Total(s)
  {
    match a {
      case Receive(w) => BusyUpdate(s.workers, w, Received(s.queue[0]));
      case WorkEnds(w) => BusyUpdate(s.workers, w, Exited);
      case Check(w) => BusyUpdate(s.workers, w, if s.cancelled then Exited else Testing(s.workers[w].idx));
      case Finish(w, interrupted) => BusyUpdate(s.workers, w, Waiting);
      case _ =>
    }
  }

  // ----- over every interleaving -----

  ghost predicate Inv(r: Run, s: State, workers: nat) {
    && Conserved(r, s) && Faithful(r, s) && Ordered(s)
    && Total(s) == |r.pending| && |s.workers| == workers
  }

  lemma {:induction false} IdleWorkers(workers: nat, i: nat)
    ensures var ws := seq(workers, k => Waiting); Held(ws, i) == 0 && InTest(ws, i) == 0 && Busy(ws) == 0
  {
    if workers > 0 {
      IdleWorkers(workers - 1, i);
      assert seq(workers, k => Waiting)[1..] == seq(workers - 1, k => Waiting);
    }
  }

  lemma StartIsFine(r: Run, workers: nat)
    requires GoodRun(r)
    ensures Inv(r, Start(r, workers), workers)
  {
    forall i: nat ensures Everywhere(Start(r, workers), i) == One(i in r.pending) && InTest(Start(r, workers).workers, i) == 0 {
      IdleWorkers(workers, i);
      CountDistinct(r.pending, i);
    }
    IdleWorkers(workers, 0);
  }

  lemma StepKeepsInv(r: Run, s: State, a: Action, workers: nat)
    requires GoodRun(r) && Inv(r, s, workers) && Enabled(r, s, a)
    ensures Inv(r, Step(r, s, a), workers)
  {
    StepConserves(r, s, a);
    StepKeepsFaith(r, s, a);
    StepKeepsOrder(r, s, a);
    StepKeepsTotal(r, s, a);
  }

  lemma {:induction false} ReachableInv(r: Run, states: seq<State>, actions: seq<Action>, workers: nat, n: nat)
    requires GoodRun(r) && Execution(r, states, actions, workers) && n < |states|
    ensures Inv(r, states[n], workers)
  {
    if n == 0 {
      StartIsFine(r, workers);
    } else {
      ReachableInv(r, states, actions, workers, n - 1);
      assert Enabled(r, states[n - 1], actions[n - 1]);
      StepKeepsInv(r, states[n - 1], actions[n - 1], workers);
    }
  }

  /**
   In every state of every interleaving: each pending position is in exactly one place, no mutant's test is begun
   twice, and a mutant that is not pending is as it came. What is written back is what the test made of the mutant, or,
   once cancelled, the mutant as it came, and it is what is reported.
   */
  lemma PoolIsSafe(r: Run, states: seq<State>, actions: seq<Action>, workers: nat, n: nat)
    requires GoodRun(r) && Execution(r, states, actions, workers) && n < |states|
    ensures var s := states[n];
      && (forall i: nat :: Everywhere(s, i) == One(i in r.pending))
      && Distinct(s.begun)
      && |s.mutants| == |r.initial|
      && (forall i: nat | i < |s.mutants| && i !in r.pending :: s.mutants[i] == r.initial[i])
      && (forall i: nat | i < |s.mutants| && i !in s.written :: s.mutants[i] == r.initial[i])
      && |s.reported| == |s.written|
      && (forall k | 0 <= k < |s.written| :: s.written[k] < |s.mutants| && s.reported[k] == s.mutants[s.written[k]])
      && (forall k | 0 <= k < |s.written| ::
            s.reported[k] == r.tested(r.initial[s.written[k]]) || (s.cancelled && s.reported[k] == r.initial[s.written[k]]))
  {
    ReachableInv(r, states, actions, workers, n);
    var s := states[n];
    assert forall k | 0 <= k < |s.written| :: Outcome(r, s.cancelled, s.written[k], s.reported[k]);
    forall i: nat ensures CountIn(s.begun, i) <= 1 {
      assert Everywhere(s, i) == One(i in r.pending);
      TestedAreHeld(s.workers, i);
    }
    AtMostOnceIsDistinct(s.begun);
    forall i: nat | i < |s.mutants| && i !in r.pending ensures s.mutants[i] == r.initial[i] {
      assert Everywhere(s, i) == One(i in r.pending);
      CountPositive(s.written, i);
    }
  }

  lemma {:induction false} TestedAreHeld(ws: seq<Worker>, i: nat)
    ensures InTest(ws, i) <= Held(ws, i)
  {
    if ws != [] { TestedAreHeld(ws[1..], i); }
  }

  lemma {:induction false} ExitedHoldNothing(ws: seq<Worker>, i: nat)
    requires AllExited(ws)
    ensures Held(ws, i) == 0
  {
    if ws != [] { ExitedHoldNothing(ws[1..], i); }
  }

  /** A run that ends without having been cancelled tested every pending mutant, wrote each back in its place and reported each once. */
  lemma PoolIsComplete(r: Run, states: seq<State>, actions: seq<Action>, workers: nat, n: nat)
    requires GoodRun(r) && Execution(r, states, actions, workers) && n < |states| && workers > 0
    requires states[n].collectorDone && !states[n].cancelled
    ensures var s := states[n];
      && |s.mutants| == |r.initial|
      && (forall i | i in r.pending :: s.mutants[i] == r.tested(r.initial[i]))
      && (forall i: nat :: CountIn(s.written, i) == One(i in r.pending))
      && |s.reported| == |s.written|
      && (forall k | 0 <= k < |s.written| :: s.written[k] < |r.initial| && s.reported[k] == r.tested(r.initial[s.written[k]]))
  {
    ReachableInv(r, states, actions, workers, n);
    var s := states[n];
    assert s.workers[0].Exited?;
    forall i: nat ensures CountIn(s.written, i) == One(i in r.pending) {
      assert Everywhere(s, i) == One(i in r.pending);
      ExitedHoldNothing(s.workers, i);
    }
    forall i | i in r.pending ensures s.mutants[i] == r.tested(r.initial[i]) {
      CountPositive(s.written, i);
      var k :| 0 <= k < |s.written| && s.written[k] == i;
      assert Outcome(r, s.cancelled, s.written[k], s.reported[k]);
    }
  }

  /** Until the collector is done some part of the machine can always go on. */
  lemma PoolDoesNotDeadlock(r: Run, states: seq<State>, actions: seq<Action>, workers: nat, n: nat) returns (a: Action)
    requires GoodRun(r) && Execution(r, states, actions, workers) && n < |states|
    requires !states[n].collectorDone
    ensures a != Cancel && Enabled(r, states[n], a)
  {
    ReachableInv(r, states, actions, workers, n);
    var s := states[n];
    if !s.feederDone {
      a := if s.unfed == [] then FeedEnds else Feed;
    } else if w :| 0 <= w < |s.workers| && !s.workers[w].Exited? {
      match s.workers[w] {
        case Waiting => a := if s.queue == [] then WorkEnds(w) else Receive(w);
        case Received(_) => a := Check(w);
        case Testing(_) =>
          a := Finish(w, false);
          HeldIsUntouched(r, s, w);
          BusyUpdate(s.workers, w, Waiting);
        case Exited =>
      }
    } else if !s.resultsClosed {
      a := CloseResults;
    } else {
      a := if s.results == [] then CollectEnds else Collect;
    }
  }

  /** The work left. */
  function Left(s: State): nat {
    7 * |s.unfed| + 6 * |s.queue| + 3 * |s.results| + Running(s.workers)
    + One(!s.feederDone) + One(!s.resultsClosed) + One(!s.collectorDone) + One(!s.cancelled)
  }

  function RunningOf(w: Worker): nat {
    match w
    case Waiting => 1
    case Received(_) => 6
    case Testing(_) => 5
    case Exited => 0
  }

  function Running(ws: seq<Worker>): nat {
    if ws == [] then 0 else RunningOf(ws[0]) + Running(ws[1..])
  }

  lemma {:induction false} RunningUpdate(ws: seq<Worker>, w: nat, x: Worker)
    requires w < |ws|
    ensures Running(ws[w := x]) + RunningOf(ws[w]) == Running(ws) + RunningOf(x)
  {
    if w == 0 {
      assert ws[w := x][1..] == ws[1..];
    } else {
      RunningUpdate(ws[1..], w - 1, x);
      assert ws[w := x][1..] == ws[1..][w - 1 := x];
    }
  }

  lemma WorkerStepMakesProgress(r: Run, s: State, a: Action)
    requires Enabled(r, s, a) && (a.Check? || a.Finish?)
    ensures Left(Step(r, s, a)) < Left(s)
  {
    if a.Check? {
      RunningUpdate(s.workers, a.w, if s.cancelled then Exited else Testing(s.workers[a.w].idx));
    } else {
      RunningUpdate(s.workers, a.w, Waiting);
    }
  }

  /** Every step leaves less work, so no interleaving goes on for ever. */
  lemma StepMakesProgress(r: Run, s: State, a: Action)
    requires Enabled(r, s, a)
    ensures Left(Step(r, s, a)) < Left(s)
  {
    match a {
      case Receive(w) => RunningUpdate(s.workers, w, Received(s.queue[0]));
      case WorkEnds(w) => RunningUpdate(s.workers, w, Exited);
      case Check(w) => WorkerStepMakesProgress(r, s, a);
      case Finish(w, interrupted) => WorkerStepMakesProgress(r, s, a);
      case _ =>
    }
  }

  lemma {:induction false} PoolTerminates(r: Run, states: seq<State>, actions: seq<Action>, workers: nat, n: nat)
    requires Execution(r, states, actions, workers) && n < |states|
    ensures n + Left(states[n]) <= Left(Start(r, workers))
  {
    if n > 0 {
      PoolTerminates(r, states, actions, workers, n - 1);
      assert Enabled(r, states[n - 1], actions[n - 1]);
      StepMakesProgress(r, states[n - 1], actions[n - 1]);
    }
  }

  // ----- a pool without workers -----

  /** When no worker could be made: every pending mutant becomes an infrastructure error, nothing else changes. */
  method FailPending(mutants: array<Mutant>, pending: seq<nat>) returns (reported: seq<Mutant>)
    requires IsWorkList(mutants[..], Pending, pending)
    modifies mutants
    ensures forall i | i in pending :: i < mutants.Length
    ensures forall i | 0 <= i < mutants.Length ::
      mutants[i] == if i in pending then old(mutants[i]).(status := InfraError) else old(mutants[i])
    ensures |reported| == |pending| && forall k | 0 <= k < |pending| :: pending[k] < mutants.Length && reported[k] == mutants[pending[k]]
  {
    reported := [];
    assert forall i | i in pending :: i < mutants.Length;
    for k := 0 to |pending|
      invariant |reported| == k && forall j | 0 <= j < k :: pending[j] < mutants.Length && reported[j] == mutants[pending[j]]
      invariant forall i | 0 <= i < mutants.Length ::
        mutants[i] == if i in pending[..k] then old(mutants[i]).(status := InfraError) else old(mutants[i])
    {
      var i := pending[k];
      assert i in pending && pending[..k + 1] == pending[..k] + [i];
      assert i !in pending[..k];
      mutants[i] := mutants[i].(status := InfraError);
      reported := reported + [mutants[i]];
    }
    assert pending[..|pending|] == pending;
  }
}
