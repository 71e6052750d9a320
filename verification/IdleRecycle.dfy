// The coalescing idle-recycle worker of internal/orchestrator/controller.go:
// edits schedule a background pass per pool, an edit landing during a pass asks
// for one rerun, and cancellation stops everything.  Every section under
// recycleMu is one step; a pass is two steps (start and end), so calls from
// other goroutines fall anywhere between them.
module IdleRecycle {
  import opened Basics

  // Where a worker goroutine stands.  since is the number of accepted calls at
  // the moment its pass started.
  datatype Phase = Ready | InPass(since: nat) | AtLock

  datatype Worker = Worker(pool: int, phase: Phase)

  // The last three fields are bookkeeping: the worker spawned last for a pool,
  // how many calls a pool had accepted, and how many of them a finished pass
  // that started later has served.
  datatype State = State(runs: map<int, bool>, workers: map<nat, Worker>, spawned: nat, cancelled: bool,
                         latest: map<int, nat>, accepted: map<int, nat>, covered: map<int, nat>)

  const INITIAL := State(map[], map[], 0, false, map[], map[], map[])

  datatype Action =
    | Schedule(pool: int)
    | Begin(w: nat)
    | End(w: nat)
    | Decide(w: nat)
    | Cancel

  function Count(m: map<int, nat>, pool: int): nat {
    if pool in m then m[pool] else 0
  }

  predicate Enabled(s: State, a: Action) {
    match a
    case Schedule(_) => true
    case Begin(w) => w in s.workers && s.workers[w].phase.Ready?
    case End(w) => w in s.workers && s.workers[w].phase.InPass?
    case Decide(w) => w in s.workers && s.workers[w].phase.AtLock? && s.workers[w].pool in s.runs
    case Cancel => true
  }

  function Step(s: State, a: Action): State
    requires Enabled(s, a)
  {
    match a
    case Schedule(pool) =>
      if s.cancelled then s
      else
        var s1 := s.(accepted := s.accepted[pool := Count(s.accepted, pool) + 1]);
        if pool in s.runs then s1.(runs := s.runs[pool := true])
        else s1.(runs := s.runs[pool := false], workers := s.workers[s.spawned := Worker(pool, Ready)],
                 spawned := s.spawned + 1,
                 latest := s.latest[pool := s.spawned])
    case Begin(w) =>
      s.(workers := s.workers[w := s.workers[w].(phase := InPass(Count(s.accepted, s.workers[w].pool)))])
    case End(w) =>
      var pool := s.workers[w].pool;
      s.(workers := s.workers[w := Worker(pool, AtLock)],
         covered := s.covered[pool := Max(Count(s.covered, pool), s.workers[w].phase.since)])
    case Decide(w) =>
      var pool := s.workers[w].pool;
      if !s.runs[pool] || s.cancelled then s.(runs := s.runs - {pool}, workers := s.workers - {w})
      else s.(runs := s.runs[pool := false], workers := s.workers[w := Worker(pool, Ready)])
    case Cancel => s.(cancelled := true)
  }

  // ---- Invariant -----------------------------------------------------------

  ghost predicate IsWorker(s: State, w: nat, pool: int) {
    w in s.workers && s.workers[w].pool == pool
  }

  // A pool is in the run table exactly while its latest worker is alive, and no
  // other worker is.
  ghost predicate OneWorkerPerPool(s: State) {
    && (forall pool :: pool in s.runs ==>
          pool in s.latest && s.latest[pool] in s.workers && s.workers[s.latest[pool]].pool == pool)
    && (forall w :: w in s.workers ==>
          w < s.spawned && s.workers[w].pool in s.runs && s.latest[s.workers[w].pool] == w)
  }

  lemma AtMostOneWorker(s: State, w: nat, v: nat, pool: int)
    requires OneWorkerPerPool(s) && IsWorker(s, w, pool) && IsWorker(s, v, pool)
    ensures w == v && pool in s.runs
  {
  }

  // Every accepted call not yet served is still owed a pass by the worker.
  ghost predicate Owed(s: State, w: nat)
    requires w in s.workers && s.workers[w].pool in s.runs
  {
    var pool := s.workers[w].pool;
    match s.workers[w].phase
    case Ready => true
    case InPass(since) => since <= Count(s.accepted, pool) && (since < Count(s.accepted, pool) ==> s.runs[pool])
    case AtLock => Count(s.covered, pool) < Count(s.accepted, pool) ==> s.runs[pool]
  }

  ghost predicate Inv(s: State) {
    && OneWorkerPerPool(s)
    && (forall pool :: Count(s.covered, pool) <= Count(s.accepted, pool))
    && (forall w :: w in s.workers ==> Owed(s, w))
    && (!s.cancelled ==> forall pool :: pool !in s.runs ==> Count(s.covered, pool) == Count(s.accepted, pool))
  }

  lemma StepKeepsPairing(s: State, a: Action)
    requires OneWorkerPerPool(s) && Enabled(s, a)
    ensures OneWorkerPerPool(Step(s, a))
  {
    match a
    case Schedule(pool) =>
    case Begin(w) =>
    case End(w) =>
    case Decide(w) =>
    case Cancel =>
  }

  lemma ScheduleKeepsOwed(s: State, a: Action, w: nat)
    requires Inv(s) && Enabled(s, a) && a.Schedule? && w in Step(s, a).workers
    ensures Step(s, a).workers[w].pool in Step(s, a).runs && Owed(Step(s, a), w)
  {
    StepKeepsPairing(s, a);
    if w in s.workers { assert Owed(s, w); }
  }

  lemma BeginKeepsOwed(s: State, a: Action, w: nat)
    requires Inv(s) && Enabled(s, a) && a.Begin? && w in Step(s, a).workers
    ensures Step(s, a).workers[w].pool in Step(s, a).runs && Owed(Step(s, a), w)
  {
    StepKeepsPairing(s, a);
    if w in s.workers { assert Owed(s, w); }
  }

  lemma EndKeepsOwed(s: State, a: Action, w: nat)
    requires Inv(s) && Enabled(s, a) && a.End? && w in Step(s, a).workers
    ensures Step(s, a).workers[w].pool in Step(s, a).runs && Owed(Step(s, a), w)
  {
    StepKeepsPairing(s, a);
    if w in s.workers { assert Owed(s, w); }
  }

  lemma DecideKeepsOwed(s: State, a: Action, w: nat)
    requires Inv(s) && Enabled(s, a) && a.Decide? && w in Step(s, a).workers
    ensures Step(s, a).workers[w].pool in Step(s, a).runs && Owed(Step(s, a), w)
  {
    StepKeepsPairing(s, a);
    if w in s.workers { assert Owed(s, w); }
  }

  lemma StepKeepsOwed(s: State, a: Action, w: nat)
    requires Inv(s) && Enabled(s, a) && w in Step(s, a).workers
    ensures Step(s, a).workers[w].pool in Step(s, a).runs && Owed(Step(s, a), w)
  {
    match a
    case Schedule(_) => ScheduleKeepsOwed(s, a, w);
    case Begin(_) => BeginKeepsOwed(s, a, w);
    case End(_) => EndKeepsOwed(s, a, w);
    case Decide(_) => DecideKeepsOwed(s, a, w);
    case Cancel => assert Owed(s, w);
  }

  // Served calls never outnumber the accepted ones, and match them in a pool that
  // has no worker.
  lemma StepKeepsCounts(s: State, a: Action, pool: int)
    requires Inv(s) && Enabled(s, a)
    ensures Count(Step(s, a).covered, pool) <= Count(Step(s, a).accepted, pool)
    ensures !Step(s, a).cancelled && pool !in Step(s, a).runs ==>
      Count(Step(s, a).covered, pool) == Count(Step(s, a).accepted, pool)
  {
    if a.End? || a.Decide? { assert Owed(s, a.w); }
  }

  lemma StepKeepsInv(s: State, a: Action)
    requires Inv(s) && Enabled(s, a)
    ensures Inv(Step(s, a))
  {
    StepKeepsPairing(s, a);
    forall w | w in Step(s, a).workers ensures Owed(Step(s, a), w) { StepKeepsOwed(s, a, w); }
    forall pool
      ensures Count(Step(s, a).covered, pool) <= Count(Step(s, a).accepted, pool)
      ensures !Step(s, a).cancelled && pool !in Step(s, a).runs ==>
        Count(Step(s, a).covered, pool) == Count(Step(s, a).accepted, pool)
    {
      StepKeepsCounts(s, a, pool);
    }
  }

  // ---- Runs ----------------------------------------------------------------

  ghost predicate IsRun(s: State, as_: seq<Action>)
    decreases |as_|, 0
  {
    as_ != [] ==> IsRun(s, as_[..|as_| - 1]) && Enabled(After(s, as_[..|as_| - 1]), as_[|as_| - 1])
  }

  ghost function After(s: State, as_: seq<Action>): State
    requires IsRun(s, as_)
    decreases |as_|, 1
  {
    if as_ == [] then s else Step(After(s, as_[..|as_| - 1]), as_[|as_| - 1])
  }

  // In every interleaving each pool has at most one worker, and when a pool has
  // none and nothing was cancelled, every accepted call has been followed by a
  // pass that started after it.
  lemma {:induction false} EveryRunSafe(as_: seq<Action>)
    requires IsRun(INITIAL, as_)
    ensures Inv(After(INITIAL, as_))
  {
    if as_ != [] {
      EveryRunSafe(as_[..|as_| - 1]);
      StepKeepsInv(After(INITIAL, as_[..|as_| - 1]), as_[|as_| - 1]);
    }
  }

  // ---- Progress ------------------------------------------------------------

  ghost predicate ByWorkerOf(s: State, a: Action, pool: int) {
    (a.Begin? || a.End? || a.Decide?) && IsWorker(s, a.w, pool)
  }

  // How many more worker steps the r-th accepted call of the pool can need
  // before a pass that started after it has ended.
  ghost function Distance(s: State, pool: int, r: nat): nat {
    if Count(s.covered, pool) >= r then 0
    else if pool in s.runs && pool in s.latest && s.latest[pool] in s.workers then
      match s.workers[s.latest[pool]].phase
      case Ready => 2
      case InPass(since) => if since >= r then 1 else 4
      case AtLock => 3
    else 5
  }

  // The number of steps a run gives the pool's worker.
  ghost function WorkerSteps(s: State, as_: seq<Action>, pool: int): nat
    requires IsRun(s, as_)
  {
    if as_ == [] then 0
    else
      var before := as_[..|as_| - 1];
      WorkerSteps(s, before, pool) + if ByWorkerOf(After(s, before), as_[|as_| - 1], pool) then 1 else 0
  }

  // The pool's own worker gets closer with each step ...
  lemma DistanceOwn(s: State, a: Action, pool: int, r: nat)
    requires Inv(s) && !s.cancelled && Enabled(s, a) && ByWorkerOf(s, a, pool) && r <= Count(s.accepted, pool)
    ensures Distance(Step(s, a), pool, r) <= Distance(s, pool, r)
    ensures Distance(s, pool, r) > 0 ==> Distance(Step(s, a), pool, r) < Distance(s, pool, r)
  {
    assert Owed(s, a.w) && s.latest[pool] == a.w;
  }

  // ... and nobody else's step moves it back.
  lemma DistanceOther(s: State, a: Action, pool: int, r: nat)
    requires Inv(s) && !s.cancelled && Enabled(s, a) && !a.Cancel? && !ByWorkerOf(s, a, pool) && r <= Count(s.accepted, pool)
    ensures Distance(Step(s, a), pool, r) <= Distance(s, pool, r)
  {
    if Count(s.covered, pool) < r { assert IsWorker(s, s.latest[pool], pool); }
  }

  lemma DistanceStep(s: State, a: Action, pool: int, r: nat)
    requires Inv(s) && !s.cancelled && Enabled(s, a) && !a.Cancel?
    requires r <= Count(s.accepted, pool)
    ensures Distance(s, pool, r) <= 4
    ensures Distance(Step(s, a), pool, r) <= Distance(s, pool, r)
    ensures ByWorkerOf(s, a, pool) && Distance(s, pool, r) > 0 ==> Distance(Step(s, a), pool, r) < Distance(s, pool, r)
  {
    if ByWorkerOf(s, a, pool) { DistanceOwn(s, a, pool, r); } else { DistanceOther(s, a, pool, r); }
  }

  lemma StepAccepts(s: State, a: Action, pool: int)
    requires Enabled(s, a)
    ensures Count(s.accepted, pool) <= Count(Step(s, a).accepted, pool)
    ensures !s.cancelled && !a.Cancel? ==> !Step(s, a).cancelled
  {
  }

  // A pool with an unserved call always has a worker with an enabled step.
  lemma OwedWorkerCanMove(s: State, pool: int)
    requires Inv(s) && !s.cancelled && Count(s.covered, pool) < Count(s.accepted, pool)
    ensures exists w :: IsWorker(s, w, pool) && (Enabled(s, Begin(w)) || Enabled(s, End(w)) || Enabled(s, Decide(w)))
  {
    assert IsWorker(s, s.latest[pool], pool);
  }

  ghost predicate NoCancel(as_: seq<Action>) {
    forall i :: 0 <= i < |as_| ==> !as_[i].Cancel?
  }

  lemma {:induction false} DistanceRun(s: State, as_: seq<Action>, pool: int, r: nat)
    requires Inv(s) && !s.cancelled && IsRun(s, as_) && NoCancel(as_) && r <= Count(s.accepted, pool)
    ensures Inv(After(s, as_)) && !After(s, as_).cancelled && r <= Count(After(s, as_).accepted, pool)
    ensures Distance(After(s, as_), pool, r) + Min(WorkerSteps(s, as_, pool), Distance(s, pool, r)) <= Distance(s, pool, r)
  {
    if as_ != [] {
      var before, a := as_[..|as_| - 1], as_[|as_| - 1];
      DistanceRun(s, before, pool, r);
      StepKeepsInv(After(s, before), a);
      DistanceStep(After(s, before), a, pool, r);
      StepAccepts(After(s, before), a, pool);
    }
  }

  // No edit is lost: from any reachable state, as soon as the pool's worker has
  // taken four steps without cancellation, every call accepted so far has been
  // followed by a pass that started after it (`ServedUnlessCut`: a whole one, unless
  // the last pass was cut short).
  lemma NoEditLost(past: seq<Action>, as_: seq<Action>, pool: int)
    requires IsRun(INITIAL, past) && !After(INITIAL, past).cancelled
    requires IsRun(After(INITIAL, past), as_) && NoCancel(as_)
    requires WorkerSteps(After(INITIAL, past), as_, pool) >= 4
    ensures var s := After(INITIAL, past);
      Count(After(s, as_).covered, pool) >= Count(s.accepted, pool)
  {
    var s := After(INITIAL, past);
    var r := Count(s.accepted, pool);
    EveryRunSafe(past);
    DistanceRun(s, as_, pool, r);
    DistanceStep(s, Schedule(pool), pool, r);
    assert Distance(After(s, as_), pool, r) == 0;
  }

  // ---- Passes cut short ----------------------------------------------------

  // whole[i] says of a pass that ended with step i that it was not cut short by its
  // own timeout.  How many calls a whole pass that started later has served:
  ghost function Finished(as_: seq<Action>, whole: seq<bool>, pool: int): nat
    requires IsRun(INITIAL, as_) && |whole| == |as_|
  {
    if as_ == [] then 0
    else
      var n := |as_| - 1;
      var s, rest := After(INITIAL, as_[..n]), Finished(as_[..n], whole[..n], pool);
      if EndsPass(s, as_[n], pool) && whole[n] then Max(rest, s.workers[as_[n].w].phase.since) else rest
  }

  predicate EndsPass(s: State, a: Action, pool: int) {
    a.End? && a.w in s.workers && s.workers[a.w].phase.InPass? && s.workers[a.w].pool == pool
  }

  // The last pass of the pool, if there was one, was whole.
  ghost predicate LastWhole(as_: seq<Action>, whole: seq<bool>, pool: int)
    requires IsRun(INITIAL, as_) && |whole| == |as_|
  {
    as_ != [] ==>
      var n := |as_| - 1;
      if EndsPass(After(INITIAL, as_[..n]), as_[n], pool) then whole[n] else LastWhole(as_[..n], whole[..n], pool)
  }

  // A pass under way started after every call served so far.
  ghost predicate StartedLater(s: State, pool: int) {
    forall w :: IsWorker(s, w, pool) && s.workers[w].phase.InPass? ==> s.workers[w].phase.since >= Count(s.covered, pool)
  }

  lemma EndStartedLater(s: State, a: Action, pool: int)
    requires Inv(s) && Enabled(s, a) && StartedLater(s, pool) && EndsPass(s, a, pool)
    ensures StartedLater(Step(s, a), pool) && Count(Step(s, a).covered, pool) == s.workers[a.w].phase.since
  {
    assert IsWorker(s, a.w, pool);
    forall w | IsWorker(s, w, pool) ensures w == a.w { AtMostOneWorker(s, w, a.w, pool); }
  }

  lemma StepStartedLater(s: State, a: Action, pool: int)
    requires Inv(s) && Enabled(s, a) && StartedLater(s, pool)
    ensures StartedLater(Step(s, a), pool)
    ensures Count(Step(s, a).covered, pool) == if EndsPass(s, a, pool) then s.workers[a.w].phase.since else Count(s.covered, pool)
  {
    if EndsPass(s, a, pool) {
      EndStartedLater(s, a, pool);
    } else {
      assert Count(s.covered, pool) <= Count(s.accepted, pool) && Count(Step(s, a).covered, pool) == Count(s.covered, pool);
      assert forall w :: IsWorker(Step(s, a), w, pool) && Step(s, a).workers[w].phase.InPass? ==> IsWorker(s, w, pool);
    }
  }

  // Only the last pass matters: unless it was cut short, whatever has been served
  // was served by a whole pass; in a pool at rest that is every accepted call.
  lemma {:induction false} ServedUnlessCut(as_: seq<Action>, whole: seq<bool>, pool: int)
    requires IsRun(INITIAL, as_) && |whole| == |as_|
    ensures var s := After(INITIAL, as_);
      StartedLater(s, pool) && Finished(as_, whole, pool) <= Count(s.covered, pool) <= Count(s.accepted, pool) &&
      (LastWhole(as_, whole, pool) ==> Finished(as_, whole, pool) == Count(s.covered, pool)) &&
      (LastWhole(as_, whole, pool) && !s.cancelled && pool !in s.runs ==> Finished(as_, whole, pool) == Count(s.accepted, pool))
  {
    EveryRunSafe(as_);
    if as_ != [] {
      var n := |as_| - 1;
      ServedUnlessCut(as_[..n], whole[..n], pool);
      EveryRunSafe(as_[..n]);
      StepStartedLater(After(INITIAL, as_[..n]), as_[n], pool);
    }
  }

  lemma RunSnoc(as_: seq<Action>, a: Action)
    requires IsRun(INITIAL, as_) && Enabled(After(INITIAL, as_), a)
    ensures IsRun(INITIAL, as_ + [a]) && After(INITIAL, as_ + [a]) == Step(After(INITIAL, as_), a)
  {
    assert (as_ + [a])[..|as_|] == as_;
  }

  // A concrete case: the one pass of an edit is cut short, and the worker is gone.
  lemma CutShort(pool: int) returns (as_: seq<Action>, whole: seq<bool>)
    ensures IsRun(INITIAL, as_) && |whole| == |as_| && as_ == [Schedule(pool), Begin(0), End(0), Decide(0)]
    ensures var s := After(INITIAL, as_);
      pool !in s.runs && !s.cancelled && Count(s.accepted, pool) == 1 && Finished(as_, whole, pool) == 0
  {
    RunSnoc([], Schedule(pool));
    RunSnoc([] + [Schedule(pool)], Begin(0));
    RunSnoc([] + [Schedule(pool)] + [Begin(0)], End(0));
    RunSnoc([] + [Schedule(pool)] + [Begin(0)] + [End(0)], Decide(0));
    as_, whole := [] + [Schedule(pool)] + [Begin(0)] + [End(0)] + [Decide(0)], [false, false, false, false];
    NeverWhole(as_, whole, pool);
  }

  lemma {:induction false} NeverWhole(as_: seq<Action>, whole: seq<bool>, pool: int)
    requires IsRun(INITIAL, as_) && |whole| == |as_| && forall i :: 0 <= i < |whole| ==> !whole[i]
    ensures Finished(as_, whole, pool) == 0
  {
    if as_ != [] { NeverWhole(as_[..|as_| - 1], whole[..|as_| - 1], pool); }
  }

  // ---- Coalescing and shutdown ---------------------------------------------

  // Worker steps left when no further call is accepted.
  ghost function Remaining(s: State, pool: int): nat {
    if pool in s.runs && pool in s.latest && s.latest[pool] in s.workers then
      (match s.workers[s.latest[pool]].phase case Ready => 3 case InPass(_) => 2 case AtLock => 1) +
      (if s.runs[pool] && !s.cancelled then 3 else 0)
    else 0
  }

  lemma RemainingOwn(s: State, a: Action, pool: int)
    requires Inv(s) && Enabled(s, a) && ByWorkerOf(s, a, pool)
    ensures Remaining(Step(s, a), pool) < Remaining(s, pool)
  {
    assert s.latest[pool] == a.w;
  }

  lemma RemainingOther(s: State, a: Action, pool: int)
    requires Inv(s) && Enabled(s, a) && !ByWorkerOf(s, a, pool) && (s.cancelled || a != Schedule(pool))
    ensures Remaining(Step(s, a), pool) <= Remaining(s, pool)
  {
    if pool in s.runs { assert IsWorker(s, s.latest[pool], pool); }
  }

  lemma RemainingStep(s: State, a: Action, pool: int)
    requires Inv(s) && Enabled(s, a)
    requires s.cancelled || a != Schedule(pool)
    ensures Remaining(Step(s, a), pool) <= Remaining(s, pool)
    ensures ByWorkerOf(s, a, pool) ==> Remaining(Step(s, a), pool) < Remaining(s, pool)
    ensures s.cancelled ==> Remaining(s, pool) <= 3
  {
    if ByWorkerOf(s, a, pool) { RemainingOwn(s, a, pool); } else { RemainingOther(s, a, pool); }
  }

  ghost predicate Quiet(s: State, as_: seq<Action>, pool: int) {
    s.cancelled || forall i :: 0 <= i < |as_| ==> as_[i] != Schedule(pool)
  }

  lemma {:induction false} RemainingRun(s: State, as_: seq<Action>, pool: int)
    requires Inv(s) && IsRun(s, as_) && Quiet(s, as_, pool)
    ensures Inv(After(s, as_)) && (s.cancelled ==> After(s, as_).cancelled)
    ensures Remaining(After(s, as_), pool) + WorkerSteps(s, as_, pool) <= Remaining(s, pool)
  {
    if as_ != [] {
      var before, a := as_[..|as_| - 1], as_[|as_| - 1];
      RemainingRun(s, before, pool);
      StepKeepsInv(After(s, before), a);
      RemainingStep(After(s, before), a, pool);
    }
  }

  // Any number of edits during a pass coalesces into one rerun: after the last
  // call the worker takes at most six more steps (the pass at hand, one rerun
  // and the two decisions), and three once cancelled, so shutdown's wait ends.
  lemma WorkerSettles(s: State, as_: seq<Action>, pool: int)
    requires Inv(s) && IsRun(s, as_) && Quiet(s, as_, pool)
    ensures WorkerSteps(s, as_, pool) <= if s.cancelled then 3 else 6
    ensures WorkerSteps(s, as_, pool) == Remaining(s, pool) ==> !exists w :: IsWorker(After(s, as_), w, pool)
  {
    RemainingRun(s, as_, pool);
    RemainingStep(s, Cancel, pool);
  }

  // An edit of a pool at rest, with no other, causes one pass and no rerun: the worker it
  // starts takes three steps.
  lemma OneEditOnePass(s: State, as_: seq<Action>, pool: int)
    requires Inv(s) && !s.cancelled && pool !in s.runs
    requires IsRun(Step(s, Schedule(pool)), as_) && Quiet(Step(s, Schedule(pool)), as_, pool)
    ensures WorkerSteps(Step(s, Schedule(pool)), as_, pool) <= 3
  {
    StepKeepsInv(s, Schedule(pool));
    RemainingRun(Step(s, Schedule(pool)), as_, pool);
  }

  // After cancellation no worker is ever started again, so the wait group that
  // counts the workers can only go down.
  lemma {:induction false} NoWorkerAfterCancel(s: State, as_: seq<Action>)
    requires s.cancelled && IsRun(s, as_)
    ensures After(s, as_).cancelled && After(s, as_).workers.Keys <= s.workers.Keys && After(s, as_).accepted == s.accepted
  {
    if as_ != [] { NoWorkerAfterCancel(s, as_[..|as_| - 1]); }
  }

  // ---- The controller's recycle fields and critical sections -----------------

  class Recycler {
    var recycleRuns: map<int, bool>
    var bgCancelled: bool
    var wg: nat
    // Where the goroutines stand, and the bookkeeping of the claim.
    ghost var workers: map<nat, Worker>
    ghost var spawned: nat
    ghost var latest: map<int, nat>
    ghost var accepted: map<int, nat>
    ghost var covered: map<int, nat>

    ghost function S(): State reads this {
      State(recycleRuns, workers, spawned, bgCancelled, latest, accepted, covered)
    }

    // The wait group counts the live workers.  Inv(S()) is kept as well, by
    // StepKeepsInv.
    ghost predicate Valid() reads this {
      wg == |workers| && forall w :: w in workers ==> w < spawned
    }

    constructor ()
      ensures Valid() && S() == INITIAL
    {
      recycleRuns, bgCancelled, wg := map[], false, 0;
      workers, spawned, latest, accepted, covered := map[], 0, map[], map[], map[];
    }

    method ScheduleIdleRecycle(pool: int)
      requires Valid()
      modifies this
      ensures Valid() && S() == Step(old(S()), Schedule(pool))
    {
      if bgCancelled { return; }
      accepted := accepted[pool := Count(accepted, pool) + 1];
      if pool in recycleRuns {
        recycleRuns := recycleRuns[pool := true];
        return;
      }
      recycleRuns := recycleRuns[pool := false];
      wg := wg + 1;
      workers := workers[spawned := Worker(pool, Ready)];
      latest := latest[pool := spawned];
      spawned := spawned + 1;
    }

    // A pass touches none of the real fields; only its two ends are recorded.
    ghost method BeginPass(w: nat)
      requires Valid() && Enabled(S(), Begin(w))
      modifies this`workers
      ensures Valid() && S() == Step(old(S()), Begin(w))
    {
      workers := workers[w := workers[w].(phase := InPass(Count(accepted, workers[w].pool)))];
    }

    ghost method EndPass(w: nat)
      requires Valid() && Enabled(S(), End(w))
      modifies this`workers, this`covered
      ensures Valid() && S() == Step(old(S()), End(w))
    {
      var pool := workers[w].pool;
      covered := covered[pool := Max(Count(covered, pool), workers[w].phase.since)];
      workers := workers[w := Worker(pool, AtLock)];
    }

    // The critical section at the end of each pass; exit ends the goroutine.
    method DecideRerun(pool: int, ghost w: nat) returns (exit: bool)
      requires Valid() && Enabled(S(), Decide(w)) && workers[w].pool == pool
      modifies this
      ensures Valid() && S() == Step(old(S()), Decide(w))
      ensures exit <==> w !in workers
    {
      exit := !recycleRuns[pool] || bgCancelled;
      if exit {
        recycleRuns := recycleRuns - {pool};
        assert |workers - {w}| == |workers| - 1 by {
          assert workers.Keys == (workers - {w}).Keys + {w};
        }
        workers := workers - {w};
        wg := wg - 1;
      } else {
        recycleRuns := recycleRuns[pool := false];
        workers := workers[w := Worker(pool, Ready)];
      }
    }

    method StopBackground()
      requires Valid()
      modifies this`bgCancelled
      ensures Valid() && S() == Step(old(S()), Cancel)
    {
      bgCancelled := true;
    }
  }
}
