// The pool allocator of internal/orchestrator/controller.go and
// internal/orchestrator/webhook_scaling.go.  Every method is one section under
// provisionMu.  The engine and the forge answer arbitrarily (`*`); the pools a
// step loads from the database and the clock reading are its parameters.
module Controller {
  import opened Basics
  import opened Tracking
  import opened Fleet
  import opened Queue
  import opened Removal
  import opened Webhook
  import opened Ledger

  class PoolController {
    const reconciler: Reconciler
    const grace: int        // scale-to-zero grace period
    const adoptAll: bool    // engine ownership mode
    var queue: seq<Request>
    var globalMaxRunners: int
    var drainingPools: map<nat, DrainEntry>
    var recentlyRemoved: map<string, int>
    var demand: Demands
    // The ids the engine has given away, and everything done to it so far.
    var used: set<string>
    ghost var log: seq<Event>

    // Includes two claims over all runs: every spawn ever made left room under its
    // pool's cap, as loaded by the step that made it, and under the global quota;
    // and the log accounts for every container in the table (`Ledger`).
    ghost predicate Valid() reads this, reconciler {
      Tidy() && AllFit(log)
    }

    ghost predicate Tidy() reads this, reconciler {
      Balanced(reconciler.tracked, log, used)
    }

    ghost function T(): Table reads this, reconciler {
      reconciler.tracked
    }

    constructor (grace: int, quota: int, adoptAll: bool)
      ensures Valid() && fresh(reconciler) && T() == map[] && queue == [] && log == []
      ensures this.grace == grace && globalMaxRunners == quota && this.adoptAll == adoptAll
      ensures drainingPools == map[] && demand == map[]
    {
      reconciler := new Reconciler();
      this.grace, this.adoptAll, globalMaxRunners := grace, adoptAll, quota;
      queue, drainingPools, recentlyRemoved, demand := [], map[], map[], map[];
      log, used := [], {};
    }

    // ---- Counting ----------------------------------------------------------

    method TotalActiveRunners() returns (n: nat)
      ensures n == |AllRunning(T())|
    {
      n := 0;
      var todo := reconciler.tracked.Keys;
      ghost var counted: set<Slot> := {};
      while todo != {}
        invariant todo <= T().Keys && n == |counted|
        invariant counted == set s | s in AllRunning(T()) && s !in todo
      {
        var s := Pick(todo);
        todo := todo - {s};
        if reconciler.tracked[s].running {
          n := n + 1;
          counted := counted + {s};
        }
      }
      assert counted == AllRunning(T());
    }

    // The pool's running count and its idle runners in some order.
    method Classify(pool: nat) returns (active: nat, idle: seq<Runner>)
      requires Valid()
      ensures active == |RunningIn(T(), pool)|
      ensures IsIdleList(T(), pool, idle)
    {
      var rs := reconciler.TrackedPoolRunners(pool);
      active, idle := 0, [];
      for i := 0 to |rs|
        invariant active == |Select(IsRunning, rs[..i])| && idle == Select(IsIdle, rs[..i])
      {
        assert rs[..i + 1][..i] == rs[..i];
        if rs[i].running {
          active := active + 1;
          if !rs[i].busy { idle := idle + [rs[i]]; }
        }
      }
      assert rs[..|rs|] == rs;
      SnapshotCounts(T(), pool, rs);
    }

    // Whatever the forge and the engine say.
    static method Outcomes() returns (token: bool, started: bool)
    {
      token, started := *, *;
    }

    // ---- One container -----------------------------------------------------

    // token and started say whether the forge granted a registration token and the
    // engine a container.  The engine never hands out an id twice, the name is
    // arbitrary.
    method SpawnSingleRunner(p: Pool, onDemand: bool, target: string, token: bool, started: bool, now: int)
      returns (ok: bool, ghost s: Slot, ghost ev: seq<Event>)
      requires Tidy()
      modifies this`log, this`used, reconciler
      ensures Tidy() && log == old(log) + ev
      ensures ok <==> (target != "" || p.targets != []) && token && started
      ensures !ok ==> T() == old(T()) && ev == [SpawnFailed(p.id)]
      ensures ok ==> s !in old(T()) && s in T() && T() == old(T())[s := T()[s]] && s.id !in old(used)
      ensures old(used) <= used
      ensures ok ==> Fresh(p, s, T()[s], onDemand, now)
      ensures ok ==> T()[s].target == (if target == "" then p.targets[0] else target)
      ensures ok ==> ev == [Spawned(s, T()[s].target, p.maxConcurrency, globalMaxRunners,
                                    |RunningIn(old(T()), p.id)|, |AllRunning(old(T()))|)]
    {
      ok, s := false, Slot(0, "");
      var url := target;
      if url == "" {
        if p.targets == [] { ev := NoteFailure(p.id); return; }
        url := p.targets[0];
      }
      if !token { ev := NoteFailure(p.id); return; }
      if !started { ev := NoteFailure(p.id); return; }
      ok := true;
      s, ev := Launch(p, onDemand, url, now);
    }

    ghost method NoteFailure(pool: nat) returns (ev: seq<Event>)
      requires Tidy()
      modifies this`log
      ensures Tidy() && ev == [SpawnFailed(pool)] && log == old(log) + ev
    {
      ev := [SpawnFailed(pool)];
      BookNothing(T(), T(), log, used, ev[0]);
      log := log + ev;
    }

    // The engine started the container.
    method Launch(p: Pool, onDemand: bool, url: string, now: int) returns (ghost s: Slot, ghost ev: seq<Event>)
      requires Tidy()
      modifies this`log, this`used, reconciler
      ensures Tidy() && log == old(log) + ev && old(used) <= used
      ensures s !in old(T()) && s in T() && T() == old(T())[s := T()[s]] && s.id !in old(used)
      ensures Fresh(p, s, T()[s], onDemand, now) && T()[s].target == url
      ensures ev == [Spawned(s, url, p.maxConcurrency, globalMaxRunners, |RunningIn(old(T()), p.id)|, |AllRunning(old(T()))|)]
    {
      FreshId(used);
      var id :| id !in used;
      var name: string := *;
      s := Slot(p.id, id);
      ev := [Spawned(s, url, p.maxConcurrency, globalMaxRunners, |RunningIn(T(), p.id)|, |AllRunning(T())|)];
      var r := Runner(id, name, p.name, p.id, true, false, onDemand, now, 0, url, 0);
      BookEntry(T(), log, used, ev[0], r);
      log, used := log + ev, used + {id};
      reconciler.TrackRunner(r);
    }

    // Remembers a removal as ours and forgets the old ones.
    method MarkEngineRemoved(id: string, now: int)
      modifies this`recentlyRemoved
      ensures id in recentlyRemoved && recentlyRemoved[id] == now
      ensures forall k :: k != id ==>
        (k in recentlyRemoved <==> k in old(recentlyRemoved) && now - old(recentlyRemoved)[k] <= RECENT_REMOVAL_TTL) &&
        (k in recentlyRemoved ==> recentlyRemoved[k] == old(recentlyRemoved)[k])
      ensures Remembered(old(recentlyRemoved), recentlyRemoved, {id}, now)
    {
      recentlyRemoved := (map k | k in recentlyRemoved && now - recentlyRemoved[k] <= RECENT_REMOVAL_TTL :: recentlyRemoved[k])
        [id := now];
    }

    // The single removal path: whether the engine terminated the container only
    // decides if the removal is remembered as ours; tracking is dropped either way.
    method TerminateAndRecord(pool: nat, r: Runner, reason: Reason, now: int, limit: int, answer: Dereg, terminated: bool)
      returns (ghost ev: seq<Event>)
      requires Tidy()
      modifies this`log, this`recentlyRemoved, reconciler
      ensures Tidy() && T() == old(T()) - {Slot(pool, r.id)}
      ensures ev == [Removed(Slot(pool, r.id), r, reason, now, limit, answer, Slot(pool, r.id) in old(T()))] && log == old(log) + ev
      ensures !terminated ==> recentlyRemoved == old(recentlyRemoved)
      ensures terminated ==> r.id in recentlyRemoved && recentlyRemoved[r.id] == now
      ensures Remembered(old(recentlyRemoved), recentlyRemoved, {r.id}, now)
    {
      if terminated { MarkEngineRemoved(r.id, now); }
      ev := [Removed(Slot(pool, r.id), r, reason, now, limit, answer, Slot(pool, r.id) in T())];
      if Slot(pool, r.id) in T() { BookDeparture(T(), log, used, ev[0]); } else { BookNothing(T(), T(), log, used, ev[0]); }
      reconciler.UntrackRunner(pool, r.id);
      log := log + ev;
    }

    // The forge has the last word on an idle runner: exactly a veto keeps it, and
    // then the first runner of its name is marked busy.
    method DrainIdleRunner(pool: nat, r: Runner, reason: Reason, answer: Dereg, now: int)
      returns (drained: bool, ghost hit: Option<Slot>, ghost ev: seq<Event>)
      requires Tidy()
      modifies this`log, this`recentlyRemoved, reconciler
      ensures Tidy() && log == old(log) + ev
      ensures drained <==> answer != Busy
      ensures drained ==> T() == old(T()) - {Slot(pool, r.id)}
      ensures drained ==> ev == [Removed(Slot(pool, r.id), r, reason, now, 0, answer, Slot(pool, r.id) in old(T()))]
      ensures hit.Some? ==> hit.value in old(T()) && Matches(old(T())[hit.value], r.name)
      ensures !drained ==> T() == MarkEntry(old(T()), hit, true, now) && ev == [Vetoed(Slot(pool, r.id))]
      ensures !drained && r.name != "" && hit.None? ==> forall s :: s in T() ==> !Matches(T()[s], r.name)
    {
      hit := None;
      if answer == Busy {
        ev := [Vetoed(Slot(pool, r.id))];
        ghost var t := T();
        log := log + ev;
        if r.name != "" { hit := reconciler.MarkRunnerBusy(r.name, true, now); }
        BookNothing(t, T(), old(log), used, ev[0]);
        return false, hit, ev;
      }
      var terminated: bool := *;
      ev := TerminateAndRecord(pool, r, reason, now, 0, answer, terminated);
      return true, hit, ev;
    }

    // ---- The three drain loops of a cycle ------------------------------------

    // Drains one runner of a list that is being walked over.
    method DrainListed(pool: nat, idle: seq<Runner>, r: Runner, reason: Reason, now: int,
                       ghost t: Table, ghost past: seq<Event>, ghost w: Walk)
      returns (done: bool, ghost w1: Walk)
      requires Valid() && log == past + w.ev && Listed(t, pool, idle) && DrainWalk(t, T(), pool, idle, w, now)
      requires reason == w.reason && r in idle && Slot(pool, r.id) !in w.gone
      modifies this`log, this`recentlyRemoved, reconciler
      ensures Valid() && log == past + w1.ev
      ensures DrainWalk(t, T(), pool, idle, w1, now)
      ensures w1.reason == w.reason
      ensures done ==> w1.gone == w.gone + {Slot(pool, r.id)} && |w1.gone| == |w.gone| + 1
      ensures done ==> w1.vetoed == w.vetoed && w1.vetoes == w.vetoes
      ensures !done ==> w1.gone == w.gone && w1.vetoed == w.vetoed + {Slot(pool, r.id)} && w1.vetoes == w.vetoes + 1
    {
      ghost var before, hit, more := T(), None, [];
      var answer: Dereg := *;
      done, hit, more := DrainIdleRunner(pool, r, reason, answer, now);
      if done {
        DrainGone(t, before, T(), pool, idle, r, w, reason, answer, more, now);
        w1 := Walk(w.gone + {Slot(pool, r.id)}, w.vetoed, w.vetoes, w.ev + more, w.reason);
      } else {
        DrainVeto(t, before, T(), pool, idle, r, w, more, now);
        w1 := Walk(w.gone, w.vetoed + {Slot(pool, r.id)}, w.vetoes + 1, w.ev + more, w.reason);
      }
      FitAppend(past + w.ev, more);
      Assoc(past, w.ev, more);
    }

    // ... unless enough were drained already: then it is left.
    method DrainOrLeave(drained: nat, excess: nat, pool: nat, idle: seq<Runner>, i: nat, left: seq<Runner>, now: int,
                        ghost m: nat, ghost t: Table, ghost past: seq<Event>, ghost w: Walk)
      returns (drained1: nat, left1: seq<Runner>, ghost m1: nat, ghost w1: Walk)
      requires Valid() && log == past + w.ev && Listed(t, pool, idle) && DrainWalk(t, T(), pool, idle, w, now)
      requires i < |idle| && CapWalk(pool, idle, m, i, drained, excess, left, w)
      modifies this`log, this`recentlyRemoved, reconciler
      ensures Valid() && log == past + w1.ev
      ensures DrainWalk(t, T(), pool, idle, w1, now) && CapWalk(pool, idle, m1, i + 1, drained1, excess, left1, w1)
    {
      var done := false;
      left1, w1 := left, w;
      if drained < excess { done, w1 := DrainListed(pool, idle, idle[i], IdleDrain, now, t, past, w); }
      if !done { left1 := left + [idle[i]]; }
      drained1 := if done then drained + 1 else drained;
      m1 := if drained < excess then i + 1 else m;
      CapWalkNext(pool, idle, m, i, drained, excess, left, w, w1, done);
    }

    // Above the pool's cap: drain until the excess is gone.
    method DrainOverCap(p: Pool, idle: seq<Runner>, excess: nat, now: int)
      returns (drained: nat, left: seq<Runner>, ghost m: nat, ghost w: Walk)
      requires Valid() && Listed(T(), p.id, idle)
      modifies this`log, this`recentlyRemoved, reconciler
      ensures Valid() && log == old(log) + w.ev
      ensures DrainWalk(old(T()), T(), p.id, idle, w, now)
      ensures CapWalk(p.id, idle, m, |idle|, drained, excess, left, w)
    {
      drained, left, m, w := 0, [], 0, START;
      ghost var t, past := T(), log;
      PlusNothing(past);
      StartWalk(t, p.id, idle, excess, now);
      for i := 0 to |idle|
        invariant Valid() && log == past + w.ev
        invariant DrainWalk(t, T(), p.id, idle, w, now)
        invariant CapWalk(p.id, idle, m, i, drained, excess, left, w)
      {
        drained, left, m, w := DrainOrLeave(drained, excess, p.id, idle, i, left, now, m, t, past, w);
      }
    }

    // One listed runner of the second branch: spared unless it is unwanted.
    method DrainUnwanted(want: bool, drained: nat, pool: nat, idle: seq<Runner>, i: nat, now: int,
                         ghost unwanted: seq<bool>, ghost limit: nat, ghost t: Table, ghost past: seq<Event>, ghost w: Walk)
      returns (drained1: nat, ghost w1: Walk)
      requires Valid() && log == past + w.ev && Listed(t, pool, idle) && DrainWalk(t, T(), pool, idle, w, now)
      requires drained == |w.gone|
      requires i < |idle| && TargetWalk(pool, idle, unwanted, limit, i, w) && want == unwanted[i] && |w.gone| < limit
      modifies this`log, this`recentlyRemoved, reconciler
      ensures Valid() && log == past + w1.ev
      ensures DrainWalk(t, T(), pool, idle, w1, now) && TargetWalk(pool, idle, unwanted, limit, i + 1, w1)
      ensures drained1 == |w1.gone| <= drained + 1
    {
      var done := false;
      w1 := w;
      if want { done, w1 := DrainListed(pool, idle, idle[i], IdleDrain, now, t, past, w); }
      drained1 := if done then drained + 1 else drained;
      TargetWalkNext(pool, idle, unwanted, limit, i, w, w1);
    }

    // Scale to zero: every stale idle runner goes.
    method DrainStale(p: Pool, idle: seq<Runner>, now: int, ghost unwanted: seq<bool>) returns (drained: nat, ghost w: Walk)
      requires Valid() && Listed(T(), p.id, idle) && unwanted == StaleFlags(idle, grace, now)
      modifies this`log, this`recentlyRemoved, reconciler
      ensures Valid() && log == old(log) + w.ev
      ensures DrainWalk(old(T()), T(), p.id, idle, w, now) && drained == |w.gone|
      ensures TargetWalk(p.id, idle, unwanted, |idle|, |idle|, w)
    {
      drained, w := 0, START;
      ghost var t, past, limit := T(), log, |idle|;
      PlusNothing(past);
      StartTarget(t, p.id, idle, unwanted, limit, now);
      for i := 0 to |idle|
        invariant Valid() && log == past + w.ev
        invariant DrainWalk(t, T(), p.id, idle, w, now) && drained == |w.gone| <= i
        invariant TargetWalk(p.id, idle, unwanted, limit, i, w)
      {
        var r := idle[i];
        FlagsAt(idle, grace, now, i);
        var stale := !r.onDemand || (r.onDemand && r.spawnedAt != 0 && now - r.spawnedAt >= grace);
        drained, w := DrainUnwanted(stale, drained, p.id, idle, i, now, unwanted, limit, t, past, w);
      }
    }

    // Idle beyond the target: drain the excess, sparing on-demand runners that
    // may still be registering.  n runners were looked at.
    method DrainExcess(p: Pool, idle: seq<Runner>, excess: int, now: int, ghost unwanted: seq<bool>)
      returns (drained: nat, ghost n: nat, ghost w: Walk)
      requires Valid() && Listed(T(), p.id, idle) && excess > 0 && unwanted == SettledFlags(idle, grace, now)
      modifies this`log, this`recentlyRemoved, reconciler
      ensures Valid() && log == old(log) + w.ev
      ensures DrainWalk(old(T()), T(), p.id, idle, w, now) && drained == |w.gone| <= excess
      ensures n <= |idle| && TargetWalk(p.id, idle, unwanted, excess, n, w)
      ensures drained == excess || n == |idle|
    {
      drained, n, w := 0, |idle|, START;
      ghost var t, past := T(), log;
      PlusNothing(past);
      StartTarget(t, p.id, idle, unwanted, excess, now);
      for i := 0 to |idle|
        invariant Valid() && log == past + w.ev && n == |idle|
        invariant DrainWalk(t, T(), p.id, idle, w, now) && drained == |w.gone| <= excess
        invariant TargetWalk(p.id, idle, unwanted, excess, i, w)
      {
        if drained >= excess { n := i; break; }
        var r := idle[i];
        FlagsAt(idle, grace, now, i);
        var settled := !(r.onDemand && r.spawnedAt != 0 && now - r.spawnedAt < grace);
        drained, w := DrainUnwanted(settled, drained, p.id, idle, i, now, unwanted, excess, t, past, w);
      }
    }

    // The first branch: only above max_concurrency.
    method DrainToCap(p: Pool, active: nat, idle: seq<Runner>, now: int)
      returns (left: nat, rest: seq<Runner>, ghost w: Walk)
      requires Valid() && active == |RunningIn(T(), p.id)| && IsIdleList(T(), p.id, idle)
      modifies this`log, this`recentlyRemoved, reconciler
      ensures Valid() && log == old(log) + w.ev
      ensures CapBranch(old(T()), T(), p, idle, rest, left, w, now)
    {
      IdleListed(T(), p.id, idle);
      left, rest, w := active, idle, START;
      if p.maxConcurrency > 0 && active > p.maxConcurrency {
        var drained;
        ghost var m;
        drained, rest, m, w := DrainOverCap(p, idle, active - p.maxConcurrency, now);
        CapBranchDone(old(T()), T(), p, idle, rest, m, drained, active - p.maxConcurrency, w, now);
        left := active - drained;
      } else {
        PlusNothing(log);
        CapBranchIdle(T(), p, idle, now);
      }
    }

    // The second branch: standbys of a scale-to-zero pool, or idle runners beyond
    // the target.
    method DrainToTarget(p: Pool, active: nat, rest: seq<Runner>, target: int, now: int) returns (left: nat, ghost w: Walk)
      requires Valid() && active == |RunningIn(T(), p.id)|
      requires Listed(T(), p.id, rest) && SlotsOf(p.id, rest) <= RunningIn(T(), p.id)
      modifies this`log, this`recentlyRemoved, reconciler
      ensures Valid() && log == old(log) + w.ev
      ensures TargetBranch(old(T()), T(), p, rest, left, target, w, grace, now)
    {
      if p.minIdle == 0 {
        left, w := DrainStandbys(p, active, rest, target, now);
      } else if |rest| > target {
        left, w := DrainBeyond(p, active, rest, target, now);
      } else {
        left, w := active, START;
        PlusNothing(log);
        TargetBranchIdle(T(), p, rest, target, grace, now);
      }
    }

    method DrainStandbys(p: Pool, active: nat, rest: seq<Runner>, target: int, now: int) returns (left: nat, ghost w: Walk)
      requires Valid() && active == |RunningIn(T(), p.id)| && p.minIdle == 0
      requires Listed(T(), p.id, rest) && SlotsOf(p.id, rest) <= RunningIn(T(), p.id)
      modifies this`log, this`recentlyRemoved, reconciler
      ensures Valid() && log == old(log) + w.ev
      ensures TargetBranch(old(T()), T(), p, rest, left, target, w, grace, now)
    {
      var drained;
      drained, w := DrainStale(p, rest, now, StaleFlags(rest, grace, now));
      StaleBranch(old(T()), T(), p, rest, active - drained, target, w, grace, now);
      left := active - drained;
    }

    method DrainBeyond(p: Pool, active: nat, rest: seq<Runner>, target: int, now: int) returns (left: nat, ghost w: Walk)
      requires Valid() && active == |RunningIn(T(), p.id)| && p.minIdle != 0 && |rest| > target
      requires Listed(T(), p.id, rest) && SlotsOf(p.id, rest) <= RunningIn(T(), p.id)
      modifies this`log, this`recentlyRemoved, reconciler
      ensures Valid() && log == old(log) + w.ev
      ensures TargetBranch(old(T()), T(), p, rest, left, target, w, grace, now)
    {
      var drained;
      ghost var n;
      drained, n, w := DrainExcess(p, rest, |rest| - target, now, SettledFlags(rest, grace, now));
      ExcessBranch(old(T()), T(), p, rest, active - drained, target, n, w, grace, now);
      left := active - drained;
    }

    // Both drain branches.
    method ScaleDown(p: Pool, active: nat, idle: seq<Runner>, target: int, now: int) returns (left: nat, ghost w: Walk)
      requires Valid() && active == |RunningIn(T(), p.id)| && IsIdleList(T(), p.id, idle) && Capped(p, target) == target
      modifies this`log, this`recentlyRemoved, reconciler
      ensures Valid() && log == old(log) + w.ev
      ensures ScaledDown(old(T()), T(), p, idle, left, target, w, grace, now)
    {
      ghost var t0, a, b := T(), START, START;
      var rest;
      IdleListed(t0, p.id, idle);
      left, rest, a := DrainToCap(p, active, idle, now);
      ghost var t1, left1 := T(), left;
      RestReady(t0, t1, p, idle, rest, left, a, now);
      left, b := DrainToTarget(p, left, rest, target, now);
      CapThenTarget(t0, t1, T(), p, idle, rest, left1, left, target, a, b, grace, now);
      w := Both(a, b);
      Assoc(old(log), a.ev, b.ev);
    }

    // ---- Polled demand -------------------------------------------------------

    // One queue entry per polled job that no idle runner of its target covers.
    method PollDemand(p: Pool, idle: seq<Runner>, answers: seq<Option<nat>>) returns (demandQueue: seq<string>)
      requires |answers| == |p.targets| && "" !in p.targets && IsIdleList(T(), p.id, idle)
      ensures demandQueue == DemandQueue(p.targets, Polled(p.targets, answers), T(), p.id)
      ensures "" !in demandQueue
    {
      var demandByTarget := PolledByTarget(p.targets, answers);
      var idleByTarget := IdleByTarget(p.id, idle);
      demandQueue := [];
      for i := 0 to |p.targets|
        invariant demandQueue == DemandQueue(p.targets[..i], demandByTarget, T(), p.id) && "" !in demandQueue
      {
        var target := p.targets[i];
        var jobs: int := if target in demandByTarget then demandByTarget[target] else 0;
        var idlers: int := if target in idleByTarget then idleByTarget[target] else 0;
        var deficit: int := jobs - idlers;
        assert p.targets[..i + 1][..i] == p.targets[..i];
        demandQueue := Append(demandQueue, target, deficit);
      }
      assert p.targets[..|p.targets|] == p.targets;
    }

    static method Append(queue: seq<string>, target: string, deficit: int) returns (more: seq<string>)
      ensures more == queue + Repeat(target, deficit)
      ensures target != "" && "" !in queue ==> "" !in more
    {
      more := queue;
      var k := 0;
      while k < deficit
        invariant 0 <= k <= Max(deficit, 0) && more == queue + Repeat(target, k)
        invariant target != "" && "" !in queue ==> "" !in more
      {
        more := more + [target];
        k := k + 1;
      }
    }

    method PolledByTarget(targets: seq<string>, answers: seq<Option<nat>>) returns (m: map<string, nat>)
      requires |answers| == |targets|
      ensures m == Polled(targets, answers)
    {
      m := map[];
      for i := 0 to |targets|
        invariant m == Polled(targets[..i], answers[..i])
      {
        assert targets[..i + 1][..i] == targets[..i] && answers[..i + 1][..i] == answers[..i];
        if answers[i].Some? { m := m[targets[i] := answers[i].value]; }
      }
      assert targets[..|targets|] == targets && answers[..|targets|] == answers;
    }

    method IdleByTarget(pool: nat, idle: seq<Runner>) returns (m: map<string, nat>)
      requires IsIdleList(T(), pool, idle)
      ensures forall x :: x != "" ==> (if x in m then m[x] else 0) == |IdleOn(T(), pool, x)|
    {
      m := map[];
      for i := 0 to |idle|
        invariant forall x :: x != "" ==> (if x in m then m[x] else 0) == CountOn(idle[..i], x)
      {
        assert idle[..i + 1][..i] == idle[..i];
        var target := idle[i].target;
        if target != "" { m := m[target := (if target in m then m[target] else 0) + 1]; }
      }
      assert idle[..|idle|] == idle;
      forall x | x != "" ensures (if x in m then m[x] else 0) == |IdleOn(T(), pool, x)| {
        CountOnIdle(T(), pool, idle, x);
      }
    }

    // ---- Growing a pool ------------------------------------------------------

    method EnqueueRequest(p: Pool, target: string) returns (ghost ev: seq<Event>)
      requires Tidy()
      modifies this`queue, this`log
      ensures Tidy()
      ensures queue == old(queue) + [Request(p.id, p.name, target)]
      ensures ev == [Enqueued(Request(p.id, p.name, target))] && log == old(log) + ev
    {
      queue := queue + [Request(p.id, p.name, target)];
      ev := [Enqueued(Request(p.id, p.name, target))];
      BookNothing(T(), T(), log, used, ev[0]);
      log := log + ev;
    }

    // A placement below the global quota.
    method SpawnOne(p: Pool, target: string, onDemand: bool, now: int, ghost t: Table, ghost q: seq<Request>, ghost placed: seq<string>)
      returns (ok: bool, ghost ev: seq<Event>)
      requires Valid() && target != "" && (p.maxConcurrency > 0 ==> |RunningIn(T(), p.id)| < p.maxConcurrency)
      requires !Full(T(), globalMaxRunners) && Placed(t, q, T(), queue, p.id, placed)
      modifies this`log, this`used, reconciler
      ensures Valid() && log == old(log) + ev && ev != [] && NoRemoval(ev)
      ensures Grown(old(T()), T(), p, onDemand, now)
      ensures ok ==> Placed(t, q, T(), queue, p.id, placed + [target])
      ensures ok ==> |RunningIn(T(), p.id)| == old(|RunningIn(T(), p.id)|) + 1
      ensures !ok ==> T() == old(T()) && ev == [SpawnFailed(p.id)]
    {
      ghost var before, s := T(), Slot(0, "");
      var token, started := Outcomes();
      ok, s, ev := SpawnSingleRunner(p, onDemand, target, token, started, now);
      FitAppend(old(log), ev);
      if ok {
        PlacedSpawn(t, q, before, queue, placed, s, T()[s]);
        SpawnCounts(before, s, T()[s]);
      }
    }

    // One placement of the spawn loop: a container, or a queued request when the
    // global quota is used up.
    method PlaceOne(p: Pool, target: string, onDemand: bool, now: int, ghost t: Table, ghost q: seq<Request>, ghost placed: seq<string>)
      returns (ok: bool, spawned: bool, ghost ev: seq<Event>)
      requires Valid() && target != "" && (p.maxConcurrency > 0 ==> |RunningIn(T(), p.id)| < p.maxConcurrency)
      requires Placed(t, q, T(), queue, p.id, placed)
      modifies this`queue, this`log, this`used, reconciler
      ensures Valid() && log == old(log) + ev && ev != [] && NoRemoval(ev)
      ensures Grown(old(T()), T(), p, onDemand, now) && QueueGrown(old(queue), queue, p)
      ensures ok ==> Placed(t, q, T(), queue, p.id, placed + [target])
      ensures ok ==> |RunningIn(T(), p.id)| == old(|RunningIn(T(), p.id)|) + if spawned then 1 else 0
      ensures ok ==> QueuedFor(queue, p.id) == old(QueuedFor(queue, p.id)) + if spawned then 0 else 1
      ensures spawned ==> ok && queue == old(queue)
      ensures ok ==> (spawned <==> !Full(old(T()), globalMaxRunners))
      ensures !ok ==> T() == old(T()) && queue == old(queue) && ev == [SpawnFailed(p.id)]
    {
      var total := TotalActiveRunners();
      if globalMaxRunners > 0 && total >= globalMaxRunners {
        PlacedQueued(t, q, T(), queue, placed, Request(p.id, p.name, target));
        ev := EnqueueRequest(p, target);
        return true, false, ev;
      }
      ok, ev := SpawnOne(p, target, onDemand, now, t, q, placed);
      spawned := ok;
    }

    // Uncovered demand first, then round robin over the pool's targets.
    static method NextTarget(p: Pool, rest: seq<string>, running: nat) returns (target: string, rest1: seq<string>)
      requires p.targets != [] && "" !in p.targets && "" !in rest
      ensures target == TargetNext(p, rest, running)
      ensures rest1 == (if rest == [] then [] else rest[1..]) && target != "" && "" !in rest1
    {
      if rest != [] { return rest[0], rest[1..]; }
      assert p.targets[running % |p.targets|] in p.targets;
      return p.targets[running % |p.targets|], [];
    }

    // One round of the spawn loop.
    method PlaceNext(p: Pool, rest: seq<string>, running: nat, onDemand: bool, now: int,
                     ghost t: Table, ghost q: seq<Request>, ghost placed: seq<string>, ghost demand: seq<string>)
      returns (ok: bool, rest1: seq<string>, running1: nat, ghost target: string, ghost ev: seq<Event>)
      requires Valid() && p.targets != [] && "" !in p.targets
      requires running == |RunningIn(T(), p.id)| && (p.maxConcurrency > 0 ==> running < p.maxConcurrency)
      requires Placing(t, q, T(), queue, p, placed, rest, demand, onDemand, now)
      requires queue != q ==> Full(T(), globalMaxRunners)
      modifies this`queue, this`log, this`used, reconciler
      ensures Valid() && log == old(log) + ev && ev != [] && NoRemoval(ev)
      ensures ok ==> Placing(t, q, T(), queue, p, placed + [target], rest1, demand, onDemand, now)
      ensures ok ==> running1 == |RunningIn(T(), p.id)|
      ensures !ok ==> T() == old(T()) && queue == old(queue) && ev == [SpawnFailed(p.id)]
      ensures Full(old(T()), globalMaxRunners) || queue != old(queue) ==> Full(T(), globalMaxRunners)
    {
      ghost var before, waiting := T(), queue;
      var next, spawned;
      next, rest1 := NextTarget(p, rest, running);
      target := next;
      ok, spawned, ev := PlaceOne(p, next, onDemand, now, t, q, placed);
      if ok { PlacingOne(t, q, before, waiting, T(), queue, p, placed, rest, demand, target, spawned, onDemand, now); }
      StaysFull(before, T(), p, onDemand, globalMaxRunners, now);
      running1 := if spawned then running + 1 else running;
    }

    method SpawnNeeded(p: Pool, needed: nat, active: nat, demand: seq<string>, onDemand: bool, now: int)
      returns (ok: bool, ghost placed: seq<string>, ghost unplaced: seq<string>, ghost ev: seq<Event>)
      requires Valid() && p.targets != [] && "" !in p.targets && "" !in demand && active == |RunningIn(T(), p.id)|
      requires p.maxConcurrency > 0 ==> active + QueuedFor(queue, p.id) + needed <= p.maxConcurrency
      modifies this`queue, this`log, this`used, reconciler
      ensures Valid() && log == old(log) + ev
      ensures Placing(old(T()), old(queue), T(), queue, p, placed, unplaced, demand, onDemand, now)
      ensures if ok then |placed| == needed else SpawnFailed(p.id) in ev
      ensures (needed > 0 ==> ev != []) && NoRemoval(ev)
      ensures queue != old(queue) ==> Full(T(), globalMaxRunners)
    {
      placed, ev := [], [];
      var running, rest := active, demand;
      for i := 0 to needed
        invariant Valid() && log == old(log) + ev && |placed| == i
        invariant Placing(old(T()), old(queue), T(), queue, p, placed, rest, demand, onDemand, now)
        invariant queue != old(queue) ==> Full(T(), globalMaxRunners)
        invariant (i > 0 ==> ev != []) && NoRemoval(ev) && running == |RunningIn(T(), p.id)|
      {
        if p.maxConcurrency > 0 && running + QueuedFor(queue, p.id) >= p.maxConcurrency { break; }
        var done;
        ghost var target, more, was := "", [], rest;
        done, rest, running, target, more := PlaceNext(p, rest, running, onDemand, now, old(T()), old(queue), placed, demand);
        Assoc(old(log), ev, more);
        ev := ev + more;
        if !done { return false, placed, was, ev; }
        placed := placed + [target];
      }
      return true, placed, rest, ev;
    }

    // The growing half of a cycle.
    method GrowTo(p: Pool, left: nat, target: int, demand: seq<string>, now: int)
      returns (ok: bool, ghost placed: seq<string>, ghost ev: seq<Event>)
      requires Valid() && p.targets != [] && "" !in p.targets && "" !in demand && left == |RunningIn(T(), p.id)|
      requires Capped(p, target) == target
      modifies this`queue, this`log, this`used, reconciler
      ensures Valid() && log == old(log) + ev
      ensures GrownTo(old(T()), old(queue), T(), queue, p, left, target, demand, ok, placed, ev == [], p.minIdle == 0 || p.polls, now)
      ensures (!ok ==> SpawnFailed(p.id) in ev) && NoRemoval(ev)
      ensures queue != old(queue) ==> Full(T(), globalMaxRunners)
    {
      var needed := target - (left + QueuedFor(queue, p.id));
      ghost var onDemand := p.minIdle == 0 || p.polls;
      if needed <= 0 {
        GrowthNone(T(), queue, p, left, target, demand, onDemand, now);
        return true, [], [];
      }
      ghost var t, q, unplaced := T(), queue, [];
      ok, placed, unplaced, ev := SpawnNeeded(p, needed, left, demand, p.minIdle == 0 || p.polls, now);
      GrowthDone(t, q, T(), queue, p, left, target, placed, unplaced, demand, ok, onDemand, now);
    }

    // What demand polling asks of this cycle, and the resulting target.
    method ComputeTarget(p: Pool, active: nat, idle: seq<Runner>, poll: Option<seq<Option<nat>>>) returns (effective: int, demand: seq<string>)
      requires Valid() && "" !in p.targets && (poll.Some? ==> |poll.value| == |p.targets|)
      requires active == |RunningIn(T(), p.id)| && IsIdleList(T(), p.id, idle)
      ensures demand == DemandFor(p, poll, T()) && "" !in demand
      ensures effective == TargetFor(p, T(), |demand|)
      ensures Meets(p, effective, p.minIdle + active - |idle|) && (demand != [] ==> Meets(p, effective, active + |demand|))
    {
      IdleListed(T(), p.id, idle);
      demand := [];
      if poll.Some? { demand := PollDemand(p, idle, poll.value); }
      var busy := active - |idle|;
      effective := p.minIdle + busy;
      if |demand| > 0 && active + |demand| > effective { effective := active + |demand|; }
      if p.maxConcurrency > 0 && effective > p.maxConcurrency { effective := p.maxConcurrency; }
    }

    // One cycle of one pool.  poll is what the targets answered, if this cycle
    // polled demand.  idle, mid, w and placed name its stages: the idle runners it
    // started from, the table after draining, the draining itself, and the
    // targets that containers or queued requests were placed on.
    method ReconcilePool(p: Pool, poll: Option<seq<Option<nat>>>, now: int)
      returns (ok: bool, ghost idle: seq<Runner>, ghost mid: Table, ghost w: Walk, ghost placed: seq<string>, ghost ev: seq<Event>)
      requires Valid() && "" !in p.targets && (poll.Some? ==> |poll.value| == |p.targets|)
      modifies this`queue, this`log, this`used, this`recentlyRemoved, reconciler
      ensures Valid() && log == old(log) + (w.ev + ev)
      ensures IsIdleList(old(T()), p.id, idle) && DrainWalk(old(T()), mid, p.id, idle, w, now)
      ensures Grown(mid, T(), p, p.minIdle == 0 || p.polls, now) && QueueGrown(old(queue), queue, p)
      ensures (ev == [] ==> T() == mid && queue == old(queue)) && NoRemoval(ev)
      ensures !ok ==> SpawnFailed(p.id) in ev
      ensures p.targets == [] ==> w.ev == [] && ev == []
      // Requests are queued only at the global quota.
      ensures queue != old(queue) ==> Full(T(), globalMaxRunners)
      ensures CyclePromise(Cycle(p, poll, grace, now, old(T()), old(queue), idle, w, mid, placed, T(), queue, ok, ev == []))
    {
      var active, standby := Classify(p.id);
      idle := standby;
      if p.targets == [] {
        NoTargets(Cycle(p, poll, grace, now, T(), queue, idle, START, T(), [], T(), queue, true, true));
        return true, idle, T(), START, [], [];
      }
      ghost var start, before := T(), queue;
      ok, mid, w, placed, ev := ScalePool(p, poll, active, standby, now);
      CycleKeepsPromise(Cycle(p, poll, grace, now, start, before, idle, w, mid, placed, T(), queue, ok, ev == []));
    }

    method ScalePool(p: Pool, poll: Option<seq<Option<nat>>>, active: nat, idle: seq<Runner>, now: int)
      returns (ok: bool, ghost mid: Table, ghost w: Walk, ghost placed: seq<string>, ghost ev: seq<Event>)
      requires Valid() && p.targets != [] && "" !in p.targets && (poll.Some? ==> |poll.value| == |p.targets|)
      requires active == |RunningIn(T(), p.id)| && IsIdleList(T(), p.id, idle)
      modifies this`queue, this`log, this`used, this`recentlyRemoved, reconciler
      ensures Valid() && log == old(log) + (w.ev + ev)
      ensures DrainWalk(old(T()), mid, p.id, idle, w, now)
      ensures Grown(mid, T(), p, p.minIdle == 0 || p.polls, now) && QueueGrown(old(queue), queue, p)
      ensures (ev == [] ==> T() == mid && queue == old(queue)) && NoRemoval(ev)
      ensures !ok ==> SpawnFailed(p.id) in ev
      ensures queue != old(queue) ==> Full(T(), globalMaxRunners)
      ensures Halves(Cycle(p, poll, grace, now, old(T()), old(queue), idle, w, mid, placed, T(), queue, ok, ev == []))
    {
      var effective, demand := ComputeTarget(p, active, idle, poll);
      var left;
      ghost var start, before := T(), queue;
      left, w := ScaleDown(p, active, idle, effective, now);
      mid := T();
      ok, placed, ev := GrowTo(p, left, effective, demand, now);
      Assoc(old(log), w.ev, ev);
      HalvesDone(Cycle(p, poll, grace, now, start, before, idle, w, mid, placed, T(), queue, ok, ev == []), left);
    }

    // A pool with nothing to wait for settles in one cycle.
    method RepeatedCycle(p: Pool, now: int) returns (ok: bool, ghost vetoes: nat, ghost ev: seq<Event>)
      requires Valid() && "" !in p.targets && p.targets != []
      modifies this`queue, this`log, this`used, this`recentlyRemoved, reconciler
      ensures Valid()
      ensures ok && vetoes == 0 ==> ev == []
    {
      ghost var idle, mid, w, placed, ev1, w2;
      ok, idle, mid, w, placed, ev1 := ReconcilePool(p, None, now);
      vetoes := w.vetoes;
      ghost var past := log;
      var again;
      again, idle, mid, w2, placed, ev1 := ReconcilePool(p, None, now);
      ev := w2.ev + ev1;
    }

    // ---- The provisioning queue ----------------------------------------------

    // One queued request: kept while the quota is used up, dropped when its pool
    // is gone, kept while the pool is full or the spawn fails, else launched.
    method DrainOne(r: Request, pools: seq<Pool>, now: int) returns (fate: Fate, ghost ev: seq<Event>)
      requires Valid()
      modifies this`log, this`used, reconciler
      ensures Valid() && log == old(log) + ev
      ensures FreshIds(old(T()), T(), old(used)) && old(used) <= used && NoRemoval(ev)
      ensures Extended(old(T()), T(), now) && Justified(r, fate, T(), pools, globalMaxRunners, ev)
      ensures |AllRunning(T())| == |AllRunning(old(T()))| + |Spawns(ev)|
      ensures if fate == Launched then |ev| == 1 && Serves(ev[0], r, pools) else Spawns(ev) == []
      ensures Full(old(T()), globalMaxRunners) ==> fate == Kept && ev == []
      ensures fate == Dropped <==> !Full(old(T()), globalMaxRunners) && PoolNamed(pools, r.poolName).None?
      ensures fate == Launched ==> HasRoom(r, old(T()), pools, globalMaxRunners)
    {
      ev := [];
      var total := TotalActiveRunners();
      if globalMaxRunners > 0 && total >= globalMaxRunners { return Kept, ev; }
      var found := PoolNamed(pools, r.poolName);
      if found.None? { return Dropped, ev; }
      var p := found.value;
      var active, idle := Classify(p.id);
      if p.maxConcurrency > 0 && active >= p.maxConcurrency { return Kept, ev; }
      var ok;
      ok, ev := LaunchFor(p, r, active, now);
      return if ok then Launched else Kept, ev;
    }

    // A container for a queued request, on its own target or the next of the pool.
    method LaunchFor(p: Pool, r: Request, active: nat, now: int) returns (ok: bool, ghost ev: seq<Event>)
      requires Valid() && active == |RunningIn(T(), p.id)| && (p.maxConcurrency > 0 ==> active < p.maxConcurrency)
      requires !Full(T(), globalMaxRunners)
      modifies this`log, this`used, reconciler
      ensures Valid() && log == old(log) + ev
      ensures FreshIds(old(T()), T(), old(used)) && old(used) <= used && NoRemoval(ev)
      ensures Extended(old(T()), T(), now) && |AllRunning(T())| == |AllRunning(old(T()))| + |Spawns(ev)|
      ensures if ok then |ev| == 1 && ev[0].Spawned? && ev[0].slot.pool == p.id && OnTargetOf(ev[0], r, p)
              else ev == [SpawnFailed(p.id)]
    {
      var target := r.target;
      if target == "" && p.targets != [] { target := p.targets[active % |p.targets|]; }
      ghost var before, s := T(), Slot(0, "");
      var token, started := Outcomes();
      ok, s, ev := SpawnSingleRunner(p, true, target, token, started, now);
      if ok { SpawnTotals(before, s, T()[s]); }
    }

    // pools is None when they cannot be loaded.
    method DrainQueue(pools: Option<seq<Pool>>, now: int) returns (ghost fates: seq<Fate>, ghost ev: seq<Event>)
      requires Valid()
      modifies this`queue, this`log, this`used, reconciler
      ensures Valid() && log == old(log) + ev
      ensures FreshIds(old(T()), T(), old(used)) && old(used) <= used && NoRemoval(ev) && Extended(old(T()), T(), now)
      ensures pools.None? ==> queue == old(queue) && T() == old(T()) && ev == []
      ensures pools.Some? ==>
        QueueDrained(old(T()), T(), old(queue), fates, queue, pools.value, globalMaxRunners, ev, now)
    {
      fates, ev := [], [];
      ghost var t, past, was := T(), log, used;
      PlusNothing(past);
      if queue == [] || pools.None? { return; }
      var copy, remaining := queue, [];
      for i := 0 to |copy|
        invariant Valid() && log == past + ev && queue == copy
        invariant FreshIds(t, T(), was) && was <= used && NoRemoval(ev)
        invariant QueueDrained(t, T(), copy[..i], fates, remaining, pools.value, globalMaxRunners, ev, now)
      {
        remaining, fates, ev := DrainNth(copy, i, remaining, pools.value, now, t, past, was, fates, ev);
      }
      TakeAll(copy);
      queue := remaining;
    }

    // The next request of the copied queue.
    method DrainNth(copy: seq<Request>, i: nat, remaining: seq<Request>, pools: seq<Pool>, now: int,
                    ghost t: Table, ghost past: seq<Event>, ghost was: set<string>, ghost fates: seq<Fate>, ghost ev: seq<Event>)
      returns (remaining1: seq<Request>, ghost fates1: seq<Fate>, ghost ev1: seq<Event>)
      requires Valid() && log == past + ev && i < |copy| && FreshIds(t, T(), was) && was <= used && NoRemoval(ev)
      requires QueueDrained(t, T(), copy[..i], fates, remaining, pools, globalMaxRunners, ev, now)
      modifies this`log, this`used, reconciler
      ensures Valid() && log == past + ev1 && FreshIds(t, T(), was) && was <= used && NoRemoval(ev1)
      ensures QueueDrained(t, T(), copy[..i + 1], fates1, remaining1, pools, globalMaxRunners, ev1, now)
    {
      ghost var before, more := T(), [];
      var fate;
      fate, more := DrainOne(copy[i], pools, now);
      QueueNext(t, before, T(), copy[..i], fates, remaining, pools, globalMaxRunners, ev, copy[i], fate, more, now);
      TakeNext(copy, i);
      Assoc(past, ev, more);
      fates1, ev1 := fates + [fate], ev + more;
      remaining1 := if fate == Kept then remaining + [copy[i]] else remaining;
    }

    // ---- Webhook events ------------------------------------------------------

    method MarkQueuedDemand(pool: nat, job: nat, now: int)
      modifies this`demand
      ensures demand == MarkQueued(old(demand), Booking(pool, job), now)
      ensures Booking(pool, job) in demand && demand[Booking(pool, job)] == now
      ensures forall k :: k in demand && k.pool == pool ==> now - demand[k] <= WEBHOOK_DEMAND_TTL
      ensures forall k :: k in old(demand) && k.pool != pool ==> k in demand && demand[k] == old(demand)[k]
    {
      demand := demand[Booking(pool, job) := now];
      var cutoff := now - WEBHOOK_DEMAND_TTL;
      demand := map k | k in demand && !(k.pool == pool && demand[k] < cutoff) :: demand[k];
    }

    // The job started or finished: it needs no capacity any more.
    method ReleaseDemand(pool: nat, job: nat)
      modifies this`demand
      ensures demand == old(demand) - {Booking(pool, job)}
      ensures Booked(demand, pool) == Booked(old(demand), pool) - {Booking(pool, job)}
    {
      demand := demand - {Booking(pool, job)};
    }

    // Where the pool stands towards a job of one target.
    method Assess(p: Pool, target: string, pending: nat) returns (d: Decision)
      requires Valid() && target != ""
      ensures d == Decide(p, globalMaxRunners, pending, |IdleOn(T(), p.id, target)|, |RunningIn(T(), p.id)|, |AllRunning(T())|)
    {
      var active, idle := Classify(p.id);
      var byTarget := IdleByTarget(p.id, idle);
      var idleOnTarget := if target in byTarget then byTarget[target] else 0;
      if pending <= idleOnTarget { return Covered; }
      if p.maxConcurrency > 0 && active >= p.maxConcurrency { return AtCap; }
      var total := TotalActiveRunners();
      if globalMaxRunners > 0 && total >= globalMaxRunners { return Saturated; }
      return Room;
    }

    // The part of a queued event under provisionMu: whatever happened while
    // waiting for the lock, the spawn leaves room.
    method QueuedUnderLock(p: Pool, target: string, now: int) returns (d: Decision, ok: bool, ghost s: Slot, ghost ev: seq<Event>)
      requires Valid() && target != ""
      modifies this`queue, this`log, this`used, reconciler
      ensures Valid() && log == old(log) + ev
      ensures d == Decide(p, globalMaxRunners, |Booked(demand, p.id)|, |IdleOn(old(T()), p.id, target)|,
                          |RunningIn(old(T()), p.id)|, |AllRunning(old(T()))|)
      ensures queue == old(queue) + if d == Saturated then [Request(p.id, p.name, target)] else []
      ensures if d == Room && ok then s.pool == p.id && Warmed(old(T()), T(), s, target) && T()[s].onDemand else T() == old(T())
      ensures d == Room ==> |ev| == 1 && if ok then ev[0].Spawned? else ev[0] == SpawnFailed(p.id)
      ensures d == Covered || d == AtCap ==> ev == []
    {
      ok, s, ev := true, Slot(0, ""), [];
      d := Assess(p, target, |Booked(demand, p.id)|);
      if d == Saturated { ev := EnqueueRequest(p, target); }
      var token, started := Outcomes();
      if d == Room { ok, s, ev := SpawnSingleRunner(p, true, target, token, started, now); }
    }

    // A queued job matched to a pool's target; nobody else steps in between.
    method HandleQueued(p: Pool, job: nat, target: string, now: int) returns (d: Decision, ok: bool, ghost s: Slot, ghost ev: seq<Event>)
      requires Valid() && target != ""
      modifies this`queue, this`log, this`used, this`demand, reconciler
      ensures Valid() && log == old(log) + ev
      ensures demand == MarkQueued(old(demand), Booking(p.id, job), now)
      ensures d == Decide(p, globalMaxRunners, |Booked(demand, p.id)|, |IdleOn(old(T()), p.id, target)|,
                          |RunningIn(old(T()), p.id)|, |AllRunning(old(T()))|)
      ensures queue == old(queue) + if d == Saturated then [Request(p.id, p.name, target)] else []
      ensures if d == Room && ok then s.pool == p.id && Warmed(old(T()), T(), s, target) && T()[s].onDemand else T() == old(T())
      ensures d == Room ==> |ev| == 1 && if ok then ev[0].Spawned? else ev[0] == SpawnFailed(p.id)
      ensures d == Covered || d == AtCap ==> ev == []
    {
      ok, s, ev := true, Slot(0, ""), [];
      MarkQueuedDemand(p.id, job, now);
      var pendingDemand := |Booked(demand, p.id)|;
      d := Assess(p, target, pendingDemand);
      if d == Saturated { ev := EnqueueRequest(p, target); }
      if d != Room { return; }
      d, ok, s, ev := QueuedUnderLock(p, target, now);
    }

    // Queued events handled one after another on a single target, with no booked
    // demand at first: k distinct jobs, however often redelivered, get exactly
    // max(0, k - w) new runners for w warm ones, given room for that many.
    method DeliverQueued(p: Pool, target: string, events: seq<Delivery>) returns (spawned: nat, failed: bool)
      requires Valid() && target != "" && InOrder(events) && Booked(demand, p.id) == {}
      requires RoomFor(T(), p, globalMaxRunners, |Jobs(p.id, events)| - |IdleOn(T(), p.id, target)|)
      modifies this`queue, this`log, this`used, this`demand, reconciler
      ensures Valid() && queue == old(queue)
      ensures !failed ==> spawned == Max(0, |Jobs(p.id, events)| - |IdleOn(old(T()), p.id, target)|)
      ensures !failed ==> |RunningIn(T(), p.id)| == |RunningIn(old(T()), p.id)| + spawned
      ensures failed ==> SpawnFailed(p.id) in log
    {
      spawned, failed := 0, false;
      for i := 0 to |events|
        invariant Valid() && queue == old(queue)
        invariant AllBooked(demand, p.id, events, i)
        invariant Shortfall(old(T()), T(), p.id, target, |Jobs(p.id, events[..i])|, spawned)
      {
        spawned, failed := DeliverOne(p, target, events, i, spawned, old(T()));
        if failed { return; }
      }
      assert events[..|events|] == events;
    }

    // The next of them.
    method DeliverOne(p: Pool, target: string, events: seq<Delivery>, i: nat, was: nat, ghost t: Table)
      returns (spawned: nat, failed: bool)
      requires Valid() && target != "" && i < |events| && InOrder(events) && AllBooked(demand, p.id, events, i)
      requires Shortfall(t, T(), p.id, target, |Jobs(p.id, events[..i])|, was)
      requires RoomFor(t, p, globalMaxRunners, |Jobs(p.id, events)| - |IdleOn(t, p.id, target)|)
      modifies this`queue, this`log, this`used, this`demand, reconciler
      ensures Valid() && queue == old(queue)
      ensures !failed ==> AllBooked(demand, p.id, events, i + 1)
      ensures !failed ==> Shortfall(t, T(), p.id, target, |Jobs(p.id, events[..i + 1])|, spawned)
      ensures failed ==> SpawnFailed(p.id) in log
    {
      ghost var before := T();
      BookNext(demand, p.id, events, i);
      JobsWithin(p.id, events, i + 1);
      var d, ok;
      ghost var s, ev;
      d, ok, s, ev := HandleQueued(p, events[i].job, target, events[i].at);
      spawned, failed := was, d == Room && !ok;
      if failed {
        assert ev[0] in log;
        return;
      }
      ShortfallNext(t, before, T(), p.id, target, |Jobs(p.id, events[..i])|, |Jobs(p.id, events[..i + 1])|, was, s);
      if d == Room { spawned := was + 1; }
    }

    // With several targets: an event that is covered or served keeps a warm runner
    // for every booked job of every target.
    method QueuedReserved(p: Pool, job: nat, target: string, ghost targetOf: map<nat, string>, now: int)
      returns (served: bool, failed: bool, ghost ev: seq<Event>)
      requires Valid() && target != "" && job in targetOf && targetOf[job] == target
      modifies this`queue, this`log, this`used, this`demand, reconciler
      ensures Valid() && log == old(log) + ev
      ensures served && Reserved(old(T()), old(demand), p.id, targetOf) ==> Reserved(T(), demand, p.id, targetOf)
      ensures failed ==> SpawnFailed(p.id) in ev
      ensures served || failed || !RoomFor(old(T()), p, globalMaxRunners, 1)
      ensures AtMostGrown(old(T()), T(), p.id, 1)
    {
      ghost var t, d0 := T(), demand;
      var d, ok;
      ghost var s;
      d, ok, s, ev := HandleQueued(p, job, target, now);
      served, failed := d == Covered || (d == Room && ok), d == Room && !ok;
      if served && Reserved(t, d0, p.id, targetOf) { QueuedKeepsReserved(t, T(), d0, Booking(p.id, job), target, s, targetOf, now); }
      if d == Room && ok {
        SpawnCounts(t, s, T()[s]);
        SpawnTotals(t, s, T()[s]);
      }
    }

    // Any sequence of queued events for any of the pool's targets: with room for
    // them and no spawn error, every target has a warm runner for each of its
    // booked jobs.
    method DeliverToTargets(p: Pool, events: seq<Order>, ghost targetOf: map<nat, string>)
      returns (short: bool, failed: bool, ghost ev: seq<Event>)
      requires Valid() && Reserved(T(), demand, p.id, targetOf)
      requires forall e :: e in events ==> e.target != "" && e.job in targetOf && targetOf[e.job] == e.target
      modifies this`queue, this`log, this`used, this`demand, reconciler
      ensures Valid() && log == old(log) + ev
      ensures !short && !failed ==> Reserved(T(), demand, p.id, targetOf)
      ensures failed ==> SpawnFailed(p.id) in ev
      ensures short ==> !RoomFor(old(T()), p, globalMaxRunners, |events|)
    {
      short, failed, ev := false, false, [];
      for i := 0 to |events|
        invariant Valid() && log == old(log) + ev
        invariant !short && !failed ==> Reserved(T(), demand, p.id, targetOf)
        invariant failed ==> SpawnFailed(p.id) in ev
        invariant short ==> !RoomFor(old(T()), p, globalMaxRunners, |events|)
        invariant AtMostGrown(old(T()), T(), p.id, i)
      {
        var e := events[i];
        assert e in events;
        var served, refused;
        ghost var more;
        served, refused, more := QueuedReserved(p, e.job, e.target, targetOf, e.at);
        Assoc(old(log), ev, more);
        ev := ev + more;
        short, failed := short || (!served && !refused), failed || refused;
      }
    }

    // Backfills the standby slot a runner vacated when its job started.  slot is
    // the vacated target, or "" when the runner is not attributed to one; s is the
    // new standby.
    method ReplenishIdleStandby(p: Pool, runner: string, now: int)
      returns (d: Decision, ok: bool, slot: string, ghost s: Slot, ghost ev: seq<Event>)
      requires Valid()
      modifies this`queue, this`log, this`used, reconciler
      ensures Valid() && log == old(log) + ev
      ensures p.minIdle > 0 ==> Vacates(old(T()), p.id, runner, slot)
      ensures d == if p.minIdle <= 0 then Covered else
        Decide(p, globalMaxRunners, p.minIdle, VacantIdle(old(T()), p.id, slot), |RunningIn(old(T()), p.id)|, |AllRunning(old(T()))|)
      ensures p.minIdle > 0 ==>
        (d == Covered <==> p.minIdle <= if slot == "" then |IdleIn(old(T()), p.id)| else |IdleOn(old(T()), p.id, slot)|)
      ensures d == Covered || d == AtCap ==> ev == []
      ensures queue == old(queue) + if d == Saturated then [Request(p.id, p.name, slot)] else []
      ensures if d == Room && ok then
          s.pool == p.id && (slot != "" || p.targets != []) &&
          Warmed(old(T()), T(), s, if slot == "" then p.targets[0] else slot) && !T()[s].onDemand
        else T() == old(T())
      ensures d == Room ==> |ev| == 1 && ok == ev[0].Spawned?
    {
      ok, slot, s, ev := true, "", Slot(0, ""), [];
      if p.minIdle <= 0 { return Covered, ok, slot, s, ev; }
      slot := VacatedTarget(p.id, runner);
      d := AssessStandby(p, slot);
      if d == Saturated { ev := EnqueueRequest(p, slot); }
      if d != Room { return; }
      var token, started := Outcomes();
      ok, s, ev := SpawnSingleRunner(p, false, slot, token, started, now);
    }

    method VacatedTarget(pool: nat, runner: string) returns (target: string)
      requires Valid()
      ensures Vacates(T(), pool, runner, target)
    {
      var rs := reconciler.TrackedPoolRunners(pool);
      for i := 0 to |rs|
        invariant forall j :: 0 <= j < i && rs[j].name == runner ==> rs[j].target == ""
      {
        if rs[i].name == runner && rs[i].target != "" {
          assert Slot(pool, rs[i].id) in T();
          return rs[i].target;
        }
      }
      return "";
    }

    method AssessStandby(p: Pool, target: string) returns (d: Decision)
      requires Valid()
      ensures d == Decide(p, globalMaxRunners, p.minIdle, VacantIdle(T(), p.id, target), |RunningIn(T(), p.id)|, |AllRunning(T())|)
    {
      var active, idle := Classify(p.id);
      var byTarget := IdleByTarget(p.id, idle);
      var standby := if target == "" then |idle| else if target in byTarget then byTarget[target] else 0;
      if standby >= p.minIdle { return Covered; }
      if p.maxConcurrency > 0 && active >= p.maxConcurrency { return AtCap; }
      var total := TotalActiveRunners();
      if globalMaxRunners > 0 && total >= globalMaxRunners { return Saturated; }
      return Room;
    }

    // ---- The lifetime switch -------------------------------------------------

    // A hung runner goes whatever its forge says; its capacity is handed to the
    // queue at once.
    method TerminateHungRunner(pool: nat, r: Runner, limit: int, pools: Option<seq<Pool>>, now: int)
      returns (ghost kill: Event, ghost tail: seq<Event>)
      requires Valid() && Slot(pool, r.id) in T()
      modifies this`queue, this`log, this`used, this`recentlyRemoved, reconciler
      ensures Valid() && log == old(log) + ([kill] + tail) && old(used) <= used
      ensures kill == Removed(Slot(pool, r.id), r, LifetimeLimit, now, limit, NotAsked, true) && NoRemoval(tail)
      ensures AllStuck(queue, T(), pools, globalMaxRunners, [kill] + tail)
      ensures Purged(old(T()), T(), {Slot(pool, r.id)}, old(used))
    {
      ghost var t, was := T(), used;
      var terminated: bool := *;
      ghost var first := TerminateAndRecord(pool, r, LifetimeLimit, now, limit, NotAsked, terminated);
      ghost var t1, waiting := T(), queue;
      ghost var fates;
      fates, tail := DrainQueue(pools, now);
      kill := first[0];
      Assoc(old(log), first, tail);
      if pools.Some? { DrainedStuck(t1, T(), waiting, fates, queue, pools.value, globalMaxRunners, [kill], tail, now); }
      PurgedOne(t, t1, T(), Slot(pool, r.id), was, now);
    }

    // Terminates exactly the pool's overdue runners; alive counts the running ones
    // it found.
    method KillOverdue(pool: nat, limit: int, pools: Option<seq<Pool>>, now: int)
      returns (alive: nat, ghost gone: set<Slot>, ghost ev: seq<Event>)
      requires Valid()
      modifies this`queue, this`log, this`used, this`recentlyRemoved, reconciler
      ensures Valid() && log == old(log) + ev && old(used) <= used
      ensures gone == Doomed(old(T()), pool, limit, now)
      ensures Purged(old(T()), T(), gone, old(used)) && Kills(old(T()), gone, ev, limit, now)
      ensures gone != {} ==> AllStuck(queue, T(), pools, globalMaxRunners, ev)
      ensures alive == 0 ==> RunningIn(old(T()), pool) == {}
    {
      var rs := reconciler.TrackedPoolRunners(pool);
      alive, gone, ev := 0, {}, [];
      for i := 0 to |rs|
        invariant Valid() && log == old(log) + ev && old(used) <= used
        invariant gone == OverdueRows(pool, rs[..i], limit, now)
        invariant Purged(old(T()), T(), gone, old(used)) && Kills(old(T()), gone, ev, limit, now)
        invariant gone != {} ==> AllStuck(queue, T(), pools, globalMaxRunners, ev)
        invariant alive == 0 ==> forall j :: 0 <= j < i ==> !rs[j].running
      {
        OverdueNext(pool, rs, i, limit, now);
        var r := rs[i];
        if !r.running { continue; }
        alive := alive + 1;
        if !r.busy { continue; }
        var anchor := r.busySince;
        if anchor == 0 {
          anchor := r.spawnedAt;
          if anchor == 0 { continue; }
        }
        if now - anchor > limit {
          gone, ev := KillOne(pool, r, limit, pools, now, old(T()), old(log), old(used), gone, ev);
        }
      }
      assert rs[..|rs|] == rs;
      OverdueAll(old(T()), pool, rs, limit, now);
    }

    // One overdue runner among those of a pool.
    method KillOne(pool: nat, r: Runner, limit: int, pools: Option<seq<Pool>>, now: int, ghost t: Table, ghost past: seq<Event>,
                   ghost was: set<string>, ghost gone: set<Slot>, ghost ev: seq<Event>)
      returns (ghost gone1: set<Slot>, ghost ev1: seq<Event>)
      requires Valid() && log == past + ev && was <= used && Purged(t, T(), gone, was) && Kills(t, gone, ev, limit, now)
      requires (forall s :: s in t ==> s.id in was) && Slot(pool, r.id) in t && Slot(pool, r.id) !in gone
      requires t[Slot(pool, r.id)] == r && Overdue(r, limit, now)
      modifies this`queue, this`log, this`used, this`recentlyRemoved, reconciler
      ensures Valid() && log == past + ev1 && was <= used && gone1 == gone + {Slot(pool, r.id)}
      ensures Purged(t, T(), gone1, was) && Kills(t, gone1, ev1, limit, now)
      ensures AllStuck(queue, T(), pools, globalMaxRunners, ev1)
    {
      ghost var before, kill, tail, was1 := T(), SpawnFailed(0), [], used;
      kill, tail := TerminateHungRunner(pool, r, limit, pools, now);
      PurgedTwice(t, before, T(), gone, {Slot(pool, r.id)}, was, was1);
      KillsMore(t, gone, ev, limit, now, Slot(pool, r.id), kill, tail);
      StillStuck(queue, T(), pools, globalMaxRunners, ev, [kill] + tail);
      Assoc(past, ev, [kill] + tail);
      gone1, ev1 := gone + {Slot(pool, r.id)}, ev + ([kill] + tail);
    }

    // All lifetime limits, then the drain entries' backstops.  A drain entry is
    // retired once none of its pool's containers was left running.
    method CheckHungRunners(pools: seq<Pool>, now: int) returns (ghost gone: set<Slot>, ghost ev: seq<Event>)
      requires Valid()
      modifies this`queue, this`log, this`used, this`recentlyRemoved, this`drainingPools, reconciler
      ensures Valid() && log == old(log) + ev && old(used) <= used
      ensures Checked(old(T()), T(), gone, pools, old(drainingPools), old(used), ev, now)
      ensures forall d :: d in drainingPools ==> d in old(drainingPools) && drainingPools[d] == old(drainingPools)[d]
      ensures forall d :: d in old(drainingPools) && d !in drainingPools ==>
        forall s :: s in old(T()) && s.pool == d && old(T())[s].running ==> s !in T()
    {
      gone, ev := {}, [];
      for i := 0 to |pools|
        invariant Valid() && log == old(log) + ev && old(used) <= used && drainingPools == old(drainingPools)
        invariant Checked(old(T()), T(), gone, pools[..i], map[], old(used), ev, now)
      {
        var p := pools[i];
        TakeNext(pools, i);
        if p.lifetime <= 0 {
          CheckedSkip(old(T()), T(), gone, pools[..i], map[], old(used), ev, now, p);
          continue;
        }
        ghost var before, was, more, ev1 := T(), used, {}, [];
        var alive;
        alive, more, ev1 := KillOverdue(p.id, p.lifetime, Some(pools), now);
        PoolLimits(pools[..i], p, map[], now);
        CheckedMore(old(T()), before, T(), gone, more, pools[..i], pools[..i + 1], map[], map[], old(used), was, ev, ev1,
                    p.id, p.lifetime, now);
        Assoc(old(log), ev, ev1);
        gone, ev := gone + more, ev + ev1;
      }
      assert pools[..|pools|] == pools;
      ghost var gone1, ev1 := gone, ev;
      gone, ev := CheckDrains(pools, now, old(T()), old(used), gone, ev);
      Assoc(old(log), ev1, ev[|ev1|..]);
      assert ev1 + ev[|ev1|..] == ev;
    }

    // The second half: the drain entries present when it starts.
    method CheckDrains(pools: seq<Pool>, now: int, ghost t: Table, ghost was: set<string>, ghost gone0: set<Slot>, ghost ev0: seq<Event>)
      returns (ghost gone: set<Slot>, ghost ev: seq<Event>)
      requires Valid() && was <= used && (forall s :: s in t ==> s.id in was)
      requires Checked(t, T(), gone0, pools, map[], was, ev0, now)
      modifies this`queue, this`log, this`used, this`recentlyRemoved, this`drainingPools, reconciler
      ensures Valid() && ev0 <= ev && log == old(log) + ev[|ev0|..] && old(used) <= used
      ensures Checked(t, T(), gone, pools, old(drainingPools), was, ev, now)
      ensures forall d :: d in drainingPools ==> d in old(drainingPools) && drainingPools[d] == old(drainingPools)[d]
      ensures forall d :: d in old(drainingPools) && d !in drainingPools ==>
        forall s :: s in t && s.pool == d && t[s].running ==> s !in T()
    {
      gone, ev := gone0, ev0;
      var todo := drainingPools.Keys;
      ghost var done: map<nat, DrainEntry> := map[];
      while todo != {}
        invariant Valid() && ev0 <= ev && log == old(log) + ev[|ev0|..] && old(used) <= used
        invariant todo <= old(drainingPools).Keys && done == old(drainingPools) - todo
        invariant Checked(t, T(), gone, pools, done, was, ev, now)
        invariant Retiring(drainingPools, old(drainingPools), todo, t, gone)
      {
        var d := Pick(todo);
        RetiringEntry(drainingPools, old(drainingPools), todo, t, gone, d);
        ghost var drains, gone1, more := drainingPools, gone, [];
        var entry := drainingPools[d];
        gone, more := CheckDrain(pools, d, entry, now, t, was, gone, ev, done);
        done := done[d := entry];
        EvenMore(old(log), ev0, ev, more);
        ev := ev + more;
        RetiringNext(drains, drainingPools, old(drainingPools), todo, t, gone1, gone, d);
        todo := todo - {d};
      }
      assert done == old(drainingPools);
    }

    lemma EvenMore(past: seq<Event>, ev0: seq<Event>, ev: seq<Event>, more: seq<Event>)
      requires ev0 <= ev
      ensures ev0 <= ev + more && past + (ev + more)[|ev0|..] == (past + ev[|ev0|..]) + more
    {
      assert (ev + more)[|ev0|..] == ev[|ev0|..] + more;
      Assoc(past, ev[|ev0|..], more);
    }

    // One drain entry: its overdue runners go, and it retires if none was running.
    method CheckDrain(pools: seq<Pool>, d: nat, entry: DrainEntry, now: int, ghost t: Table, ghost was: set<string>,
                      ghost gone: set<Slot>, ghost ev: seq<Event>, ghost done: map<nat, DrainEntry>)
      returns (ghost gone1: set<Slot>, ghost more: seq<Event>)
      requires Valid() && was <= used && (forall s :: s in t ==> s.id in was)
      requires Checked(t, T(), gone, pools, done, was, ev, now) && d !in done && d in drainingPools
      modifies this`queue, this`log, this`used, this`recentlyRemoved, this`drainingPools, reconciler
      ensures Valid() && log == old(log) + more && old(used) <= used
      ensures Checked(t, T(), gone1, pools, done[d := entry], was, ev + more, now) && gone <= gone1
      ensures drainingPools == old(drainingPools) || drainingPools == old(drainingPools) - {d}
      ensures d !in drainingPools ==> AllGone(t, d, gone1)
    {
      ghost var before, used0, doomed := T(), used, {};
      var alive;
      alive, doomed, more := KillOverdue(d, entry.limit, Some(pools), now);
      EntryLimits(pools, done, d, entry, now);
      CheckedMore(t, before, T(), gone, doomed, pools, pools, done, done[d := entry], was, used0, ev, more, d, entry.limit, now);
      gone1 := gone + doomed;
      if alive == 0 {
        NoneRunning(t, before, gone, was, d);
        drainingPools := drainingPools - {d};
      }
    }

    // ---- Tearing pools down --------------------------------------------------

    // Drains a deleted pool: gracefully its busy runners stay, under a backstop;
    // otherwise everything running goes.  A pool already draining gracefully is
    // left alone.  The forge's answer to a deregistration does not matter here.
    method DrainPool(pool: nat, name: string, lifetime: int, graceful: bool, now: int) returns (ghost ev: seq<Event>)
      requires Valid()
      modifies this`queue, this`log, this`recentlyRemoved, this`drainingPools, reconciler
      ensures Valid() && log == old(log) + ev && PoolDrains(old(T()), pool, graceful, ev, now)
      ensures graceful && pool in old(drainingPools) ==>
        T() == old(T()) && queue == old(queue) && drainingPools == old(drainingPools)
      ensures !(graceful && pool in old(drainingPools)) ==>
        T() == old(T()) - Leaving(old(T()), pool, graceful) && queue == WithoutPool(old(queue), pool)
      ensures !(graceful && pool in old(drainingPools)) ==>
        DrainedPool(old(T()), T(), pool, graceful) &&
        forall r :: Occurs(r, queue) == if r.pool == pool then 0 else Occurs(r, old(queue))
      ensures Accounts(old(T()), T(), ev)
      ensures !graceful ==> drainingPools == old(drainingPools) - {pool}
      ensures graceful && pool !in old(drainingPools) ==>
        drainingPools.Keys == old(drainingPools).Keys +
          (if RunningIn(T(), pool) == {} then {} else {pool}) &&
        (forall d :: d in old(drainingPools) ==> drainingPools[d] == old(drainingPools)[d]) &&
        (pool in drainingPools ==> drainingPools[pool].limit == if lifetime <= 0 then DEFAULT_DRAIN_BACKSTOP else lifetime)
    {
      ev := [];
      ghost var t, waiting := T(), queue;
      PlusNothing(log);
      if graceful {
        if pool in drainingPools { return; }
      } else {
        drainingPools := drainingPools - {pool};
      }
      var busyLeft;
      busyLeft, ev := DrainRunners(pool, graceful, now);
      queue := PurgeQueue(queue, pool);
      DrainedPoolIs(t, pool, graceful);
      BalancedAccounts(t, T(), old(log), ev, used, used);
      forall r ensures Occurs(r, queue) == if r.pool == pool then 0 else Occurs(r, waiting) { WithoutPoolIs(waiting, pool, r); }
      if graceful && busyLeft > 0 {
        drainingPools := drainingPools[pool := DrainEntry(name, if lifetime <= 0 then DEFAULT_DRAIN_BACKSTOP else lifetime)];
      }
    }

    method DrainRunners(pool: nat, graceful: bool, now: int) returns (busyLeft: nat, ghost ev: seq<Event>)
      requires Valid()
      modifies this`log, this`recentlyRemoved, reconciler
      ensures Valid() && log == old(log) + ev && PoolDrains(old(T()), pool, graceful, ev, now)
      ensures T() == old(T()) - Leaving(old(T()), pool, graceful)
      ensures graceful ==> (busyLeft > 0 <==> RunningIn(T(), pool) != {})
    {
      ghost var t := T();
      var rs := reconciler.TrackedPoolRunners(pool);
      busyLeft, ev := 0, [];
      for i := 0 to |rs|
        invariant Valid() && log == old(log) + ev && PoolDrains(t, pool, graceful, ev, now)
        invariant T() == t - LeavingRows(pool, rs[..i], graceful)
        invariant busyLeft > 0 <==> StayingRows(pool, rs[..i], graceful) != {}
      {
        LeavingNext(t, pool, rs, i, graceful);
        var r := rs[i];
        if !r.running { continue; }
        if graceful && r.busy {
          busyLeft := busyLeft + 1;
          continue;
        }
        var answer: Dereg := *;
        var terminated: bool := *;
        ghost var more := TerminateAndRecord(pool, r, Reason.PoolDrain, now, 0, answer, terminated);
        Assoc(old(log), ev, more);
        DrainsMore(t, pool, graceful, ev, rs, i, answer, now);
        ev := ev + more;
      }
      assert rs[..|rs|] == rs;
      LeavingAll(t, pool, rs, graceful);
    }

    static method PurgeQueue(queue: seq<Request>, pool: nat) returns (remaining: seq<Request>)
      ensures remaining == WithoutPool(queue, pool)
    {
      remaining := [];
      for i := 0 to |queue|
        invariant remaining == WithoutPool(queue[..i], pool)
      {
        assert queue[..i + 1][..i] == queue[..i];
        if queue[i].pool != pool { remaining := remaining + [queue[i]]; }
      }
      assert queue[..|queue|] == queue;
    }

    // Terminates every idle runner the forge does not veto, so that the next cycle
    // respawns them; busy runners are never touched.
    method RecycleIdleRunners(pool: nat, now: int) returns (ghost idle: seq<Runner>, ghost w: Walk)
      requires Valid()
      modifies this`log, this`recentlyRemoved, reconciler
      ensures Valid() && log == old(log) + w.ev
      ensures IsIdleList(old(T()), pool, idle) && DrainWalk(old(T()), T(), pool, idle, w, now)
      ensures |w.gone| + w.vetoes == |idle| && w.gone !! w.vetoed && w.gone + w.vetoed == IdleIn(old(T()), pool)
      ensures w.reason == Recycle
    {
      var active, rs := Classify(pool);
      idle, w := rs, START.(reason := Recycle);
      ghost var t := T();
      IdleListed(t, pool, rs);
      PlusNothing(log);
      for i := 0 to |rs|
        invariant Valid() && log == old(log) + w.ev
        invariant DrainWalk(old(T()), T(), pool, rs, w, now)
        invariant Tried(pool, rs, i, w) && w.reason == Recycle
      {
        ghost var before := w;
        var done;
        done, w := DrainListed(pool, rs, rs[i], Recycle, now, old(T()), old(log), w);
        TriedNext(pool, rs, i, before, w);
      }
      TriedAll(t, pool, rs, w);
    }

    // ---- A reconcile cycle ---------------------------------------------------

    // A container the supervisor removed itself only echoes; any other dead one is
    // removed and recorded.
    method ReapContainer(r: Runner, pools: Option<seq<Pool>>, now: int) returns (ghost ev: seq<Event>)
      requires Valid() && r.id in used
      modifies this`queue, this`log, this`used, this`recentlyRemoved, reconciler
      ensures Valid() && log == old(log) + ev && old(used) <= used
      ensures forall e :: e in ev && e.Removed? ==> e.reason == Reap && e.runner == r && e.slot == Slot(r.pool, r.id)
      ensures r.id in old(recentlyRemoved) && now - old(recentlyRemoved)[r.id] <= RECENT_REMOVAL_TTL ==> NoRemoval(ev)
      ensures ReapedOne(r, ev, old(recentlyRemoved), now)
      ensures AllStuck(queue, T(), pools, globalMaxRunners, ev)
      ensures Remembered(old(recentlyRemoved), recentlyRemoved, {r.id}, now)
      ensures Purged(old(T()), T(), if KeyOf(r) in old(T()) then {KeyOf(r)} else {}, old(used))
    {
      ghost var t, was, first: seq<Event> := T(), used, [];
      if r.id in recentlyRemoved && now - recentlyRemoved[r.id] <= RECENT_REMOVAL_TTL {
        first := DropEcho(r);
      } else {
        var terminated: bool := *;
        first := TerminateAndRecord(r.pool, r, Reap, now, 0, NotAsked, terminated);
      }
      ghost var t1, waiting, fates, tail := T(), queue, [], [];
      fates, tail := DrainQueue(pools, now);
      ev := first + tail;
      if pools.Some? { DrainedStuck(t1, T(), waiting, fates, queue, pools.value, globalMaxRunners, first, tail, now); }
      Assoc(old(log), first, tail);
      ReapedOneIs(r, first, tail, old(recentlyRemoved), now);
      PurgedReap(t, t1, T(), KeyOf(r), was, now);
    }

    // The death of a container that the supervisor removed itself.
    method DropEcho(r: Runner) returns (ghost ev: seq<Event>)
      requires Valid()
      modifies this`log, reconciler
      ensures Valid() && log == old(log) + ev && NoRemoval(ev) && T() == old(T()) - {KeyOf(r)}
    {
      ev := [];
      if KeyOf(r) in T() {
        ev := [Echoed(KeyOf(r))];
        BookDeparture(T(), log, used, ev[0]);
      } else {
        PlusNothing(log);
      }
      log := log + ev;
      reconciler.UntrackRunner(r.pool, r.id);
    }

    // What the audit finds and misses goes into the books.
    method AuditHost(resolve: Resolver, listing: seq<Runner>) returns (exited: seq<Runner>, ghost ev: seq<Event>)
      requires Valid()
      modifies this`used, this`log, reconciler
      ensures Valid() && T() == Audited(old(T()), resolve, listing)
      ensures log == old(log) + ev && forall e :: e in ev ==> ByAudit(e)
      ensures exited == Exited(old(T()), resolve, listing)
      ensures forall r :: r in exited ==> !r.running && r.id in used
    {
      ObserveAllKeyed(resolve, T(), listing);
      SelectMembers(IsExited, Rows(T(), resolve, listing));
      RowIds(T(), resolve, listing);
      ghost var t, known := T(), used;
      ListedTracked(T(), resolve, listing);
      used := used + Present(listing);
      var report := reconciler.Audit(resolve, listing);
      assert IdsOf(T().Keys) == Present(listing);
      ev := BookAudit(t, T(), log, known, used);
      log := log + ev;
      exited := report.exited;
    }

    // Audit the host (listing is None when that failed) and reap what exited.
    method AuditAndReap(resolve: Resolver, listing: Option<seq<Runner>>, pools: Option<seq<Pool>>, now: int)
      returns (ghost reaped: set<Slot>, ghost was: set<string>, ghost ev: seq<Event>)
      requires Valid()
      modifies this`queue, this`log, this`used, this`recentlyRemoved, reconciler
      ensures Valid() && log == old(log) + ev
      ensures forall e :: e in ev && e.Removed? ==> e.reason == Reap && !e.runner.running
      ensures (listing.Some? ==> Distinct(listing.value)) ==>
        DeadRecorded(ev, Dead(old(T()), resolve, listing), old(recentlyRemoved), now)
      ensures listing.None? ==> T() == old(T()) && queue == old(queue)
      ensures Purged(Observed(old(T()), resolve, listing), T(), reaped, was)
      ensures forall s :: s in Observed(old(T()), resolve, listing) ==> (s in reaped <==> s in Dead(old(T()), resolve, listing))
    {
      reaped, was, ev := {}, {}, [];
      if listing.None? { return; }
      var exited;
      exited, ev := AuditHost(resolve, listing.value);
      if Distinct(listing.value) { ExitedDistinct(old(T()), resolve, listing.value); }
      ghost var t := T();
      was := used;
      ReapingStart(t, was, exited, ev, recentlyRemoved, now);
      for i := 0 to |exited|
        invariant Valid() && log == old(log) + ev && was <= used
        invariant Reaping(t, T(), reaped, was, exited, i, ev, old(recentlyRemoved), recentlyRemoved, now)
      {
        reaped, ev := ReapNth(exited, i, pools, now, t, reaped, was, old(log), ev, old(recentlyRemoved));
      }
      TakeAll(exited);
    }

    // The next of the dead.
    method ReapNth(exited: seq<Runner>, i: nat, pools: Option<seq<Pool>>, now: int, ghost t: Table, ghost reaped: set<Slot>,
                   ghost was: set<string>, ghost past: seq<Event>, ghost ev: seq<Event>, ghost before: map<string, int>)
      returns (ghost reaped1: set<Slot>, ghost ev1: seq<Event>)
      requires Valid() && log == past + ev && was <= used && i < |exited| && !exited[i].running
      requires exited[i].id in was && forall s :: s in t ==> s.id in was
      requires Reaping(t, T(), reaped, was, exited, i, ev, before, recentlyRemoved, now)
      modifies this`queue, this`log, this`used, this`recentlyRemoved, reconciler
      ensures Valid() && log == past + ev1 && was <= used
      ensures Reaping(t, T(), reaped1, was, exited, i + 1, ev1, before, recentlyRemoved, now)
    {
      ghost var t1, was1, key, removed := T(), used, KeyOf(exited[i]), recentlyRemoved;
      ghost var more := ReapContainer(exited[i], pools, now);
      ReapingNext(t, t1, T(), reaped, was, was1, exited, i, ev, more, before, removed, recentlyRemoved, now);
      Assoc(past, ev, more);
      reaped1, ev1 := reaped + (if key in t1 then {key} else {}), ev + more;
    }

    // The ownership gate for one tracked pool without a row.
    method DrainRemovedPool(d: nat, ghost pools: seq<Pool>, tomb: map<nat, Tombstone>, ghost before: map<nat, DrainEntry>, now: int)
      returns (ghost ev: seq<Event>)
      requires Valid() && !HasRow(d, pools) && DrainsOwned(drainingPools, before, pools, tomb, adoptAll)
      modifies this`queue, this`log, this`recentlyRemoved, this`drainingPools, reconciler
      ensures Valid() && log == old(log) + ev && NoReap(ev)
      ensures AllWarranted(ev, pools, before, tomb, adoptAll, now)
      ensures DrainsOwned(drainingPools, before, pools, tomb, adoptAll)
      ensures forall q :: q != d ==> (q in drainingPools <==> q in old(drainingPools))
      ensures T() == if Owned(d, tomb, adoptAll) && d !in old(drainingPools) then old(T()) - Leaving(old(T()), d, true) else old(T())
    {
      ev := [];
      if !adoptAll {
        var owned := if d in tomb then tomb[d] else NoTombstone;
        if owned != Deleted { return; }
      }
      ghost var t := T();
      ev := DrainPool(d, "", 0, true, now);
      DrainsWarranted(t, d, ev, pools, before, tomb, adoptAll, now);
    }

    // Drain the tracked pools that have no row and are ours to drain.
    method DrainRemovedPools(pools: seq<Pool>, tomb: map<nat, Tombstone>, now: int) returns (ghost ev: seq<Event>)
      requires Valid()
      modifies this`queue, this`log, this`recentlyRemoved, this`drainingPools, reconciler
      ensures Valid() && log == old(log) + ev && NoReap(ev)
      ensures AllWarranted(ev, pools, old(drainingPools), tomb, adoptAll, now)
      ensures DrainsOwned(drainingPools, old(drainingPools), pools, tomb, adoptAll)
      ensures T() == old(T()) - Removable(old(T()), pools, old(drainingPools), tomb, adoptAll)
    {
      ev := [];
      var rows := set p | p in pools :: p.id;
      var todo := (set s | s in reconciler.tracked :: s.pool) - rows;
      ghost var t, out := T(), Removable(T(), pools, drainingPools, tomb, adoptAll);
      while todo != {}
        invariant Valid() && log == old(log) + ev && NoReap(ev)
        invariant forall d :: d in todo ==> !HasRow(d, pools)
        invariant AllWarranted(ev, pools, old(drainingPools), tomb, adoptAll, now)
        invariant DrainsOwned(drainingPools, old(drainingPools), pools, tomb, adoptAll)
        invariant forall d :: d in todo ==> (d in drainingPools <==> d in old(drainingPools))
        invariant PartlyOut(t, T(), out, todo)
      {
        var d := Pick(todo);
        OutNext(t, T(), pools, old(drainingPools), tomb, adoptAll, todo, d);
        todo := todo - {d};
        ghost var more := DrainRemovedPool(d, pools, tomb, old(drainingPools), now);
        Assoc(old(log), ev, more);
        WarrantedAppend(ev, more, pools, old(drainingPools), tomb, adoptAll, now);
        ev := ev + more;
      }
      assert T() == t - out;
    }

    // One pool's turn in a cycle over all pools.
    method ReconcileNth(pools: seq<Pool>, i: nat, polls: map<nat, seq<Option<nat>>>, ghost drains: map<nat, DrainEntry>,
                        ghost tomb: map<nat, Tombstone>, now: int) returns (ghost c: Cycle, ghost ev: seq<Event>)
      requires Valid() && i < |pools| && Loadable(pools[i], polls)
      modifies this`queue, this`log, this`used, this`recentlyRemoved, reconciler
      ensures Valid() && log == old(log) + ev && NoReap(ev)
      ensures AllWarranted(ev, pools, drains, tomb, adoptAll, now)
      ensures CycleOf(c, pools[i], polls, grace, now) && Joins(c, old(T()), old(queue), T(), queue)
      ensures RowlessSame(old(T()), T(), pools) && BusyKept(old(T()), T())
      ensures Clean(ev) && QuietPolls(polls) && DistinctIds(pools) && AllSettled(old(T()), old(queue), pools, i, grace, now) ==>
        AllSettled(T(), queue, pools, i + 1, grace, now)
      ensures QuietPolls(polls) && AllSettled(old(T()), old(queue), pools, |pools|, grace, now) ==>
        ev == [] && T() == old(T()) && queue == old(queue)
    {
      var p := pools[i];
      ghost var idle, mid, w, placed, grown, t, q := [], map[], START, [], [], T(), queue;
      var ok;
      var poll := if p.id in polls then Some(polls[p.id]) else None;
      ok, idle, mid, w, placed, grown := ReconcilePool(p, poll, now);
      ev := w.ev + grown;
      c := Cycle(p, poll, grace, now, t, q, idle, w, mid, placed, T(), queue, ok, grown == []);
      NthSettles(pools, i, c, grown, polls);
      NthIsSafe(pools, i, c, grown, drains, tomb, adoptAll);
    }

    // Bring every pool to its target; a pool that fails does not stop the others.
    method ReconcilePools(pools: seq<Pool>, polls: map<nat, seq<Option<nat>>>, ghost drains: map<nat, DrainEntry>,
                          ghost tomb: map<nat, Tombstone>, now: int) returns (ghost cycles: seq<Cycle>, ghost ev: seq<Event>)
      requires Valid() && forall p :: p in pools ==> Loadable(p, polls)
      modifies this`queue, this`log, this`used, this`recentlyRemoved, reconciler
      ensures Valid() && log == old(log) + ev && NoReap(ev)
      ensures AllWarranted(ev, pools, drains, tomb, adoptAll, now)
      ensures RowlessSame(old(T()), T(), pools) && BusyKept(old(T()), T())
      // One cycle per pool, each starting where the one before ended and keeping its promise.
      ensures RoundOf(cycles, pools, polls, old(T()), old(queue), T(), queue, grace, now)
      // With no polled demand, a clean round settles every pool, and a round over
      // settled pools does nothing.
      ensures Clean(ev) && QuietPolls(polls) && DistinctIds(pools) ==> AllSettled(T(), queue, pools, |pools|, grace, now)
      ensures QuietPolls(polls) && AllSettled(old(T()), old(queue), pools, |pools|, grace, now) ==>
        ev == [] && T() == old(T()) && queue == old(queue)
    {
      cycles, ev := [], [];
      for i := 0 to |pools|
        invariant Valid() && log == old(log) + ev && NoReap(ev)
        invariant RoundOf(cycles, pools[..i], polls, old(T()), old(queue), T(), queue, grace, now)
        invariant RowlessSame(old(T()), T(), pools) && BusyKept(old(T()), T())
        invariant AllWarranted(ev, pools, drains, tomb, adoptAll, now)
        invariant Clean(ev) && QuietPolls(polls) && DistinctIds(pools) ==> AllSettled(T(), queue, pools, i, grace, now)
        invariant QuietPolls(polls) && AllSettled(old(T()), old(queue), pools, |pools|, grace, now) ==>
          ev == [] && T() == old(T()) && queue == old(queue)
      {
        assert pools[i] in pools && Loadable(pools[i], polls);
        ghost var t, q, more := T(), queue, [];
        ghost var cycle;
        cycle, more := ReconcileNth(pools, i, polls, drains, tomb, now);
        RoundNext(cycles, cycle, pools, i, polls, old(T()), old(queue), t, q, T(), queue, grace, now);
        cycles := cycles + [cycle];
        RowlessTwice(old(T()), t, T(), pools);
        WarrantedAppend(ev, more, pools, drains, tomb, adoptAll, now);
        CleanAppend(ev, more);
        Assoc(old(log), ev, more);
        ev := ev + more;
      }
      TakeAll(pools);
    }

    // Repeating a clean round does nothing.
    method RepeatedRound(pools: seq<Pool>, polls: map<nat, seq<Option<nat>>>, now: int) returns (ghost ev: seq<Event>, ghost again: seq<Event>)
      requires Valid() && forall p :: p in pools ==> Loadable(p, polls)
      modifies this`queue, this`log, this`used, this`recentlyRemoved, reconciler
      ensures Valid() && log == old(log) + ev + again
      ensures Clean(ev) && QuietPolls(polls) && DistinctIds(pools) ==> again == []
    {
      ghost var cycles;
      cycles, ev := ReconcilePools(pools, polls, map[], map[], now);
      cycles, again := ReconcilePools(pools, polls, map[], map[], now);
    }

    // One cycle over everything.  polls holds the answers of the pools that poll
    // in this cycle; quota is the total_allowed_runners setting, if it reads.
    // st names the table after each stage of a cycle whose pools loaded.
    // st and round name its stages: the tables in between, and the cycles of the pools.
    method Reconcile(active: bool, resolve: Resolver, listing: Option<seq<Runner>>, quota: Option<int>, pools: Option<seq<Pool>>,
                     tomb: map<nat, Tombstone>, polls: map<nat, seq<Option<nat>>>, now: int)
      returns (ok: bool, ghost st: Stages, ghost round: Round, ghost ev: seq<Event>)
      requires Valid() && (pools.Some? ==> forall p :: p in pools.value ==> Loadable(p, polls))
      modifies this`queue, this`log, this`used, this`recentlyRemoved, this`drainingPools, this`globalMaxRunners, reconciler
      ensures Valid() && log == old(log) + ev
      ensures ok <==> !active || pools.Some?
      ensures !active ==> ev == [] && T() == old(T()) && queue == old(queue)
      ensures AllWarranted(ev, if pools.Some? then pools.value else [], old(drainingPools), tomb, adoptAll, now)
      ensures active ==> globalMaxRunners == if quota.Some? && quota.value > 0 then quota.value else old(globalMaxRunners)
      ensures ForeignUntouched(ev, if pools.Some? then pools.value else [], old(drainingPools), tomb, adoptAll)
      ensures BusyNeedsLimit(ev, if pools.Some? then pools.value else [], old(drainingPools), tomb, adoptAll, now)
      ensures active ==> forall s :: s in Observed(old(T()), resolve, listing) ==>
        (s in st.gone <==> s in Dead(old(T()), resolve, listing))
      ensures active && pools.Some? ==>
        StagesDone(Observed(old(T()), resolve, listing), st, round, T(), queue, pools.value, old(drainingPools), tomb, adoptAll,
                   polls, globalMaxRunners, grace, now)
      ensures active && pools.Some? ==>
        RunnersSafe(old(T()), resolve, listing, T(), pools.value, old(drainingPools), tomb, adoptAll, now)
      // Each dead container the supervisor had not removed itself is recorded once; and
      // everything that enters or leaves the table is on record.
      ensures active && (listing.Some? ==> Distinct(listing.value)) ==>
        DeadRecorded(ev, Dead(old(T()), resolve, listing), old(recentlyRemoved), now)
      ensures Accounts(old(T()), T(), ev)
      ensures active && pools.Some? && Clean(ev) && QuietPolls(polls) && DistinctIds(pools.value) ==>
        AllSettled(T(), queue, pools.value, |pools.value|, grace, now)
    {
      ghost var t, drains, ids := T(), drainingPools, used;
      ok, st, round, ev := true, Stages(T(), {}, {}, Line([], [], [], []), T(), T(), map[], T()), Round([], queue), [];
      PlusNothing(log);
      if active { ok, st, round, ev := RunCycle(resolve, listing, quota, pools, tomb, polls, now); }
      BalancedAccounts(t, T(), old(log), ev, ids, used);
      WarrantedIsSafe(ev, if pools.Some? then pools.value else [], drains, tomb, adoptAll, now);
      if active && pools.Some? {
        StagesAreSafe(t, resolve, listing, st, round, T(), queue, pools.value, drains, tomb, adoptAll, polls, globalMaxRunners, grace, now);
      }
    }

    // A cycle of a controller that is neither paused nor stopped.
    method RunCycle(resolve: Resolver, listing: Option<seq<Runner>>, quota: Option<int>, pools: Option<seq<Pool>>,
                    tomb: map<nat, Tombstone>, polls: map<nat, seq<Option<nat>>>, now: int)
      returns (ok: bool, ghost st: Stages, ghost round: Round, ghost ev: seq<Event>)
      requires Valid() && (pools.Some? ==> forall p :: p in pools.value ==> Loadable(p, polls))
      modifies this`queue, this`log, this`used, this`recentlyRemoved, this`drainingPools, this`globalMaxRunners, reconciler
      ensures Valid() && log == old(log) + ev && (ok <==> pools.Some?)
      ensures AllWarranted(ev, if pools.Some? then pools.value else [], old(drainingPools), tomb, adoptAll, now)
      ensures globalMaxRunners == if quota.Some? && quota.value > 0 then quota.value else old(globalMaxRunners)
      ensures forall s :: s in Observed(old(T()), resolve, listing) ==> (s in st.gone <==> s in Dead(old(T()), resolve, listing))
      ensures pools.Some? ==>
        StagesDone(Observed(old(T()), resolve, listing), st, round, T(), queue, pools.value, old(drainingPools), tomb, adoptAll,
                   polls, globalMaxRunners, grace, now)
      ensures (listing.Some? ==> Distinct(listing.value)) ==>
        DeadRecorded(ev, Dead(old(T()), resolve, listing), old(recentlyRemoved), now)
      ensures pools.Some? && Clean(ev) && QuietPolls(polls) && DistinctIds(pools.value) ==>
        AllSettled(T(), queue, pools.value, |pools.value|, grace, now)
    {
      ghost var t, drains, reaped, gone, ids, line := T(), drainingPools, T(), {}, {}, Line([], [], [], []);
      reaped, gone, ids, line, ev := ReapAndServe(resolve, listing, quota, pools, tomb, now);
      st, round := Stages(reaped, gone, ids, line, T(), T(), map[], T()), Round([], queue);
      if pools.None? { return false, st, round, ev; }
      ghost var served, drained, backstops, checked, more := T(), map[], map[], map[], [];
      drained, backstops, checked, round, more := ReconcileRows(pools.value, tomb, polls, now);
      st := Stages(reaped, gone, ids, line, served, drained, backstops, checked);
      Extend(old(log), ev, more, pools.value, drains, tomb, now);
      if listing.Some? ==> Distinct(listing.value) { RecordedMore(ev, more, Dead(t, resolve, listing), old(recentlyRemoved), now); }
      return true, st, round, ev + more;
    }

    // The part that needs no pool rows: the audit, the quota setting and the queue.
    method ReapAndServe(resolve: Resolver, listing: Option<seq<Runner>>, quota: Option<int>, pools: Option<seq<Pool>>,
                        ghost tomb: map<nat, Tombstone>, now: int)
      returns (ghost reaped: Table, ghost gone: set<Slot>, ghost was: set<string>, ghost line: Line, ghost ev: seq<Event>)
      requires Valid()
      modifies this`queue, this`log, this`used, this`recentlyRemoved, this`globalMaxRunners, reconciler
      ensures pools.Some? ==>
        QueueDrained(reaped, T(), line.found, line.fates, line.left, pools.value, globalMaxRunners, line.ev, now) && line.left == queue
      ensures Valid() && log == old(log) + ev
      ensures AllWarranted(ev, if pools.Some? then pools.value else [], drainingPools, tomb, adoptAll, now)
      ensures (listing.Some? ==> Distinct(listing.value)) ==>
        DeadRecorded(ev, Dead(old(T()), resolve, listing), old(recentlyRemoved), now)
      ensures globalMaxRunners == if quota.Some? && quota.value > 0 then quota.value else old(globalMaxRunners)
      ensures Purged(Observed(old(T()), resolve, listing), reaped, gone, was) && Extended(reaped, T(), now)
      ensures forall s :: s in Observed(old(T()), resolve, listing) ==> (s in gone <==> s in Dead(old(T()), resolve, listing))
    {
      ghost var rows := if pools.Some? then pools.value else [];
      gone, was, ev := AuditAndReap(resolve, listing, pools, now);
      reaped := T();
      if quota.Some? && quota.value > 0 { globalMaxRunners := quota.value; }
      line := ServeQueue(pools, rows, drainingPools, tomb, now);
      Extend(old(log), ev, line.ev, rows, drainingPools, tomb, now);
      if listing.Some? ==> Distinct(listing.value) {
        RecordedMore(ev, line.ev, Dead(old(T()), resolve, listing), old(recentlyRemoved), now);
      }
      ev := ev + line.ev;
    }

    // The part of a cycle that compares the tracked pools with the loaded rows.
    method ReconcileRows(pools: seq<Pool>, tomb: map<nat, Tombstone>, polls: map<nat, seq<Option<nat>>>, now: int)
      returns (ghost drained: Table, ghost backstops: map<nat, DrainEntry>, ghost checked: Table, ghost round: Round, ghost ev: seq<Event>)
      requires Valid() && forall p :: p in pools ==> Loadable(p, polls)
      modifies this`queue, this`log, this`used, this`recentlyRemoved, this`drainingPools, reconciler
      ensures Valid() && log == old(log) + ev && NoReap(ev)
      ensures AllWarranted(ev, pools, old(drainingPools), tomb, adoptAll, now)
      ensures RowsStaged(old(T()), drained, backstops, checked, T(), pools, old(drainingPools), tomb, adoptAll, now)
      ensures RoundOf(round.cycles, pools, polls, checked, round.waiting, T(), queue, grace, now)
      ensures Clean(ev) && QuietPolls(polls) && DistinctIds(pools) ==> AllSettled(T(), queue, pools, |pools|, grace, now)
    {
      ghost var drains, more := drainingPools, [];
      ev := DrainRemovedPools(pools, tomb, now);
      drained, backstops := T(), drainingPools;
      more := CheckAll(pools, drains, tomb, now);
      Extend(old(log), ev, more, pools, drains, tomb, now);
      ev, checked := ev + more, T();
      ghost var waiting, cycles := queue, [];
      cycles, more := ReconcilePools(pools, polls, drains, tomb, now);
      round := Round(cycles, waiting);
      Extend(old(log), ev, more, pools, drains, tomb, now);
      ev := ev + more;
    }

    lemma Extend(past: seq<Event>, ev: seq<Event>, more: seq<Event>, pools: seq<Pool>, drains: map<nat, DrainEntry>,
                 tomb: map<nat, Tombstone>, now: int)
      requires AllWarranted(ev, pools, drains, tomb, adoptAll, now) && AllWarranted(more, pools, drains, tomb, adoptAll, now)
      ensures AllWarranted(ev + more, pools, drains, tomb, adoptAll, now) && (past + ev) + more == past + (ev + more)
      ensures Clean(ev + more) <==> Clean(ev) && Clean(more)
      ensures NoReap(ev) && NoReap(more) ==> NoReap(ev + more)
    {
      Assoc(past, ev, more);
      CleanAppend(ev, more);
      WarrantedAppend(ev, more, pools, drains, tomb, adoptAll, now);
    }

    // drainQueue as a stage: it removes nothing.
    method ServeQueue(pools: Option<seq<Pool>>, ghost rows: seq<Pool>, ghost drains: map<nat, DrainEntry>,
                      ghost tomb: map<nat, Tombstone>, now: int) returns (ghost line: Line)
      requires Valid()
      modifies this`queue, this`log, this`used, reconciler
      ensures Valid() && log == old(log) + line.ev && Extended(old(T()), T(), now) && NoReap(line.ev)
      ensures AllWarranted(line.ev, rows, drains, tomb, adoptAll, now)
      ensures pools.Some? ==>
        QueueDrained(old(T()), T(), line.found, line.fates, line.left, pools.value, globalMaxRunners, line.ev, now)
      ensures line.found == old(queue) && line.left == queue
    {
      ghost var waiting, fates, ev := queue, [], [];
      fates, ev := DrainQueue(pools, now);
      line := Line(waiting, fates, queue, ev);
    }

    // The lifetime check as a stage.
    method CheckAll(pools: seq<Pool>, ghost drains: map<nat, DrainEntry>, ghost tomb: map<nat, Tombstone>, now: int)
      returns (ghost ev: seq<Event>)
      requires Valid() && DrainsOwned(drainingPools, drains, pools, tomb, adoptAll)
      modifies this`queue, this`log, this`used, this`recentlyRemoved, this`drainingPools, reconciler
      ensures Valid() && log == old(log) + ev && NoReap(ev)
      ensures AllWarranted(ev, pools, drains, tomb, adoptAll, now)
      ensures WithinLimits(old(T()), T(), pools, old(drainingPools), now)
    {
      ghost var t, gone, was, entries := T(), {}, used, drainingPools;
      gone, ev := CheckHungRunners(pools, now);
      ChecksNoReap(t, T(), gone, pools, entries, was, ev, now);
      ChecksWarranted(t, T(), gone, pools, entries, drains, tomb, adoptAll, was, ev, now);
    }
  }

  // As loadPoolTargets leaves it: no empty target, and one answer per target of a
  // pool that polls.
  ghost predicate Loadable(p: Pool, polls: map<nat, seq<Option<nat>>>) {
    "" !in p.targets && (p.id in polls ==> p.polls && |polls[p.id]| == |p.targets|)
  }

  ghost predicate QuietPolls(polls: map<nat, seq<Option<nat>>>) {
    forall id :: id in polls ==> Quiet(Some(polls[id]))
  }

  // ---- A round over all pools ----------------------------------------------

  // The cycles of the pools, and the queue the first one found.
  datatype Round = Round(cycles: seq<Cycle>, waiting: seq<Request>)

  // The cycle of a pool, with the answers polled for it if any.
  ghost predicate CycleOf(c: Cycle, p: Pool, polls: map<nat, seq<Option<nat>>>, grace: int, now: int) {
    && c.p == p && c.poll == (if p.id in polls then Some(polls[p.id]) else None) && c.grace == grace && c.now == now
    && Answered(c) && CyclePromise(c)
  }

  ghost predicate Joins(c: Cycle, t: Table, q: seq<Request>, t1: Table, q1: seq<Request>) {
    c.start == t && c.before == q && c.end == t1 && c.after == q1
  }

  ghost predicate RoundOf(cycles: seq<Cycle>, pools: seq<Pool>, polls: map<nat, seq<Option<nat>>>, t: Table, q: seq<Request>,
                          t1: Table, q1: seq<Request>, grace: int, now: int) {
    && |cycles| == |pools|
    && if cycles == [] then t1 == t && q1 == q
       else
         var n := |cycles| - 1;
         CycleOf(cycles[n], pools[n], polls, grace, now) &&
         RoundOf(cycles[..n], pools[..n], polls, t, q, cycles[n].start, cycles[n].before, grace, now) &&
         cycles[n].end == t1 && cycles[n].after == q1
  }

  lemma RoundNext(cycles: seq<Cycle>, c: Cycle, pools: seq<Pool>, i: nat, polls: map<nat, seq<Option<nat>>>, t: Table, q: seq<Request>,
                  t1: Table, q1: seq<Request>, t2: Table, q2: seq<Request>, grace: int, now: int)
    requires i < |pools| && RoundOf(cycles, pools[..i], polls, t, q, t1, q1, grace, now)
    requires CycleOf(c, pools[i], polls, grace, now) && Joins(c, t1, q1, t2, q2)
    ensures RoundOf(cycles + [c], pools[..i + 1], polls, t, q, t2, q2, grace, now)
  {
    assert pools[..i + 1][..i] == pools[..i] && (cycles + [c])[..i] == cycles;
  }

  // Reaped, queue served whatever the quota is by then, removed pools drained, overdue
  // runners killed, and one cycle for every pool: each stage does exactly its part.
  ghost predicate StagesDone(t: Table, st: Stages, round: Round, t1: Table, q1: seq<Request>, pools: seq<Pool>,
                             before: map<nat, DrainEntry>, tomb: map<nat, Tombstone>, adoptAll: bool,
                             polls: map<nat, seq<Option<nat>>>, quota: int, grace: int, now: int) {
    && Staged(t, st, t1, pools, before, tomb, adoptAll, now)
    && QueueDrained(st.reaped, st.served, st.line.found, st.line.fates, st.line.left, pools, quota, st.line.ev, now)
    && RoundOf(round.cycles, pools, polls, st.checked, round.waiting, t1, q1, grace, now)
  }

  // Unless they were dead, running containers of foreign pools and busy ones within
  // their limits outlive the cycle; the latter also in terms of the table before the
  // audit, if the host lists them as running.
  ghost predicate RunnersSafe(t: Table, resolve: Resolver, listing: Option<seq<Runner>>, t1: Table, pools: seq<Pool>,
                              before: map<nat, DrainEntry>, tomb: map<nat, Tombstone>, adoptAll: bool, now: int) {
    && ForeignKept(Observed(t, resolve, listing), t1, Dead(t, resolve, listing), pools, before, tomb, adoptAll)
    && BusySurvive(Observed(t, resolve, listing), t1, Dead(t, resolve, listing), pools, before, tomb, adoptAll, now)
    && BusyOutlives(t, listing, t1, pools, before, tomb, adoptAll, now)
  }

  lemma StagesAreSafe(t: Table, resolve: Resolver, listing: Option<seq<Runner>>, st: Stages, round: Round, t1: Table, q1: seq<Request>,
                      pools: seq<Pool>, before: map<nat, DrainEntry>, tomb: map<nat, Tombstone>, adoptAll: bool,
                      polls: map<nat, seq<Option<nat>>>, quota: int, grace: int, now: int)
    requires StagesDone(Observed(t, resolve, listing), st, round, t1, q1, pools, before, tomb, adoptAll, polls, quota, grace, now)
    requires forall s :: s in Observed(t, resolve, listing) ==> (s in st.gone <==> s in Dead(t, resolve, listing))
    ensures RunnersSafe(t, resolve, listing, t1, pools, before, tomb, adoptAll, now)
  {
    ForeignStays(Observed(t, resolve, listing), st, t1, Dead(t, resolve, listing), pools, before, tomb, adoptAll, now);
    BusyStays(Observed(t, resolve, listing), st, t1, Dead(t, resolve, listing), pools, before, tomb, adoptAll, now);
    BusyOutlivesIs(t, resolve, listing, t1, pools, before, tomb, adoptAll, now);
  }

  // One pool's cycle disturbs nobody else, and what it removes is warranted.
  lemma NthIsSafe(pools: seq<Pool>, i: nat, c: Cycle, grown: seq<Event>, drains: map<nat, DrainEntry>, tomb: map<nat, Tombstone>,
                  adoptAll: bool)
    requires i < |pools| && c.p == pools[i] && c.w.reason == IdleDrain && NoRemoval(grown)
    requires IsIdleList(c.start, c.p.id, c.idle) && DrainWalk(c.start, c.mid, c.p.id, c.idle, c.w, c.now)
    requires Grown(c.mid, c.end, c.p, c.p.minIdle == 0 || c.p.polls, c.now)
    ensures AllWarranted(c.w.ev + grown, pools, drains, tomb, adoptAll, c.now) && NoReap(c.w.ev + grown)
    ensures RowlessSame(c.start, c.end, pools) && BusyKept(c.start, c.end)
  {
    var onDemand := c.p.minIdle == 0 || c.p.polls;
    assert c.p in pools;
    OwnPoolOnly(c.start, c.mid, c.end, c.p, c.idle, c.w, onDemand, pools, c.now);
    BusyKeptStep(c.start, c.mid, c.end, c.p, c.idle, c.w, onDemand, c.now);
    WalkWarranted(c.start, c.mid, c.p, c.idle, c.w, pools, drains, tomb, adoptAll, c.now);
    WalkNoReap(c.start, c.mid, c.p.id, c.idle, c.w, c.now);
    WarrantedAppend(c.w.ev, grown, pools, drains, tomb, adoptAll, c.now);
  }

  // What one pool's cycle means for all of them.
  lemma NthSettles(pools: seq<Pool>, i: nat, c: Cycle, grown: seq<Event>, polls: map<nat, seq<Option<nat>>>)
    requires i < |pools| && c.p == pools[i] && Answered(c) && CyclePromise(c) && (c.quiet <==> grown == [])
    requires c.poll == if c.p.id in polls then Some(polls[c.p.id]) else None
    requires IsIdleList(c.start, c.p.id, c.idle) && DrainWalk(c.start, c.mid, c.p.id, c.idle, c.w, c.now)
    requires Grown(c.mid, c.end, c.p, c.p.minIdle == 0 || c.p.polls, c.now) && QueueGrown(c.before, c.after, c.p)
    requires (c.quiet ==> c.end == c.mid && c.after == c.before) && (!c.ok ==> SpawnFailed(c.p.id) in grown)
    requires c.p.targets == [] ==> c.w.ev == [] && c.quiet
    ensures QuietPolls(polls) && DistinctIds(pools) && Clean(c.w.ev + grown) ==>
      AllSettled(c.start, c.before, pools, i, c.grace, c.now) ==> AllSettled(c.end, c.after, pools, i + 1, c.grace, c.now)
    ensures QuietPolls(polls) && AllSettled(c.start, c.before, pools, |pools|, c.grace, c.now) ==>
      c.w.ev + grown == [] && c.end == c.start && c.after == c.before
  {
    CleanAppend(c.w.ev, grown);
    if QuietPolls(polls) && DistinctIds(pools) && Clean(c.w.ev + grown) && AllSettled(c.start, c.before, pools, i, c.grace, c.now) {
      CycleSettlesNext(c, pools, i);
    }
    if QuietPolls(polls) && AllSettled(c.start, c.before, pools, |pools|, c.grace, c.now) {
      if c.p.targets == [] { WalkNothing(c.start, c.mid, c.p.id, c.idle, c.w, c.now); } else { CycleRests(c); }
    }
  }

  lemma {:induction false} LongestId(ids: set<string>) returns (n: nat)
    ensures forall id :: id in ids ==> |id| <= n
    decreases ids
  {
    if id :| id in ids {
      var m := LongestId(ids - {id});
      n := Max(m, |id|);
    } else {
      n := 0;
    }
  }

  lemma FreshId(ids: set<string>)
    ensures exists id :: id !in ids
  {
    var n := LongestId(ids);
    var id := seq(n + 1, _ => 'a');
    assert id !in ids;
  }
}
