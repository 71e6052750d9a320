// Webhook-driven provisioning, internal/orchestrator/webhook_scaling.go and
// internal/orchestrator/webhook_demand.go: booked demand, and the accounting that
// lets warm runners serve jobs before new ones are spawned.
module Webhook {
  import opened Basics
  import opened Tracking
  import opened Fleet

  const WEBHOOK_DEMAND_TTL := 3_600_000_000_000 // 1 hour

  // A queued job booked for a pool, with the instant of its last queued event.
  datatype Booking = Booking(pool: nat, job: nat)

  type Demands = map<Booking, int>

  function Booked(d: Demands, pool: nat): set<Booking> {
    set b | b in d && b.pool == pool
  }

  // markQueued: book or refresh the job, then sweep the pool's stale bookings.
  function MarkQueued(d: Demands, b: Booking, now: int): Demands {
    var d1 := d[b := now];
    map k | k in d1 && !(k.pool == b.pool && d1[k] < now - WEBHOOK_DEMAND_TTL) :: d1[k]
  }

  datatype Decision = Covered | AtCap | Saturated | Room

  // Idle runners on the job's target serve the booked demand first; then the
  // pool's cap, then the global quota.
  function Decide(p: Pool, quota: int, pending: int, idle: int, active: int, total: int): Decision {
    if pending <= idle then Covered
    else if p.maxConcurrency > 0 && active >= p.maxConcurrency then AtCap
    else if quota > 0 && total >= quota then Saturated
    else Room
  }

  // When each answer is given.
  lemma DecideWhen(p: Pool, quota: int, pending: int, idle: int, active: int, total: int)
    ensures var d, capped, full := Decide(p, quota, pending, idle, active, total), 0 < p.maxConcurrency <= active, 0 < quota <= total;
      (d == Covered <==> pending <= idle) &&
      (d == AtCap <==> idle < pending && capped) &&
      (d == Saturated <==> idle < pending && !capped && full) &&
      (d == Room <==> idle < pending && !capped && !full)
  {
  }

  // After a queued event the job is booked as of now, no booking of its pool is older
  // than the limit, and every other one that is not is still there.
  lemma MarkSweeps(d: Demands, b: Booking, now: int)
    ensures var d1 := MarkQueued(d, b, now);
      b in d1 && d1[b] == now &&
      (forall k :: k in d1 && k.pool == b.pool ==> now - d1[k] <= WEBHOOK_DEMAND_TTL) &&
      (forall k :: k in d1 && k != b ==> k in d && d1[k] == d[k]) &&
      (forall k :: k in d && k != b && (k.pool != b.pool || now - d[k] <= WEBHOOK_DEMAND_TTL) ==> k in d1)
  {
  }

  // n more containers of the pool stay within its cap and the global quota.
  ghost predicate RoomFor(t: Table, p: Pool, quota: int, n: int) {
    && (n > 0 && p.maxConcurrency > 0 ==> |RunningIn(t, p.id)| + n <= p.maxConcurrency)
    && (n > 0 && quota > 0 ==> |AllRunning(t)| + n <= quota)
  }

  ghost predicate AtMostGrown(t: Table, t1: Table, pool: nat, n: nat) {
    |RunningIn(t1, pool)| <= |RunningIn(t, pool)| + n && |AllRunning(t1)| <= |AllRunning(t)| + n
  }

  // target is the target of a runner of that name, or "" if none has one.
  ghost predicate Vacates(t: Table, pool: nat, runner: string, target: string) {
    if target == "" then forall s :: s in t && s.pool == pool && t[s].name == runner ==> t[s].target == ""
    else exists s :: s in t && s.pool == pool && t[s].name == runner && t[s].target == target
  }

  // Idle standbys counted towards min_idle: of the vacated target, or of the whole
  // pool when none is known.
  function VacantIdle(t: Table, pool: nat, target: string): nat {
    if target == "" then |IdleIn(t, pool)| else |IdleOn(t, pool, target)|
  }

  // While nothing is stale a queued event adds its job, once.
  lemma MarkAdds(d: Demands, b: Booking, now: int)
    requires forall k :: k in Booked(d, b.pool) ==> d[k] >= now - WEBHOOK_DEMAND_TTL
    ensures Booked(MarkQueued(d, b, now), b.pool) == Booked(d, b.pool) + {b}
    ensures forall k :: k in Booked(MarkQueued(d, b, now), b.pool) ==> MarkQueued(d, b, now)[k] == if k == b then now else d[k]
  {
    assert forall k :: k in d && k.pool == b.pool ==> k in Booked(d, b.pool);
  }

  // ---- Several targets -----------------------------------------------------

  // The pool's booked jobs that were matched to one target.
  ghost function BookedOn(d: Demands, pool: nat, targetOf: map<nat, string>, target: string): set<Booking> {
    set b | b in d && b.pool == pool && b.job in targetOf && targetOf[b.job] == target
  }

  // Every target has a warm runner for each of its booked jobs.
  ghost predicate Reserved(t: Table, d: Demands, pool: nat, targetOf: map<nat, string>) {
    forall x :: |BookedOn(d, pool, targetOf, x)| <= |IdleOn(t, pool, x)|
  }

  lemma MarkBookedOn(d: Demands, b: Booking, now: int, targetOf: map<nat, string>, x: string)
    ensures BookedOn(MarkQueued(d, b, now), b.pool, targetOf, x) <= BookedOn(d, b.pool, targetOf, x) + {b}
    ensures b.job in targetOf && targetOf[b.job] != x ==>
      BookedOn(MarkQueued(d, b, now), b.pool, targetOf, x) <= BookedOn(d, b.pool, targetOf, x)
    ensures BookedOn(MarkQueued(d, b, now), b.pool, targetOf, x) <= Booked(MarkQueued(d, b, now), b.pool)
  {
  }

  // s is a new idle runner on the target, the only change.
  ghost predicate Warmed(t: Table, t1: Table, s: Slot, target: string) {
    s !in t && s in t1 && t1[s].running && !t1[s].busy && t1[s].target == target && t1 == t[s := t1[s]]
  }

  // A queued event that is covered, or answered with a runner on its own target,
  // keeps every target reserved.
  lemma QueuedKeepsReserved(t: Table, t1: Table, d: Demands, b: Booking, target: string, s: Slot, targetOf: map<nat, string>, now: int)
    requires Reserved(t, d, b.pool, targetOf) && b.job in targetOf && targetOf[b.job] == target
    requires (t1 == t && |Booked(MarkQueued(d, b, now), b.pool)| <= |IdleOn(t, b.pool, target)|) ||
             (s.pool == b.pool && Warmed(t, t1, s, target))
    ensures Reserved(t1, MarkQueued(d, b, now), b.pool, targetOf)
  {
    var d1 := MarkQueued(d, b, now);
    forall x ensures |BookedOn(d1, b.pool, targetOf, x)| <= |IdleOn(t1, b.pool, x)| {
      MarkBookedOn(d, b, now, targetOf, x);
      var was := BookedOn(d, b.pool, targetOf, x);
      if x != target {
        Subsets(BookedOn(d1, b.pool, targetOf, x), was);
      } else {
        Subsets(BookedOn(d1, b.pool, targetOf, x), was + {b});
        Subsets(BookedOn(d1, b.pool, targetOf, x), Booked(d1, b.pool));
      }
      if Warmed(t, t1, s, target) { SpawnIdles(t, s, t1[s], x); }
    }
  }

  // With room, an event spawns a runner its own target does not need exactly when
  // the target's spare warm runners are outnumbered by the pool's bookings for its
  // other targets: those count against them.
  lemma SpawnsBeyondShortfall(t: Table, d: Demands, p: Pool, quota: int, targetOf: map<nat, string>, x: string)
    requires RoomFor(t, p, quota, 1)
    ensures var all, mine, idle := Booked(d, p.id), BookedOn(d, p.id, targetOf, x), |IdleOn(t, p.id, x)|;
      Decide(p, quota, |all|, idle, |RunningIn(t, p.id)|, |AllRunning(t)|) == Room && |mine| <= idle <==>
      0 <= idle - |mine| < |all - mine|
  {
    Subsets(BookedOn(d, p.id, targetOf, x), Booked(d, p.id));
  }

  // A concrete case: jobs 1 and 2 are queued for targets "x" and "y" with one warm
  // runner each; every job is covered, and the second event spawns all the same.
  lemma WarmPairSpawnsThird(t: Table, p: Pool, a: Slot, b: Slot, now: int)
    requires a.pool == p.id && b.pool == p.id && t.Keys == {a, b} && p.maxConcurrency == 0
    requires IsIdle(t[a]) && t[a].target == "x" && IsIdle(t[b]) && t[b].target == "y"
    ensures var d := MarkQueued(MarkQueued(map[], Booking(p.id, 1), now), Booking(p.id, 2), now);
      Reserved(t, d, p.id, map[1 := "x", 2 := "y"]) &&
      Decide(p, 0, |Booked(d, p.id)|, |IdleOn(t, p.id, "y")|, |RunningIn(t, p.id)|, |AllRunning(t)|) == Room
  {
    var first, second, targetOf := Booking(p.id, 1), Booking(p.id, 2), map[1 := "x", 2 := "y"];
    var d := MarkQueued(MarkQueued(map[], first, now), second, now);
    assert IdleOn(t, p.id, "x") == {a} && IdleOn(t, p.id, "y") == {b};
    assert Booked(d, p.id) == {first, second};
    forall z ensures |BookedOn(d, p.id, targetOf, z)| <= |IdleOn(t, p.id, z)| {
      assert BookedOn(d, p.id, targetOf, z) == if z == "x" then {first} else if z == "y" then {second} else {};
    }
  }

  // One delivered queued event of a pool with several targets.
  datatype Order = Order(job: nat, target: string, at: int)

  // ---- One target: exactly the shortfall is spawned -------------------------

  // One delivered queued event.
  datatype Delivery = Delivery(job: nat, at: int)

  function Jobs(pool: nat, events: seq<Delivery>): set<Booking> {
    set e | e in events :: Booking(pool, e.job)
  }

  ghost predicate InOrder(events: seq<Delivery>) {
    && (forall i, j :: 0 <= i < j < |events| ==> events[i].at <= events[j].at)
    && (events != [] ==> events[|events| - 1].at - events[0].at <= WEBHOOK_DEMAND_TTL)
  }

  lemma JobsNext(pool: nat, events: seq<Delivery>, i: nat)
    requires i < |events|
    ensures Jobs(pool, events[..i + 1]) == Jobs(pool, events[..i]) + {Booking(pool, events[i].job)}
  {
    TakeNext(events, i);
  }

  // After the first i events the distinct jobs are booked, none of them stale.
  ghost predicate AllBooked(d: Demands, pool: nat, events: seq<Delivery>, i: nat)
    requires i <= |events|
  {
    && Booked(d, pool) == Jobs(pool, events[..i])
    && forall b :: b in Booked(d, pool) ==> i > 0 && events[0].at <= d[b]
  }

  // The spawns are exactly the shortfall of the warm runners against the jobs.
  ghost predicate Shortfall(t: Table, t1: Table, pool: nat, target: string, jobs: nat, spawned: nat) {
    && spawned == Max(0, jobs - |IdleOn(t, pool, target)|)
    && |IdleOn(t1, pool, target)| == |IdleOn(t, pool, target)| + spawned
    && |RunningIn(t1, pool)| == |RunningIn(t, pool)| + spawned
    && |AllRunning(t1)| == |AllRunning(t)| + spawned
  }

  lemma JobsWithin(pool: nat, events: seq<Delivery>, n: nat)
    requires n <= |events|
    ensures |Jobs(pool, events[..n])| <= |Jobs(pool, events)|
  {
    Subsets(Jobs(pool, events[..n]), Jobs(pool, events));
  }

  lemma BookNext(d: Demands, pool: nat, events: seq<Delivery>, i: nat)
    requires i < |events| && InOrder(events) && AllBooked(d, pool, events, i)
    ensures AllBooked(MarkQueued(d, Booking(pool, events[i].job), events[i].at), pool, events, i + 1)
    ensures |Jobs(pool, events[..i])| <= |Jobs(pool, events[..i + 1])| <= |Jobs(pool, events[..i])| + 1
  {
    JobsNext(pool, events, i);
    MarkAdds(d, Booking(pool, events[i].job), events[i].at);
    Subsets(Jobs(pool, events[..i]), Jobs(pool, events[..i + 1]));
  }

  lemma ShortfallNext(t: Table, t1: Table, t2: Table, pool: nat, target: string, was: nat, jobs: nat, spawned: nat, s: Slot)
    requires Shortfall(t, t1, pool, target, was, spawned) && was <= jobs <= was + 1
    requires if jobs <= |IdleOn(t1, pool, target)| then t2 == t1 else s.pool == pool && Warmed(t1, t2, s, target)
    ensures Shortfall(t, t2, pool, target, jobs, if jobs <= |IdleOn(t1, pool, target)| then spawned else spawned + 1)
  {
    if jobs > |IdleOn(t1, pool, target)| {
      SpawnCounts(t1, s, t2[s]);
      SpawnTotals(t1, s, t2[s]);
      SpawnIdles(t1, s, t2[s], target);
    }
  }
}
