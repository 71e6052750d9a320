// Vocabulary of the pool allocator of internal/orchestrator/controller.go:
// pools, queued requests, what a step does to the engine (its events), and the
// counting facts the allocator's arithmetic rests on.
module Fleet {
  import opened Basics
  import opened Tracking

  // targets as loaded: trimmed and non-empty.  polls: the provider polls natively
  // or the pool opted into poll_fallback.  lifetime is in nanoseconds.
  datatype Pool = Pool(id: nat, name: string, minIdle: int, maxConcurrency: int, lifetime: int,
                       targets: seq<string>, polls: bool)

  datatype Request = Request(pool: nat, poolName: string, target: string)

  datatype Reason = Reap | IdleDrain | LifetimeLimit | PoolDrain | Recycle

  // The forge's answer to a deregistration; Busy is its veto.
  datatype Dereg = Done | Busy | Failed | NotAsked

  // One entry per container created or removed and per veto.  A spawn records
  // the counts and limits it was made under; a removal records the runner as the
  // step saw it, the instant, the lifetime limit it ran under (0 if none), what
  // the forge had answered, and whether the container was still tracked.  An audit
  // sees and loses containers; a removal of ours is echoed by the container's death.
  datatype Event =
    | Spawned(slot: Slot, target: string, cap: int, quota: int, before: nat, total: nat)
    | SpawnFailed(pool: nat)
    | Enqueued(req: Request)
    | Vetoed(slot: Slot)
    | Removed(slot: Slot, runner: Runner, reason: Reason, at: int, limit: int, answer: Dereg, tracked: bool)
    | Seen(slot: Slot)
    | Lost(slot: Slot)
    | Echoed(slot: Slot)

  // The spawn left room under the pool's cap and under the global quota.
  predicate Fits(e: Event) {
    e.Spawned? ==> (e.cap > 0 ==> e.before < e.cap) && (e.quota > 0 ==> e.total < e.quota)
  }

  ghost predicate AllFit(ev: seq<Event>) {
    forall e :: e in ev ==> Fits(e)
  }

  lemma FitAppend(a: seq<Event>, b: seq<Event>)
    requires AllFit(a) && AllFit(b)
    ensures AllFit(a + b)
  {
  }

  // Neither a veto nor a spawn error.
  ghost predicate Clean(ev: seq<Event>) {
    forall e :: e in ev ==> !e.Vetoed? && !e.SpawnFailed?
  }

  lemma CleanAppend(a: seq<Event>, b: seq<Event>)
    ensures Clean(a + b) <==> Clean(a) && Clean(b)
  {
    assert forall e :: e in a + b <==> e in a || e in b;
  }

  ghost predicate NoRemoval(ev: seq<Event>) {
    forall e :: e in ev ==> !e.Removed?
  }

  // ---- Counting ------------------------------------------------------------

  function RunningIn(t: Table, pool: nat): set<Slot> {
    set s | s in t && s.pool == pool && t[s].running
  }

  function IdleIn(t: Table, pool: nat): set<Slot> {
    set s | s in t && s.pool == pool && t[s].running && !t[s].busy
  }

  // Idle runners of the pool registered against one target.
  function IdleOn(t: Table, pool: nat, target: string): set<Slot> {
    set s | s in t && s.pool == pool && t[s].running && !t[s].busy && t[s].target == target
  }

  function AllRunning(t: Table): set<Slot> {
    set s | s in t && t[s].running
  }

  function QueuedFor(queue: seq<Request>, pool: nat): nat {
    if queue == [] then 0
    else QueuedFor(queue[..|queue| - 1], pool) + if queue[|queue| - 1].pool == pool then 1 else 0
  }

  lemma {:induction false} QueuedForIs(queue: seq<Request>, pool: nat)
    ensures QueuedFor(queue, pool) == |set i | 0 <= i < |queue| && queue[i].pool == pool|
  {
    if queue != [] {
      var n := |queue| - 1;
      QueuedForIs(queue[..n], pool);
      assert (set i | 0 <= i < |queue| && queue[i].pool == pool) ==
        (set i | 0 <= i < n && queue[..n][i].pool == pool) + if queue[n].pool == pool then {n} else {};
    }
  }

  function SlotsOf(pool: nat, rs: seq<Runner>): set<Slot> {
    set r | r in rs :: Slot(pool, r.id)
  }

  ghost predicate Distinct(rs: seq<Runner>) {
    forall i, j :: 0 <= i < j < |rs| ==> rs[i].id != rs[j].id
  }

  lemma {:induction false} SlotsOfCount(pool: nat, rs: seq<Runner>)
    requires Distinct(rs)
    ensures |SlotsOf(pool, rs)| == |rs|
  {
    if rs != [] {
      var before, last := rs[..|rs| - 1], rs[|rs| - 1];
      SlotsOfCount(pool, before);
      assert rs == before + [last];
      assert SlotsOf(pool, rs) == SlotsOf(pool, before) + {Slot(pool, last.id)};
      assert forall r :: r in before ==> r.id != last.id;
    }
  }

  predicate IsIdle(r: Runner) { r.running && !r.busy }

  // The idle runners of a pool in some order.
  ghost predicate IsIdleList(t: Table, pool: nat, idle: seq<Runner>) {
    && Distinct(idle) && SlotsOf(pool, idle) == IdleIn(t, pool) && |idle| == |IdleIn(t, pool)|
    && (forall r :: r in idle ==> Slot(pool, r.id) in t && t[Slot(pool, r.id)] == r)
  }

  lemma {:induction false} SelectDistinct(f: Runner -> bool, rs: seq<Runner>)
    requires Distinct(rs)
    ensures Distinct(Select(f, rs))
  {
    if rs != [] {
      SelectDistinct(f, rs[..|rs| - 1]);
      SelectMembers(f, rs[..|rs| - 1]);
      assert forall r :: r in rs[..|rs| - 1] ==> r.id != rs[|rs| - 1].id;
    }
  }

  // A snapshot's running and idle rows are the pool's running and idle runners.
  lemma SnapshotCounts(t: Table, pool: nat, rs: seq<Runner>)
    requires IsSnapshot(t, pool, rs)
    ensures |Select(IsRunning, rs)| == |RunningIn(t, pool)|
    ensures IsIdleList(t, pool, Select(IsIdle, rs))
  {
    SelectDistinct(IsRunning, rs);
    SelectDistinct(IsIdle, rs);
    SelectMembers(IsRunning, rs);
    SelectMembers(IsIdle, rs);
    SlotsOfCount(pool, Select(IsRunning, rs));
    SlotsOfCount(pool, Select(IsIdle, rs));
    SnapshotSlots(t, pool, rs, IsRunning);
    SnapshotSlots(t, pool, rs, IsIdle);
    assert SlotsOf(pool, Select(IsRunning, rs)) == RunningIn(t, pool);
    assert SlotsOf(pool, Select(IsIdle, rs)) == IdleIn(t, pool);
  }

  lemma SnapshotSlots(t: Table, pool: nat, rs: seq<Runner>, f: Runner -> bool)
    requires IsSnapshot(t, pool, rs)
    ensures forall s :: s in SlotsOf(pool, Select(f, rs)) <==> s in t && s.pool == pool && f(t[s])
  {
    SelectMembers(f, rs);
    forall s | s in t && s.pool == pool && f(t[s]) ensures s in SlotsOf(pool, Select(f, rs)) {
      var i :| 0 <= i < |rs| && rs[i].id == s.id;
      assert rs[i] in Select(f, rs);
    }
  }

  lemma Subsets<T>(a: set<T>, b: set<T>)
    requires a <= b
    ensures |a| <= |b| && |b - a| == |b| - |a|
  {
    assert b == a + (b - a);
  }

  // ---- Effects of draining and spawning on the table -----------------------

  // gone left the table; a veto may have marked survivors busy, nothing else changed.
  ghost predicate Drained(t: Table, t1: Table, gone: set<Slot>, vetoed: bool, now: int) {
    && (forall s :: s in gone ==> s in t)
    && (forall s :: s in t1 <==> s in t && s !in gone)
    && (forall s :: s in t1 ==> t1[s] == t[s] || (vetoed && t1[s] == Marked(t[s], true, now)))
  }

  lemma DrainedCounts(t: Table, t1: Table, gone: set<Slot>, vetoed: bool, now: int, pool: nat)
    requires Drained(t, t1, gone, vetoed, now) && gone <= RunningIn(t, pool)
    ensures RunningIn(t1, pool) == RunningIn(t, pool) - gone
    ensures |RunningIn(t1, pool)| == |RunningIn(t, pool)| - |gone|
    ensures IdleIn(t1, pool) <= IdleIn(t, pool) - gone
    ensures !vetoed ==> IdleIn(t1, pool) == IdleIn(t, pool) - gone
  {
    Subsets(gone, RunningIn(t, pool));
  }

  // A container created by the spawn path.
  ghost predicate Fresh(p: Pool, s: Slot, r: Runner, onDemand: bool, now: int) {
    r.id == s.id && r.pool == s.pool == p.id && r.poolName == p.name && r.running && !r.busy && r.busySince == 0 &&
    r.onDemand == onDemand && r.spawnedAt == now
  }

  // t1 is t plus some newly created containers of one pool.
  ghost predicate Grown(t: Table, t1: Table, p: Pool, onDemand: bool, now: int) {
    && t.Keys <= t1.Keys && (forall s :: s in t ==> t1[s] == t[s])
    && (forall s :: s in t1 && s !in t ==> Fresh(p, s, t1[s], onDemand, now))
  }

  lemma SpawnCounts(t: Table, s: Slot, r: Runner)
    requires s !in t && r.running
    ensures |RunningIn(t[s := r], s.pool)| == |RunningIn(t, s.pool)| + 1
  {
    assert RunningIn(t[s := r], s.pool) == RunningIn(t, s.pool) + {s};
  }

  lemma SpawnTotals(t: Table, s: Slot, r: Runner)
    requires s !in t && r.running
    ensures |AllRunning(t[s := r])| == |AllRunning(t)| + 1
  {
    assert AllRunning(t[s := r]) == AllRunning(t) + {s};
  }

  lemma SpawnIdles(t: Table, s: Slot, r: Runner, x: string)
    requires s !in t && r.running && !r.busy
    ensures |IdleOn(t[s := r], s.pool, x)| == |IdleOn(t, s.pool, x)| + if r.target == x then 1 else 0
  {
    if r.target == x {
      assert IdleOn(t[s := r], s.pool, x) == IdleOn(t, s.pool, x) + {s};
    } else {
      assert IdleOn(t[s := r], s.pool, x) == IdleOn(t, s.pool, x);
    }
  }

  // ---- The target of a cycle -----------------------------------------------

  function Capped(p: Pool, n: int): int {
    if p.maxConcurrency > 0 && n > p.maxConcurrency then p.maxConcurrency else n
  }

  // min_idle counts idle standbys, so busy runners raise the total; polled demand
  // that idle runners cannot cover raises it further.
  function Target(p: Pool, active: int, idle: int, deficit: int): int {
    Capped(p, if deficit > 0 then Max(p.minIdle + active - idle, active + deficit) else p.minIdle + active - idle)
  }

  predicate InGrace(r: Runner, grace: int, now: int) {
    r.onDemand && r.spawnedAt != 0 && now - r.spawnedAt < grace
  }

  // A scale-to-zero pool keeps an idle runner only while its on-demand grace
  // lasts (or its age is unknown).
  predicate StaleAtZero(r: Runner, grace: int, now: int) {
    !r.onDemand || (r.spawnedAt != 0 && now - r.spawnedAt >= grace)
  }

  // The second drain branch has nothing to do.
  ghost predicate DownToTarget(p: Pool, t: Table, target: int, grace: int, now: int) {
    && (p.minIdle == 0 ==> forall s :: s in IdleIn(t, p.id) ==> !StaleAtZero(t[s], grace, now))
    && (p.minIdle != 0 && |IdleIn(t, p.id)| > target ==> forall s :: s in IdleIn(t, p.id) ==> InGrace(t[s], grace, now))
  }

  // No idle runner a cycle with this target would drain.
  ghost predicate NothingToDrain(p: Pool, t: Table, target: int, grace: int, now: int) {
    && (0 < p.maxConcurrency < |RunningIn(t, p.id)| ==> IdleIn(t, p.id) == {})
    && DownToTarget(p, t, target, grace, now)
  }

  // n runners and requests are what was wanted, or as many as the cap admits.
  predicate Meets(p: Pool, n: int, want: int) {
    n >= want || 0 < p.maxConcurrency <= n
  }

  // The least number that meets both min_idle on top of the busy runners and, if
  // there is one, the uncovered demand on top of all runners.
  lemma TargetMeets(p: Pool, active: int, idle: int, deficit: int)
    ensures var n := Target(p, active, idle, deficit);
      Meets(p, n, p.minIdle + active - idle) && (deficit > 0 ==> Meets(p, n, active + deficit)) &&
      (p.maxConcurrency > 0 ==> n <= p.maxConcurrency) &&
      (n <= p.minIdle + active - idle || (deficit > 0 && n <= active + deficit))
  {
  }

  // Nothing left for a cycle to do in a pool without polled demand: enough runners
  // and requests; above its cap or with more idle than wanted only what may not be
  // drained, on-demand runners younger than the grace period.
  ghost predicate Settled(p: Pool, t: Table, queue: seq<Request>, grace: int, now: int) {
    var active, idle := |RunningIn(t, p.id)|, |IdleIn(t, p.id)|;
    && Meets(p, active + QueuedFor(queue, p.id), p.minIdle + active - idle)
    && (0 < p.maxConcurrency < active ==> idle == 0)
    && (p.minIdle == 0 ==>
          forall s :: s in IdleIn(t, p.id) ==> t[s].onDemand && (t[s].spawnedAt == 0 || now - t[s].spawnedAt < grace))
    && (p.minIdle != 0 && (idle > p.minIdle + active - idle || 0 < p.maxConcurrency < idle) ==>
          forall s :: s in IdleIn(t, p.id) ==> t[s].onDemand && t[s].spawnedAt != 0 && now - t[s].spawnedAt < grace)
  }

  lemma SettledIs(p: Pool, t: Table, queue: seq<Request>, grace: int, now: int)
    ensures var target := Target(p, |RunningIn(t, p.id)|, |IdleIn(t, p.id)|, 0);
      Settled(p, t, queue, grace, now) <==>
      NothingToDrain(p, t, target, grace, now) && target <= |RunningIn(t, p.id)| + QueuedFor(queue, p.id)
  {
  }

  // ---- Polled demand -------------------------------------------------------

  function Demand(polled: map<string, nat>, target: string): nat {
    if target in polled then polled[target] else 0
  }

  function Repeat(target: string, n: int): seq<string> {
    if n <= 0 then [] else Repeat(target, n - 1) + [target]
  }

  // One entry per polled job no idle runner of its target covers, in target order.
  function DemandQueue(targets: seq<string>, polled: map<string, nat>, t: Table, pool: nat): seq<string> {
    if targets == [] then []
    else
      var last := targets[|targets| - 1];
      DemandQueue(targets[..|targets| - 1], polled, t, pool) +
      Repeat(last, Demand(polled, last) - |IdleOn(t, pool, last)|)
  }

  // The forge's answers per target; a target it cannot answer for has no demand.
  function Polled(targets: seq<string>, answers: seq<Option<nat>>): map<string, nat>
    requires |targets| == |answers|
  {
    if targets == [] then map[]
    else
      var n := |targets| - 1;
      var before := Polled(targets[..n], answers[..n]);
      if answers[n].Some? then before[targets[n] := answers[n].value] else before
  }

  // The i-th target's answer, unless a later entry of the same target was answered.
  predicate LastAnswer(targets: seq<string>, answers: seq<Option<nat>>, i: int)
    requires |targets| == |answers|
  {
    0 <= i < |targets| && answers[i].Some? && forall j :: i < j < |targets| && targets[j] == targets[i] ==> answers[j].None?
  }

  lemma {:induction false} PolledIs(targets: seq<string>, answers: seq<Option<nat>>)
    requires |targets| == |answers|
    ensures forall i :: LastAnswer(targets, answers, i) ==>
      targets[i] in Polled(targets, answers) && Polled(targets, answers)[targets[i]] == answers[i].value
    ensures forall x :: x in Polled(targets, answers) ==> exists i :: LastAnswer(targets, answers, i) && targets[i] == x
  {
    if targets != [] {
      var n := |targets| - 1;
      PolledIs(targets[..n], answers[..n]);
      forall i | LastAnswer(targets, answers, i)
        ensures targets[i] in Polled(targets, answers) && Polled(targets, answers)[targets[i]] == answers[i].value
      {
        if i < n { assert LastAnswer(targets[..n], answers[..n], i); }
      }
      forall x | x in Polled(targets, answers) ensures exists i :: LastAnswer(targets, answers, i) && targets[i] == x {
        if answers[n].Some? && x == targets[n] {
          assert LastAnswer(targets, answers, n);
        } else {
          var i :| LastAnswer(targets[..n], answers[..n], i) && targets[..n][i] == x;
          assert LastAnswer(targets, answers, i);
        }
      }
    }
  }

  function CountOn(idle: seq<Runner>, target: string): nat {
    if idle == [] then 0
    else CountOn(idle[..|idle| - 1], target) + if idle[|idle| - 1].target == target then 1 else 0
  }

  function SlotsFor(pool: nat, idle: seq<Runner>, target: string): set<Slot> {
    set r | r in idle && r.target == target :: Slot(pool, r.id)
  }

  lemma SlotsForSnoc(pool: nat, idle: seq<Runner>, r: Runner, target: string)
    ensures SlotsFor(pool, idle + [r], target) == SlotsFor(pool, idle, target) + if r.target == target then {Slot(pool, r.id)} else {}
  {
  }

  lemma {:induction false} CountOnIs(idle: seq<Runner>, pool: nat, target: string)
    requires Distinct(idle)
    ensures CountOn(idle, target) == |SlotsFor(pool, idle, target)|
  {
    if idle != [] {
      var before, last := idle[..|idle| - 1], idle[|idle| - 1];
      CountOnIs(before, pool, target);
      assert idle == before + [last];
      assert forall r :: r in before ==> r.id != last.id;
      SlotsForSnoc(pool, before, last, target);
    }
  }

  lemma CountOnIdle(t: Table, pool: nat, idle: seq<Runner>, target: string)
    requires IsIdleList(t, pool, idle)
    ensures CountOn(idle, target) == |IdleOn(t, pool, target)|
  {
    CountOnIs(idle, pool, target);
    forall s ensures s in IdleOn(t, pool, target) <==> s in SlotsFor(pool, idle, target) {
      assert s in SlotsOf(pool, idle) <==> s in IdleIn(t, pool);
      assert forall r :: r in idle ==> Slot(pool, r.id) in SlotsOf(pool, idle);
    }
    assert IdleOn(t, pool, target) == SlotsFor(pool, idle, target);
  }

  lemma {:induction false} RepeatCount(target: string, n: int)
    ensures |Repeat(target, n)| == Max(n, 0) && multiset(Repeat(target, n))[target] == Max(n, 0)
  {
    if n > 0 { RepeatCount(target, n - 1); }
  }

  lemma {:induction false} DemandQueueCovers(targets: seq<string>, polled: map<string, nat>, t: Table, pool: nat, x: string)
    requires x in targets
    ensures |IdleOn(t, pool, x)| + multiset(DemandQueue(targets, polled, t, pool))[x] >= Demand(polled, x)
  {
    var last := targets[|targets| - 1];
    RepeatCount(last, Demand(polled, last) - |IdleOn(t, pool, last)|);
    if x != last {
      assert x in targets[..|targets| - 1];
      DemandQueueCovers(targets[..|targets| - 1], polled, t, pool, x);
    }
  }

  // k for each listing of x.
  function Share(targets: seq<string>, x: string, k: nat): nat {
    if targets == [] then 0 else Share(targets[..|targets| - 1], x, k) + if targets[|targets| - 1] == x then k else 0
  }

  lemma {:induction false} ShareIs(targets: seq<string>, x: string, k: nat)
    ensures Share(targets, x, k) == multiset(targets)[x] * k
  {
    if targets != [] {
      var before, last := targets[..|targets| - 1], targets[|targets| - 1];
      ShareIs(before, x, k);
      OnceMore(before, last, x, k);
      assert targets == before + [last];
    }
  }

  lemma ShareNext(dq: seq<string>, last: string, n: int, x: string, share: nat, k: nat)
    requires multiset(dq)[x] == share && (x == last ==> k == Max(0, n))
    ensures multiset(dq + Repeat(last, n))[x] == share + if last == x then k else 0
  {
    CountBoth(dq, Repeat(last, n), x);
    RepeatOnly(last, n, x);
  }

  lemma {:induction false} DemandShare(targets: seq<string>, polled: map<string, nat>, t: Table, pool: nat, x: string, k: nat)
    requires k == Max(0, Demand(polled, x) - |IdleOn(t, pool, x)|)
    ensures multiset(DemandQueue(targets, polled, t, pool))[x] == Share(targets, x, k)
  {
    if targets != [] {
      var before, last := targets[..|targets| - 1], targets[|targets| - 1];
      DemandShare(before, polled, t, pool, x, k);
      ShareNext(DemandQueue(before, polled, t, pool), last, Demand(polled, last) - |IdleOn(t, pool, last)|, x, Share(before, x, k), k);
    }
  }

  // Exactly the shortfall of each target is queued, once per listing of the target.
  lemma DemandQueueIs(targets: seq<string>, polled: map<string, nat>, t: Table, pool: nat, x: string)
    ensures multiset(DemandQueue(targets, polled, t, pool))[x] ==
      multiset(targets)[x] * Max(0, Demand(polled, x) - |IdleOn(t, pool, x)|)
  {
    var k := Max(0, Demand(polled, x) - |IdleOn(t, pool, x)|);
    DemandShare(targets, polled, t, pool, x, k);
    ShareIs(targets, x, k);
  }

  lemma CountBoth(a: seq<string>, b: seq<string>, x: string)
    ensures multiset(a + b)[x] == multiset(a)[x] + multiset(b)[x]
  {
  }

  lemma OnceMore(before: seq<string>, last: string, x: string, k: nat)
    ensures multiset(before + [last])[x] * k == multiset(before)[x] * k + if x == last then k else 0
  {
    var n := multiset(before)[x];
    assert (n + 1) * k == n * k + k;
  }

  lemma {:induction false} RepeatOnly(target: string, n: int, x: string)
    ensures multiset(Repeat(target, n))[x] == if x == target then Max(n, 0) else 0
  {
    if n > 0 { RepeatOnly(target, n - 1, x); }
  }

  // ---- Draining a list of idle runners -------------------------------------

  // e removes or spares one of the listed idle runners of the pool.
  ghost predicate DrainEvent(pool: nat, idle: seq<Runner>, gone: set<Slot>, vetoed: set<Slot>, reason: Reason, e: Event, now: int) {
    || (e.Vetoed? && e.slot in SlotsOf(pool, idle) && e.slot in vetoed)
    || (e.Removed? && e.slot in gone && e.runner in idle && e.slot == Slot(pool, e.runner.id) &&
        e.reason == reason && e.at == now && e.limit == 0 && e.answer != Busy)
  }

  // The bookkeeping of a walk over a list of idle runners: the removed ones, the
  // ones the forge vetoed and how often it did, one event per attempt, and the reason
  // on record.
  datatype Walk = Walk(gone: set<Slot>, vetoed: set<Slot>, vetoes: nat, ev: seq<Event>, reason: Reason)

  const START := Walk({}, {}, 0, [], IdleDrain)

  // Walking over the list took the table from t to t1.
  ghost predicate DrainWalk(t: Table, t1: Table, pool: nat, idle: seq<Runner>, w: Walk, now: int) {
    && (forall s :: s in w.gone ==> s in SlotsOf(pool, idle))
    && Drained(t, t1, w.gone, w.vetoes > 0, now)
    && (forall e :: e in w.ev ==> DrainEvent(pool, idle, w.gone, w.vetoed, w.reason, e, now))
    && |w.ev| == |w.gone| + w.vetoes && (w.vetoes > 0 ==> exists s :: Vetoed(s) in w.ev)
  }

  ghost predicate Listed(t: Table, pool: nat, idle: seq<Runner>) {
    Distinct(idle) && SlotsOf(pool, idle) <= t.Keys
  }

  lemma SlotsSnoc(pool: nat, rs: seq<Runner>, r: Runner)
    ensures SlotsOf(pool, rs + [r]) == SlotsOf(pool, rs) + {Slot(pool, r.id)}
  {
  }

  lemma DrainGone(t: Table, t1: Table, t2: Table, pool: nat, idle: seq<Runner>, r: Runner, w: Walk,
                  reason: Reason, answer: Dereg, more: seq<Event>, now: int)
    requires DrainWalk(t, t1, pool, idle, w, now) && reason == w.reason && answer != Busy
    requires r in idle && Slot(pool, r.id) in t && Slot(pool, r.id) !in w.gone
    requires t2 == t1 - {Slot(pool, r.id)} && more == [Removed(Slot(pool, r.id), r, reason, now, 0, answer, true)]
    ensures DrainWalk(t, t2, pool, idle, Walk(w.gone + {Slot(pool, r.id)}, w.vetoed, w.vetoes, w.ev + more, w.reason), now)
    ensures |w.gone + {Slot(pool, r.id)}| == |w.gone| + 1
  {
    var slot := Slot(pool, r.id);
    if w.vetoes > 0 { var s :| Vetoed(s) in w.ev; assert Vetoed(s) in w.ev + more; }
    forall e | e in w.ev + more ensures DrainEvent(pool, idle, w.gone + {slot}, w.vetoed, w.reason, e, now) {
      if e in w.ev { assert DrainEvent(pool, idle, w.gone, w.vetoed, w.reason, e, now); }
    }
  }

  lemma DrainVeto(t: Table, t1: Table, t2: Table, pool: nat, idle: seq<Runner>, r: Runner, w: Walk, more: seq<Event>, now: int)
    requires DrainWalk(t, t1, pool, idle, w, now) && r in idle
    requires Drained(t1, t2, {}, true, now) && more == [Vetoed(Slot(pool, r.id))]
    ensures DrainWalk(t, t2, pool, idle, Walk(w.gone, w.vetoed + {Slot(pool, r.id)}, w.vetoes + 1, w.ev + more, w.reason), now)
  {
    assert Vetoed(Slot(pool, r.id)) in w.ev + more;
    forall e | e in w.ev + more ensures DrainEvent(pool, idle, w.gone, w.vetoed + {Slot(pool, r.id)}, w.reason, e, now) {
      if e in w.ev { assert DrainEvent(pool, idle, w.gone, w.vetoed, w.reason, e, now); }
    }
  }

  // The listed runners that were not drained, in order.
  ghost function Undrained(pool: nat, idle: seq<Runner>, gone: set<Slot>): seq<Runner> {
    if idle == [] then []
    else
      Undrained(pool, idle[..|idle| - 1], gone) +
      if Slot(pool, idle[|idle| - 1].id) in gone then [] else [idle[|idle| - 1]]
  }

  lemma {:induction false} UndrainedSame(pool: nat, idle: seq<Runner>, gone: set<Slot>, s: Slot)
    requires s !in SlotsOf(pool, idle)
    ensures Undrained(pool, idle, gone + {s}) == Undrained(pool, idle, gone)
  {
    if idle != [] {
      var before, last := idle[..|idle| - 1], idle[|idle| - 1];
      assert idle == before + [last];
      SlotsSnoc(pool, before, last);
      UndrainedSame(pool, before, gone, s);
    }
  }

  lemma UndrainedNext(pool: nat, idle: seq<Runner>, i: nat, was: set<Slot>, gone: set<Slot>, done: bool)
    requires Distinct(idle) && i < |idle| && Untouched(pool, idle, i, was)
    requires gone == if done then was + {Slot(pool, idle[i].id)} else was
    ensures Untouched(pool, idle, i + 1, gone)
    ensures Undrained(pool, idle[..i + 1], gone) == Undrained(pool, idle[..i], was) + if done then [] else [idle[i]]
  {
    assert idle[..i + 1][..i] == idle[..i];
    assert forall r :: r in idle[..i] ==> r.id != idle[i].id;
    UndrainedSame(pool, idle[..i], was, Slot(pool, idle[i].id));
  }

  lemma {:induction false} UndrainedNone(pool: nat, idle: seq<Runner>)
    ensures Undrained(pool, idle, {}) == idle
  {
    if idle != [] {
      var before := idle[..|idle| - 1];
      UndrainedNone(pool, before);
      assert idle == before + [idle[|idle| - 1]];
    }
  }

  lemma {:induction false} UndrainedSlots(pool: nat, idle: seq<Runner>, gone: set<Slot>)
    ensures SlotsOf(pool, Undrained(pool, idle, gone)) == SlotsOf(pool, idle) - gone
  {
    if idle != [] {
      var before, last := idle[..|idle| - 1], idle[|idle| - 1];
      UndrainedSlots(pool, before, gone);
      assert idle == before + [last];
      SlotsSnoc(pool, before, last);
      SlotsSnoc(pool, Undrained(pool, before, gone), last);
      assert (SlotsOf(pool, before) + {Slot(pool, last.id)}) - gone ==
        (SlotsOf(pool, before) - gone) + if Slot(pool, last.id) in gone then {} else {Slot(pool, last.id)};
    }
  }

  lemma {:induction false} UndrainedDistinct(pool: nat, idle: seq<Runner>, gone: set<Slot>)
    requires Distinct(idle)
    ensures Distinct(Undrained(pool, idle, gone))
    ensures forall r :: r in Undrained(pool, idle, gone) ==> r in idle
  {
    if idle != [] {
      var before, last := idle[..|idle| - 1], idle[|idle| - 1];
      UndrainedDistinct(pool, before, gone);
      assert idle == before + [last];
      assert forall r :: r in before ==> r.id != last.id;
    }
  }

  ghost predicate Untouched(pool: nat, idle: seq<Runner>, n: nat, gone: set<Slot>)
    requires n <= |idle|
  {
    forall j :: n <= j < |idle| ==> Slot(pool, idle[j].id) !in gone
  }

  lemma UntouchedNext(pool: nat, idle: seq<Runner>, i: nat, was: set<Slot>, gone: set<Slot>)
    requires Distinct(idle) && i < |idle| && Untouched(pool, idle, i, was)
    requires gone == was || gone == was + {Slot(pool, idle[i].id)}
    ensures Untouched(pool, idle, i + 1, gone)
  {
  }

  lemma FlagsAt(idle: seq<Runner>, grace: int, now: int, j: nat)
    requires j < |idle|
    ensures StaleFlags(idle, grace, now)[j] == StaleAtZero(idle[j], grace, now)
    ensures SettledFlags(idle, grace, now)[j] == !InGrace(idle[j], grace, now)
  {
  }

  function StaleFlags(idle: seq<Runner>, grace: int, now: int): seq<bool> {
    seq(|idle|, i requires 0 <= i < |idle| => StaleAtZero(idle[i], grace, now))
  }

  function SettledFlags(idle: seq<Runner>, grace: int, now: int): seq<bool> {
    seq(|idle|, i requires 0 <= i < |idle| => !InGrace(idle[i], grace, now))
  }

  // Of the first n listed runners exactly the unwanted ones are gone, as far as
  // the forge allowed; the rest has not been looked at.
  ghost predicate Sorted(pool: nat, idle: seq<Runner>, unwanted: seq<bool>, n: nat, w: Walk)
    requires |unwanted| == |idle| && n <= |idle|
  {
    && Untouched(pool, idle, n, w.gone)
    && (forall j :: 0 <= j < n && Slot(pool, idle[j].id) in w.gone ==> unwanted[j])
    && (w.vetoes == 0 ==> forall j :: 0 <= j < n && unwanted[j] ==> Slot(pool, idle[j].id) in w.gone)
  }

  lemma SortedNext(pool: nat, idle: seq<Runner>, unwanted: seq<bool>, i: nat, w: Walk, w1: Walk)
    requires |unwanted| == |idle| && i < |idle| && Distinct(idle) && Sorted(pool, idle, unwanted, i, w)
    requires (w1.gone == w.gone && (w1.vetoes > 0 || (w1 == w && !unwanted[i]))) ||
             (unwanted[i] && w1.gone == w.gone + {Slot(pool, idle[i].id)} && w1.vetoes == w.vetoes)
    ensures Sorted(pool, idle, unwanted, i + 1, w1)
  {
  }

  // The first n listed runners are parted into the drained ones and left.
  ghost predicate Parted(pool: nat, idle: seq<Runner>, n: nat, left: seq<Runner>, w: Walk)
    requires n <= |idle|
  {
    Untouched(pool, idle, n, w.gone) && left == Undrained(pool, idle[..n], w.gone) && |left| + |w.gone| == n
  }

  // What was drained of the excess; below it, every runner so far was tried.
  ghost predicate Tally(drained: int, excess: int, n: int, w: Walk) {
    drained == |w.gone| <= excess && (drained < excess ==> drained + w.vetoes == n)
  }

  lemma PartedNext(pool: nat, idle: seq<Runner>, i: nat, left: seq<Runner>, w: Walk, w1: Walk, done: bool)
    requires Distinct(idle) && i < |idle| && Parted(pool, idle, i, left, w)
    requires w1.gone == if done then w.gone + {Slot(pool, idle[i].id)} else w.gone
    requires |w1.gone| == |w.gone| + if done then 1 else 0
    ensures Parted(pool, idle, i + 1, if done then left else left + [idle[i]], w1)
  {
    UndrainedNext(pool, idle, i, w.gone, w1.gone, done);
  }

  // ---- What a walk can do --------------------------------------------------

  // What became of the runners a walk asked the forge about.
  datatype Drive = Drive(gone: set<Slot>, vetoed: set<Slot>)

  const UNTRIED := Drive({}, {})

  // Of the first m listed runners each wanted one was asked about once: it is gone
  // or was vetoed, not both.  Nobody else was asked about.
  ghost predicate Asked(pool: nat, idle: seq<Runner>, wanted: seq<bool>, m: nat, d: Drive)
    requires m <= |idle| == |wanted|
  {
    && (forall s :: s in d.gone || s in d.vetoed ==> s in SlotsOf(pool, idle))
    && (forall j :: 0 <= j < m && wanted[j] ==> (Slot(pool, idle[j].id) in d.gone <==> Slot(pool, idle[j].id) !in d.vetoed))
    && (forall j :: 0 <= j < |idle| && (j >= m || !wanted[j]) ==>
          Slot(pool, idle[j].id) !in d.gone && Slot(pool, idle[j].id) !in d.vetoed)
  }

  // The last of the first n listed runners is gone.
  ghost predicate LastGone(pool: nat, idle: seq<Runner>, n: nat, gone: set<Slot>) {
    forall j :: 0 <= j < |idle| && j + 1 == n ==> Slot(pool, idle[j].id) in gone
  }

  // Asking stops with the removal that makes it limit ones, and not before.
  ghost predicate Stops(pool: nat, idle: seq<Runner>, limit: nat, m: nat, n: nat, gone: set<Slot>)
    requires m <= n <= |idle|
  {
    && |gone| <= limit && (m < n ==> |gone| == limit)
    && (|gone| == limit ==> LastGone(pool, idle, m, gone))
  }

  // What a walk over the whole list may come to, whatever the forge answers.
  ghost predicate CanDrive(pool: nat, idle: seq<Runner>, wanted: seq<bool>, limit: nat, d: Drive)
    requires |wanted| == |idle|
  {
    exists m :: 0 <= m <= |idle| && Asked(pool, idle, wanted, m, d) && Stops(pool, idle, limit, m, |idle|, d.gone)
  }

  lemma AskedNext(pool: nat, idle: seq<Runner>, wanted: seq<bool>, i: nat, d: Drive, d1: Drive)
    requires i < |idle| == |wanted| && Distinct(idle) && Asked(pool, idle, wanted, i, d)
    requires var s := Slot(pool, idle[i].id);
      if !wanted[i] then d1 == d
      else (d1.gone == d.gone && d1.vetoed == d.vetoed + {s}) || (d1.gone == d.gone + {s} && d1.vetoed == d.vetoed)
    ensures Asked(pool, idle, wanted, i + 1, d1)
  {
    assert idle[i] in idle;
  }

  // A runner is asked about once: no vetoed one is removed.
  lemma AskedOnce(pool: nat, idle: seq<Runner>, wanted: seq<bool>, m: nat, d: Drive)
    requires m <= |idle| == |wanted| && Asked(pool, idle, wanted, m, d)
    ensures d.gone !! d.vetoed && d.gone <= SlotsOf(pool, idle) && d.vetoed <= SlotsOf(pool, idle)
  {
    forall s | s in d.gone ensures s !in d.vetoed {
      var r :| r in idle && s == Slot(pool, r.id);
      var j :| 0 <= j < |idle| && idle[j] == r;
    }
  }

  function AllFlags(idle: seq<Runner>): seq<bool> {
    seq(|idle|, i => true)
  }

  predicate NoneWanted(flags: seq<bool>) {
    forall j :: 0 <= j < |flags| ==> !flags[j]
  }

  // Asking everybody.
  ghost predicate AskedAll(pool: nat, idle: seq<Runner>, m: nat, d: Drive)
    requires m <= |idle|
  {
    && (forall s :: s in d.gone || s in d.vetoed ==> s in SlotsOf(pool, idle))
    && (forall j :: 0 <= j < m ==> (Slot(pool, idle[j].id) in d.gone <==> Slot(pool, idle[j].id) !in d.vetoed))
    && (forall j :: m <= j < |idle| ==> Slot(pool, idle[j].id) !in d.gone && Slot(pool, idle[j].id) !in d.vetoed)
  }

  lemma AskedAllIs(pool: nat, idle: seq<Runner>, m: nat, d: Drive)
    requires m <= |idle|
    ensures AskedAll(pool, idle, m, d) <==> Asked(pool, idle, AllFlags(idle), m, d)
  {
  }

  lemma AskedAllNext(pool: nat, idle: seq<Runner>, i: nat, d: Drive, d1: Drive)
    requires i < |idle| && Distinct(idle) && AskedAll(pool, idle, i, d)
    requires var s := Slot(pool, idle[i].id);
      (d1.gone == d.gone && d1.vetoed == d.vetoed + {s}) || (d1.gone == d.gone + {s} && d1.vetoed == d.vetoed)
    ensures AskedAll(pool, idle, i + 1, d1)
  {
    assert idle[i] in idle;
  }

  // The first branch after n runners, m of which it asked about.
  ghost predicate CapWalk(pool: nat, idle: seq<Runner>, m: nat, n: nat, drained: int, excess: nat, left: seq<Runner>, w: Walk)
    requires n <= |idle|
  {
    && m <= n && w.reason == IdleDrain
    && Parted(pool, idle, n, left, w) && Tally(drained, excess, n, w)
    && AskedAll(pool, idle, m, Drive(w.gone, w.vetoed)) && Stops(pool, idle, excess, m, n, w.gone)
  }

  lemma StartWalk(t: Table, pool: nat, idle: seq<Runner>, excess: nat, now: int)
    ensures DrainWalk(t, t, pool, idle, START, now) && CapWalk(pool, idle, 0, 0, 0, excess, [], START)
  {
  }

  lemma CapWalkNext(pool: nat, idle: seq<Runner>, m: nat, i: nat, drained: nat, excess: nat, left: seq<Runner>,
                    w: Walk, w1: Walk, done: bool)
    requires Distinct(idle) && i < |idle| && CapWalk(pool, idle, m, i, drained, excess, left, w) && (done ==> drained < excess)
    requires w1.gone == (if done then w.gone + {Slot(pool, idle[i].id)} else w.gone)
    requires |w1.gone| == |w.gone| + if done then 1 else 0
    requires w1.reason == w.reason
    requires if drained < excess && !done then w1.vetoed == w.vetoed + {Slot(pool, idle[i].id)} && w1.vetoes == w.vetoes + 1
             else w1.vetoed == w.vetoed && w1.vetoes == w.vetoes
    ensures CapWalk(pool, idle, if drained < excess then i + 1 else m, i + 1, if done then drained + 1 else drained, excess,
                    if done then left else left + [idle[i]], w1)
  {
    PartedNext(pool, idle, i, left, w, w1, done);
    if drained < excess { AskedAllNext(pool, idle, i, Drive(w.gone, w.vetoed), Drive(w1.gone, w1.vetoed)); }
  }

  // Asking about everybody: each of the first n was removed or vetoed.
  ghost predicate Tried(pool: nat, idle: seq<Runner>, n: nat, w: Walk)
    requires n <= |idle|
  {
    && |w.gone| + w.vetoes == n && AskedAll(pool, idle, n, Drive(w.gone, w.vetoed))
  }

  lemma TriedNext(pool: nat, idle: seq<Runner>, i: nat, w: Walk, w1: Walk)
    requires Distinct(idle) && i < |idle| && Tried(pool, idle, i, w) && |w1.gone| + w1.vetoes == i + 1
    requires var s := Slot(pool, idle[i].id);
      (w1.gone == w.gone && w1.vetoed == w.vetoed + {s}) || (w1.gone == w.gone + {s} && w1.vetoed == w.vetoed)
    ensures Tried(pool, idle, i + 1, w1)
  {
    AskedAllNext(pool, idle, i, Drive(w.gone, w.vetoed), Drive(w1.gone, w1.vetoed));
  }

  lemma TriedAll(t: Table, pool: nat, idle: seq<Runner>, w: Walk)
    requires IsIdleList(t, pool, idle) && Tried(pool, idle, |idle|, w)
    ensures |w.gone| + w.vetoes == |idle| && w.gone !! w.vetoed && w.gone + w.vetoed == IdleIn(t, pool)
  {
    AskedAllIs(pool, idle, |idle|, Drive(w.gone, w.vetoed));
    AskedOnce(pool, idle, AllFlags(idle), |idle|, Drive(w.gone, w.vetoed));
    forall s | s in SlotsOf(pool, idle) ensures s in w.gone || s in w.vetoed {
      var r :| r in idle && s == Slot(pool, r.id);
      var j :| 0 <= j < |idle| && idle[j] == r;
    }
  }

  // The second branch after n runners.
  ghost predicate TargetWalk(pool: nat, idle: seq<Runner>, unwanted: seq<bool>, limit: nat, n: nat, w: Walk)
    requires n <= |idle|
  {
    && |unwanted| == |idle| && Sorted(pool, idle, unwanted, n, w) && w.reason == IdleDrain
    && Asked(pool, idle, unwanted, n, Drive(w.gone, w.vetoed))
    && |w.gone| <= limit && (|w.gone| == limit ==> LastGone(pool, idle, n, w.gone))
  }

  lemma StartTarget(t: Table, pool: nat, idle: seq<Runner>, unwanted: seq<bool>, limit: nat, now: int)
    requires |unwanted| == |idle|
    ensures DrainWalk(t, t, pool, idle, START, now) && TargetWalk(pool, idle, unwanted, limit, 0, START)
  {
  }

  lemma TargetWalkNext(pool: nat, idle: seq<Runner>, unwanted: seq<bool>, limit: nat, i: nat, w: Walk, w1: Walk)
    requires Distinct(idle) && i < |idle| && TargetWalk(pool, idle, unwanted, limit, i, w) && |w.gone| < limit
    requires w1.reason == w.reason
    requires |w1.gone| == |w.gone| || (|w1.gone| == |w.gone| + 1 && w1.gone == w.gone + {Slot(pool, idle[i].id)})
    requires if !unwanted[i] then w1 == w
      else (w1.gone == w.gone && w1.vetoed == w.vetoed + {Slot(pool, idle[i].id)} && w1.vetoes == w.vetoes + 1) ||
           (w1.gone == w.gone + {Slot(pool, idle[i].id)} && w1.vetoed == w.vetoed && w1.vetoes == w.vetoes)
    ensures TargetWalk(pool, idle, unwanted, limit, i + 1, w1)
  {
    SortedNext(pool, idle, unwanted, i, w, w1);
    AskedNext(pool, idle, unwanted, i, Drive(w.gone, w.vetoed), Drive(w1.gone, w1.vetoed));
  }

  // The first branch asks about anyone while the pool is above its cap, ...
  ghost predicate CapDrive(p: Pool, active: nat, idle: seq<Runner>, d: Drive) {
    if 0 < p.maxConcurrency < active then CanDrive(p.id, idle, AllFlags(idle), active - p.maxConcurrency, d) else d == UNTRIED
  }

  // ... the second about stale standbys or settled runners beyond the target.
  ghost predicate TargetDrive(p: Pool, rest: seq<Runner>, target: int, d: Drive, grace: int, now: int) {
    if p.minIdle == 0 then CanDrive(p.id, rest, StaleFlags(rest, grace, now), |rest|, d)
    else if |rest| > target then CanDrive(p.id, rest, SettledFlags(rest, grace, now), |rest| - target, d)
    else d == UNTRIED
  }

  // ---- Both drain branches together ----------------------------------------

  function Both(a: Walk, b: Walk): Walk {
    Walk(a.gone + b.gone, a.vetoed + b.vetoed, a.vetoes + b.vetoes, a.ev + b.ev, a.reason)
  }

  lemma IdleListed(t: Table, pool: nat, idle: seq<Runner>)
    requires IsIdleList(t, pool, idle)
    ensures Listed(t, pool, idle)
    ensures |IdleIn(t, pool)| <= |RunningIn(t, pool)|
  {
    Subsets(IdleIn(t, pool), RunningIn(t, pool));
  }

  // What the first branch leaves is a list of present runners again.
  lemma RestListed(t: Table, t1: Table, pool: nat, idle: seq<Runner>, rest: seq<Runner>, w: Walk, now: int)
    requires Listed(t, pool, idle) && DrainWalk(t, t1, pool, idle, w, now) && Parted(pool, idle, |idle|, rest, w)
    ensures Listed(t1, pool, rest) && SlotsOf(pool, rest) == SlotsOf(pool, idle) - w.gone
    ensures forall r :: r in rest ==> r in idle
  {
    assert idle[..|idle|] == idle;
    UndrainedSlots(pool, idle, w.gone);
    UndrainedDistinct(pool, idle, w.gone);
  }

  lemma WalkTwice(t: Table, t1: Table, t2: Table, pool: nat, idle: seq<Runner>, rest: seq<Runner>, a: Walk, b: Walk, now: int)
    requires DrainWalk(t, t1, pool, idle, a, now) && DrainWalk(t1, t2, pool, rest, b, now)
    requires SlotsOf(pool, rest) <= SlotsOf(pool, idle) && (forall r :: r in rest ==> r in idle) && a.reason == b.reason
    ensures DrainWalk(t, t2, pool, idle, Both(a, b), now)
    ensures |Both(a, b).gone| == |a.gone| + |b.gone|
  {
    assert a.gone !! b.gone;
    assert |a.gone + b.gone| == |a.gone| + |b.gone|;
    if a.vetoes > 0 { var s :| Vetoed(s) in a.ev; assert Vetoed(s) in a.ev + b.ev; }
    if b.vetoes > 0 { var s :| Vetoed(s) in b.ev; assert Vetoed(s) in a.ev + b.ev; }
    forall e | e in a.ev + b.ev ensures DrainEvent(pool, idle, a.gone + b.gone, a.vetoed + b.vetoed, a.reason, e, now) {
      if e in a.ev { assert DrainEvent(pool, idle, a.gone, a.vetoed, a.reason, e, now); } else { assert DrainEvent(pool, rest, b.gone, b.vetoed, b.reason, e, now); }
    }
  }

  // The counts after a walk over the pool's idle runners.
  lemma WalkCounts(t: Table, t1: Table, pool: nat, idle: seq<Runner>, w: Walk, now: int)
    requires IsIdleList(t, pool, idle) && DrainWalk(t, t1, pool, idle, w, now)
    ensures |RunningIn(t1, pool)| == |RunningIn(t, pool)| - |w.gone|
    ensures w.vetoes == 0 ==> IdleIn(t1, pool) == IdleIn(t, pool) - w.gone && |IdleIn(t1, pool)| == |idle| - |w.gone|
  {
    assert w.gone <= IdleIn(t, pool) <= RunningIn(t, pool);
    DrainedCounts(t, t1, w.gone, w.vetoes > 0, now, pool);
    Subsets(w.gone, IdleIn(t, pool));
  }

  lemma EmptyWalk(pool: nat, gone: set<Slot>, vetoed: set<Slot>, reason: Reason, ev: seq<Event>, now: int)
    requires forall e :: e in ev ==> DrainEvent(pool, [], gone, vetoed, reason, e, now)
    ensures ev == []
  {
    assert forall e :: !DrainEvent(pool, [], gone, vetoed, reason, e, now);
    if ev != [] { Member(ev); }
  }

  // An empty walk changed nothing.
  lemma WalkNothing(t: Table, t1: Table, pool: nat, idle: seq<Runner>, w: Walk, now: int)
    requires DrainWalk(t, t1, pool, idle, w, now) && (idle == [] || w.ev == [])
    ensures w.ev == [] && w.gone == {} && t1 == t
  {
    if idle == [] { EmptyWalk(pool, w.gone, w.vetoed, w.reason, w.ev, now); }
    assert t1.Keys == t.Keys;
  }

  // After the first branch: the pool is back under its cap, or nobody is idle.
  lemma OverCapDone(t: Table, t1: Table, p: Pool, idle: seq<Runner>, excess: nat, w: Walk, now: int)
    requires IsIdleList(t, p.id, idle) && DrainWalk(t, t1, p.id, idle, w, now) && w.vetoes == 0
    requires |RunningIn(t, p.id)| - excess == p.maxConcurrency && (|w.gone| == excess || |w.gone| + w.vetoes == |idle|)
    ensures |RunningIn(t1, p.id)| > p.maxConcurrency ==> IdleIn(t1, p.id) == {}
  {
    WalkCounts(t, t1, p.id, idle, w, now);
  }

  // After the second branch.
  lemma StaleDone(t: Table, t1: Table, p: Pool, rest: seq<Runner>, w: Walk, grace: int, now: int)
    requires Listed(t, p.id, rest) && IdleIn(t, p.id) == SlotsOf(p.id, rest)
    requires forall r :: r in rest ==> t[Slot(p.id, r.id)] == r
    requires DrainWalk(t, t1, p.id, rest, w, now) && w.vetoes == 0
    requires Sorted(p.id, rest, StaleFlags(rest, grace, now), |rest|, w)
    ensures forall s :: s in IdleIn(t1, p.id) ==> !StaleAtZero(t1[s], grace, now)
  {
    forall s | s in IdleIn(t1, p.id) ensures !StaleAtZero(t1[s], grace, now) {
      assert s in IdleIn(t, p.id);
      var j :| 0 <= j < |rest| && rest[j].id == s.id;
      assert t1[s] == rest[j];
    }
  }

  lemma ExcessDone(t: Table, t1: Table, p: Pool, rest: seq<Runner>, target: int, n: nat, w: Walk, grace: int, now: int)
    requires IsIdleList(t, p.id, rest) && DrainWalk(t, t1, p.id, rest, w, now) && w.vetoes == 0
    requires n <= |rest| && Sorted(p.id, rest, SettledFlags(rest, grace, now), n, w)
    requires |w.gone| == |rest| - target || n == |rest|
    ensures |IdleIn(t1, p.id)| > target ==> forall s :: s in IdleIn(t1, p.id) ==> InGrace(t1[s], grace, now)
  {
    WalkCounts(t, t1, p.id, rest, w, now);
    if n == |rest| {
      forall s | s in IdleIn(t1, p.id) ensures InGrace(t1[s], grace, now) {
        assert s in IdleIn(t, p.id);
        var j :| 0 <= j < |rest| && rest[j].id == s.id;
        assert t1[s] == rest[j];
      }
    }
  }

  // The first branch's rest is exactly the idle runners again, if nothing was vetoed.
  lemma RestIdle(t: Table, t1: Table, pool: nat, idle: seq<Runner>, rest: seq<Runner>, w: Walk, now: int)
    requires IsIdleList(t, pool, idle) && DrainWalk(t, t1, pool, idle, w, now) && Parted(pool, idle, |idle|, rest, w)
    requires w.vetoes == 0
    ensures IsIdleList(t1, pool, rest)
  {
    IdleListed(t, pool, idle);
    RestListed(t, t1, pool, idle, rest, w, now);
    WalkCounts(t, t1, pool, idle, w, now);
    assert forall r :: r in rest ==> Slot(pool, r.id) in SlotsOf(pool, rest);
  }

  // Draining can only leave fewer idle runners.
  lemma WalkRunning(t: Table, t1: Table, pool: nat, rest: seq<Runner>, w: Walk, now: int)
    requires Listed(t, pool, rest) && SlotsOf(pool, rest) <= RunningIn(t, pool) && DrainWalk(t, t1, pool, rest, w, now)
    ensures |RunningIn(t1, pool)| == |RunningIn(t, pool)| - |w.gone|
    ensures |rest| <= |RunningIn(t, pool)|
    ensures IdleIn(t1, pool) <= IdleIn(t, pool)
  {
    SlotsOfCount(pool, rest);
    Subsets(SlotsOf(pool, rest), RunningIn(t, pool));
    assert w.gone <= RunningIn(t, pool);
    DrainedCounts(t, t1, w.gone, w.vetoes > 0, now, pool);
  }

  lemma SurvivorsRun(t: Table, t1: Table, pool: nat, idle: seq<Runner>, rest: seq<Runner>, w: Walk, now: int)
    requires IsIdleList(t, pool, idle) && DrainWalk(t, t1, pool, idle, w, now)
    requires SlotsOf(pool, rest) == SlotsOf(pool, idle) - w.gone
    ensures SlotsOf(pool, rest) <= RunningIn(t1, pool)
  {
  }

  // With no veto, the two branches leave nothing to drain.
  lemma BothDone(t: Table, t1: Table, t2: Table, p: Pool, idle: seq<Runner>, rest: seq<Runner>, a: Walk, b: Walk,
                 target: int, grace: int, now: int)
    requires IsIdleList(t, p.id, idle) && DrainWalk(t, t1, p.id, idle, a, now) && Parted(p.id, idle, |idle|, rest, a)
    requires DrainWalk(t1, t2, p.id, rest, b, now) && a.vetoes == b.vetoes == 0
    requires 0 < p.maxConcurrency < |RunningIn(t1, p.id)| ==> IdleIn(t1, p.id) == {}
    requires IsIdleList(t1, p.id, rest) ==> DownToTarget(p, t2, target, grace, now)
    ensures NothingToDrain(p, t2, target, grace, now)
  {
    RestIdle(t, t1, p.id, idle, rest, a, now);
    WalkCounts(t1, t2, p.id, rest, b, now);
  }

  // What a settled pool looks like to the two branches.
  lemma NothingRows(t: Table, p: Pool, idle: seq<Runner>, target: int, grace: int, now: int)
    requires IsIdleList(t, p.id, idle) && NothingToDrain(p, t, target, grace, now)
    ensures 0 < p.maxConcurrency < |RunningIn(t, p.id)| ==> idle == []
    ensures p.minIdle == 0 ==> forall r :: r in idle ==> !StaleAtZero(r, grace, now)
    ensures p.minIdle != 0 ==> |idle| <= target || forall r :: r in idle ==> InGrace(r, grace, now)
  {
    assert forall r :: r in idle ==> Slot(p.id, r.id) in SlotsOf(p.id, idle);
  }

  // What each drain branch, and both together, achieve.
  ghost predicate CapBranch(t: Table, t1: Table, p: Pool, idle: seq<Runner>, rest: seq<Runner>, left: int, w: Walk, now: int) {
    && DrainWalk(t, t1, p.id, idle, w, now) && left == |RunningIn(t, p.id)| - |w.gone| && w.reason == IdleDrain
    && Parted(p.id, idle, |idle|, rest, w)
    && CapDrive(p, |RunningIn(t, p.id)|, idle, Drive(w.gone, w.vetoed))
    && (w.gone != {} ==> 0 < p.maxConcurrency <= left)
    && (w.vetoes == 0 && 0 < p.maxConcurrency < left ==> IdleIn(t1, p.id) == {})
    && (!(0 < p.maxConcurrency < |RunningIn(t, p.id)|) || idle == [] ==> w.ev == [] && t1 == t)
  }

  ghost predicate TargetBranch(t: Table, t1: Table, p: Pool, rest: seq<Runner>, left: int, target: int, w: Walk, grace: int, now: int) {
    && DrainWalk(t, t1, p.id, rest, w, now) && left == |RunningIn(t, p.id)| - |w.gone| && w.reason == IdleDrain
    && TargetDrive(p, rest, target, Drive(w.gone, w.vetoed), grace, now)
    && (p.minIdle != 0 && w.gone != {} ==> left >= target)
    && (w.vetoes == 0 && IsIdleList(t, p.id, rest) ==> DownToTarget(p, t1, target, grace, now))
    && (p.minIdle == 0 && (forall r :: r in rest ==> !StaleAtZero(r, grace, now)) ==> w.ev == [] && t1 == t)
    && (p.minIdle != 0 && (|rest| <= target || forall r :: r in rest ==> InGrace(r, grace, now)) ==> w.ev == [] && t1 == t)
  }

  lemma CapDriveIs(p: Pool, active: nat, idle: seq<Runner>, m: nat, excess: nat, w: Walk)
    requires 0 < p.maxConcurrency < active && excess == active - p.maxConcurrency && m <= |idle|
    requires Asked(p.id, idle, AllFlags(idle), m, Drive(w.gone, w.vetoed)) && Stops(p.id, idle, excess, m, |idle|, w.gone)
    ensures CapDrive(p, active, idle, Drive(w.gone, w.vetoed))
  {
  }

  lemma CapBranchDone(t: Table, t1: Table, p: Pool, idle: seq<Runner>, rest: seq<Runner>, m: nat, drained: nat, excess: nat, w: Walk, now: int)
    requires IsIdleList(t, p.id, idle) && DrainWalk(t, t1, p.id, idle, w, now)
    requires 0 < p.maxConcurrency && excess > 0 && excess == |RunningIn(t, p.id)| - p.maxConcurrency
    requires CapWalk(p.id, idle, m, |idle|, drained, excess, rest, w)
    ensures drained <= |RunningIn(t, p.id)| && CapBranch(t, t1, p, idle, rest, |RunningIn(t, p.id)| - drained, w, now)
  {
    AskedAllIs(p.id, idle, m, Drive(w.gone, w.vetoed));
    CapDriveIs(p, |RunningIn(t, p.id)|, idle, m, excess, w);
    if w.vetoes == 0 { OverCapDone(t, t1, p, idle, excess, w, now); }
    WalkCounts(t, t1, p.id, idle, w, now);
    if idle == [] { WalkNothing(t, t1, p.id, idle, w, now); }
  }

  lemma CapBranchIdle(t: Table, p: Pool, idle: seq<Runner>, now: int)
    requires !(0 < p.maxConcurrency < |RunningIn(t, p.id)|)
    ensures CapBranch(t, t, p, idle, idle, |RunningIn(t, p.id)|, START, now)
  {
    UndrainedNone(p.id, idle);
    assert idle[..|idle|] == idle;
  }

  lemma TargetBranchIdle(t: Table, p: Pool, rest: seq<Runner>, target: int, grace: int, now: int)
    requires p.minIdle != 0 && |rest| <= target
    ensures TargetBranch(t, t, p, rest, |RunningIn(t, p.id)|, target, START, grace, now)
  {
  }

  lemma CanDriveIs(pool: nat, rest: seq<Runner>, unwanted: seq<bool>, limit: nat, n: nat, w: Walk)
    requires n <= |rest| && TargetWalk(pool, rest, unwanted, limit, n, w) && (|w.gone| == limit || n == |rest|)
    ensures |unwanted| == |rest| && CanDrive(pool, rest, unwanted, limit, Drive(w.gone, w.vetoed))
  {
    assert Stops(pool, rest, limit, n, |rest|, w.gone);
  }

  // A walk that wants nobody has no event.
  lemma NobodyAsked(t: Table, t1: Table, pool: nat, idle: seq<Runner>, unwanted: seq<bool>, m: nat, w: Walk, now: int)
    requires DrainWalk(t, t1, pool, idle, w, now) && m <= |idle| == |unwanted| && NoneWanted(unwanted)
    requires Asked(pool, idle, unwanted, m, Drive(w.gone, w.vetoed))
    ensures w.ev == []
  {
    forall s | s in SlotsOf(pool, idle) ensures s !in w.gone && s !in w.vetoed {
      var r :| r in idle && s == Slot(pool, r.id);
      var j :| 0 <= j < |idle| && idle[j] == r;
    }
  }

  lemma StaleBranch(t: Table, t1: Table, p: Pool, rest: seq<Runner>, left: int, target: int, w: Walk, grace: int, now: int)
    requires Listed(t, p.id, rest) && SlotsOf(p.id, rest) <= RunningIn(t, p.id) && DrainWalk(t, t1, p.id, rest, w, now)
    requires p.minIdle == 0 && left == |RunningIn(t, p.id)| - |w.gone|
    requires TargetWalk(p.id, rest, StaleFlags(rest, grace, now), |rest|, |rest|, w)
    ensures left >= 0 && TargetBranch(t, t1, p, rest, left, target, w, grace, now)
  {
    WalkRunning(t, t1, p.id, rest, w, now);
    CanDriveIs(p.id, rest, StaleFlags(rest, grace, now), |rest|, |rest|, w);
    if w.vetoes == 0 && IsIdleList(t, p.id, rest) { StaleDone(t, t1, p, rest, w, grace, now); }
    if NoneWanted(StaleFlags(rest, grace, now)) { NobodyAsked(t, t1, p.id, rest, StaleFlags(rest, grace, now), |rest|, w, now); }
    if w.ev == [] { WalkNothing(t, t1, p.id, rest, w, now); }
  }

  lemma ExcessBranch(t: Table, t1: Table, p: Pool, rest: seq<Runner>, left: int, target: int, n: nat, w: Walk, grace: int, now: int)
    requires Listed(t, p.id, rest) && SlotsOf(p.id, rest) <= RunningIn(t, p.id) && DrainWalk(t, t1, p.id, rest, w, now)
    requires p.minIdle != 0 && |rest| > target && left == |RunningIn(t, p.id)| - |w.gone|
    requires n <= |rest| && TargetWalk(p.id, rest, SettledFlags(rest, grace, now), |rest| - target, n, w)
    requires |w.gone| <= |rest| - target && (|w.gone| == |rest| - target || n == |rest|)
    ensures left >= 0 && TargetBranch(t, t1, p, rest, left, target, w, grace, now)
  {
    WalkRunning(t, t1, p.id, rest, w, now);
    CanDriveIs(p.id, rest, SettledFlags(rest, grace, now), |rest| - target, n, w);
    if w.vetoes == 0 && IsIdleList(t, p.id, rest) { ExcessDone(t, t1, p, rest, target, n, w, grace, now); }
    if NoneWanted(SettledFlags(rest, grace, now)) { NobodyAsked(t, t1, p.id, rest, SettledFlags(rest, grace, now), n, w, now); }
    if w.ev == [] { WalkNothing(t, t1, p.id, rest, w, now); }
  }

  // Draining never undershoots a positive min_idle's target, leaves nothing to
  // drain unless vetoed, and leaves a pool with nothing to drain alone.
  ghost predicate ScaledDown(t: Table, t1: Table, p: Pool, idle: seq<Runner>, left: int, target: int, w: Walk, grace: int, now: int) {
    && DrainWalk(t, t1, p.id, idle, w, now) && left == |RunningIn(t1, p.id)| == |RunningIn(t, p.id)| - |w.gone|
    && w.reason == IdleDrain
    && (p.minIdle != 0 && w.gone != {} ==> left >= target)
    && (w.vetoes == 0 ==> NothingToDrain(p, t1, target, grace, now))
    && (NothingToDrain(p, t, target, grace, now) ==> w.ev == [] && t1 == t)
    && (w.gone !! w.vetoed || MayRetry(p, t, target, grace, now))
    && (!(0 < p.maxConcurrency < |RunningIn(t, p.id)|) ==> OldEnough(p, t, w.gone, grace, now))
  }

  // No on-demand runner younger than the grace period is among them, nor one of
  // unknown age of a scale-to-zero pool.
  ghost predicate OldEnough(p: Pool, t: Table, gone: set<Slot>, grace: int, now: int) {
    forall s :: s in gone ==>
      s in t && (t[s].onDemand ==> if t[s].spawnedAt == 0 then p.minIdle != 0 else now - t[s].spawnedAt >= grace)
  }

  // ---- A veto that is asked again ------------------------------------------

  // The pool is above its cap, and the second branch has something to drain.
  ghost predicate MayRetry(p: Pool, t: Table, target: int, grace: int, now: int) {
    0 < p.maxConcurrency < |RunningIn(t, p.id)| && !DownToTarget(p, t, target, grace, now)
  }

  // The second branch removes a runner that was vetoed in the first.
  ghost predicate Retried(p: Pool, t: Table, idle: seq<Runner>, target: int, a: Drive, b: Drive, grace: int, now: int) {
    && CapDrive(p, |RunningIn(t, p.id)|, idle, a) && TargetDrive(p, Undrained(p.id, idle, a.gone), target, b, grace, now)
    && !(a.vetoed !! b.gone)
  }

  predicate Unwanted(p: Pool, r: Runner, grace: int, now: int) {
    if p.minIdle == 0 then StaleAtZero(r, grace, now) else !InGrace(r, grace, now)
  }

  lemma DriveWants(pool: nat, idle: seq<Runner>, wanted: seq<bool>, limit: nat, d: Drive, s: Slot) returns (j: nat)
    requires |wanted| == |idle| && CanDrive(pool, idle, wanted, limit, d) && s in d.gone
    ensures j < |idle| && wanted[j] && s == Slot(pool, idle[j].id)
  {
    var r :| r in idle && s == Slot(pool, r.id);
    j :| 0 <= j < |idle| && idle[j] == r;
  }

  lemma TargetWants(p: Pool, rest: seq<Runner>, target: int, d: Drive, grace: int, now: int, s: Slot) returns (j: nat)
    requires TargetDrive(p, rest, target, d, grace, now) && s in d.gone
    ensures j < |rest| && Unwanted(p, rest[j], grace, now) && (p.minIdle != 0 ==> |rest| > target)
    ensures s == Slot(p.id, rest[j].id)
  {
    if p.minIdle == 0 {
      j := DriveWants(p.id, rest, StaleFlags(rest, grace, now), |rest|, d, s);
    } else {
      j := DriveWants(p.id, rest, SettledFlags(rest, grace, now), |rest| - target, d, s);
    }
  }

  lemma NotDown(p: Pool, t: Table, idle: seq<Runner>, target: int, grace: int, now: int, r: Runner)
    requires IsIdleList(t, p.id, idle) && r in idle && Unwanted(p, r, grace, now) && (p.minIdle != 0 ==> |idle| > target)
    ensures !DownToTarget(p, t, target, grace, now)
  {
    assert Slot(p.id, r.id) in SlotsOf(p.id, idle);
  }

  lemma RetryNeeds(p: Pool, t: Table, idle: seq<Runner>, target: int, a: Drive, b: Drive, grace: int, now: int)
    requires IsIdleList(t, p.id, idle) && Retried(p, t, idle, target, a, b, grace, now)
    ensures MayRetry(p, t, target, grace, now)
  {
    var rest := Undrained(p.id, idle, a.gone);
    UndrainedMembers(p.id, idle, a.gone);
    var s :| s in a.vetoed && s in b.gone;
    var j := TargetWants(p, rest, target, b, grace, now, s);
    NotDown(p, t, idle, target, grace, now, rest[j]);
  }

  lemma {:induction false} UndrainedMembers(pool: nat, idle: seq<Runner>, gone: set<Slot>)
    ensures |Undrained(pool, idle, gone)| <= |idle|
    ensures forall r :: r in Undrained(pool, idle, gone) ==> r in idle
  {
    if idle != [] { UndrainedMembers(pool, idle[..|idle| - 1], gone); }
  }

  lemma SomeUnwanted(p: Pool, t: Table, idle: seq<Runner>, target: int, grace: int, now: int) returns (j: nat)
    requires IsIdleList(t, p.id, idle) && !DownToTarget(p, t, target, grace, now)
    ensures j < |idle| && Unwanted(p, idle[j], grace, now) && (p.minIdle != 0 ==> |idle| > target)
  {
    var s :| s in IdleIn(t, p.id) && Unwanted(p, t[s], grace, now);
    assert s in SlotsOf(p.id, idle);
    j :| 0 <= j < |idle| && Slot(p.id, idle[j].id) == s;
    assert idle[j] in idle;
  }

  // The forge vetoes everybody ...
  lemma AllVetoed(pool: nat, idle: seq<Runner>, limit: nat)
    requires limit > 0
    ensures CanDrive(pool, idle, AllFlags(idle), limit, Drive({}, SlotsOf(pool, idle)))
  {
    forall j | 0 <= j < |idle| ensures Slot(pool, idle[j].id) in SlotsOf(pool, idle) { assert idle[j] in idle; }
    assert Asked(pool, idle, AllFlags(idle), |idle|, Drive({}, SlotsOf(pool, idle)));
    assert Stops(pool, idle, limit, |idle|, |idle|, {});
  }

  // ... or everybody but one.
  lemma OneTaken(pool: nat, idle: seq<Runner>, wanted: seq<bool>, limit: nat, j: nat) returns (d: Drive)
    requires j < |idle| == |wanted| && wanted[j] && limit > 0 && Distinct(idle)
    ensures CanDrive(pool, idle, wanted, limit, d) && d.gone == {Slot(pool, idle[j].id)}
  {
    var m := if limit == 1 then j + 1 else |idle|;
    d := Drive({Slot(pool, idle[j].id)}, set i | 0 <= i < m && wanted[i] && i != j :: Slot(pool, idle[i].id));
    forall s | s in d.gone || s in d.vetoed ensures s in SlotsOf(pool, idle) {
      var i :| 0 <= i < |idle| && s == Slot(pool, idle[i].id);
      assert idle[i] in idle;
    }
    assert Asked(pool, idle, wanted, m, d);
    assert Stops(pool, idle, limit, m, |idle|, d.gone);
  }

  lemma TargetTakes(p: Pool, rest: seq<Runner>, target: int, grace: int, now: int, j: nat) returns (d: Drive)
    requires j < |rest| && Unwanted(p, rest[j], grace, now) && (p.minIdle != 0 ==> |rest| > target) && Distinct(rest)
    ensures TargetDrive(p, rest, target, d, grace, now) && d.gone == {Slot(p.id, rest[j].id)}
  {
    if p.minIdle == 0 {
      d := OneTaken(p.id, rest, StaleFlags(rest, grace, now), |rest|, j);
    } else {
      d := OneTaken(p.id, rest, SettledFlags(rest, grace, now), |rest| - target, j);
    }
  }

  lemma RetryHappens(p: Pool, t: Table, idle: seq<Runner>, target: int, grace: int, now: int, j: nat) returns (b: Drive)
    requires 0 < p.maxConcurrency < |RunningIn(t, p.id)| && Distinct(idle)
    requires j < |idle| && Unwanted(p, idle[j], grace, now) && (p.minIdle != 0 ==> |idle| > target)
    ensures Retried(p, t, idle, target, Drive({}, SlotsOf(p.id, idle)), b, grace, now)
  {
    AllVetoed(p.id, idle, |RunningIn(t, p.id)| - p.maxConcurrency);
    UndrainedNone(p.id, idle);
    b := TargetTakes(p, idle, target, grace, now, j);
    assert idle[j] in idle && Slot(p.id, idle[j].id) in b.gone;
  }

  // A cycle can remove a runner the forge has just vetoed exactly when the pool is
  // above its cap and the second branch has something to drain: the runners the
  // first branch leaves are asked about again.
  lemma VetoCanBeRetried(p: Pool, t: Table, idle: seq<Runner>, target: int, grace: int, now: int)
    requires IsIdleList(t, p.id, idle)
    ensures (exists a, b :: Retried(p, t, idle, target, a, b, grace, now)) <==> MayRetry(p, t, target, grace, now)
  {
    if MayRetry(p, t, target, grace, now) {
      var j := SomeUnwanted(p, t, idle, target, grace, now);
      var b := RetryHappens(p, t, idle, target, grace, now, j);
    } else {
      forall a, b ensures !Retried(p, t, idle, target, a, b, grace, now) {
        if Retried(p, t, idle, target, a, b, grace, now) { RetryNeeds(p, t, idle, target, a, b, grace, now); }
      }
    }
  }

  lemma CapDriveBounds(p: Pool, active: nat, idle: seq<Runner>, d: Drive)
    requires CapDrive(p, active, idle, d)
    ensures d.gone !! d.vetoed && d.vetoed <= SlotsOf(p.id, idle)
  {
    if 0 < p.maxConcurrency < active {
      var m :| 0 <= m <= |idle| && Asked(p.id, idle, AllFlags(idle), m, d);
      AskedOnce(p.id, idle, AllFlags(idle), m, d);
    }
  }

  lemma CanDriveBounds(pool: nat, idle: seq<Runner>, wanted: seq<bool>, limit: nat, d: Drive)
    requires |wanted| == |idle| && CanDrive(pool, idle, wanted, limit, d)
    ensures d.gone !! d.vetoed && d.vetoed <= SlotsOf(pool, idle)
  {
    var m :| 0 <= m <= |idle| && Asked(pool, idle, wanted, m, d);
    AskedOnce(pool, idle, wanted, m, d);
  }

  lemma TargetDriveBounds(p: Pool, rest: seq<Runner>, target: int, d: Drive, grace: int, now: int)
    requires TargetDrive(p, rest, target, d, grace, now)
    ensures d.gone !! d.vetoed && d.vetoed <= SlotsOf(p.id, rest)
  {
    if p.minIdle == 0 {
      CanDriveBounds(p.id, rest, StaleFlags(rest, grace, now), |rest|, d);
    } else if |rest| > target {
      CanDriveBounds(p.id, rest, SettledFlags(rest, grace, now), |rest| - target, d);
    }
  }

  // Within one branch no vetoed runner is removed, and the second does not ask
  // about what the first removed.
  lemma DrivesKeep(p: Pool, t: Table, idle: seq<Runner>, target: int, a: Drive, b: Drive, grace: int, now: int)
    requires IsIdleList(t, p.id, idle) && CapDrive(p, |RunningIn(t, p.id)|, idle, a)
    requires TargetDrive(p, Undrained(p.id, idle, a.gone), target, b, grace, now)
    ensures a.gone !! a.vetoed && b.gone !! b.vetoed && a.gone !! b.vetoed
    ensures a.vetoed !! b.gone || MayRetry(p, t, target, grace, now)
  {
    CapDriveBounds(p, |RunningIn(t, p.id)|, idle, a);
    TargetDriveBounds(p, Undrained(p.id, idle, a.gone), target, b, grace, now);
    UndrainedSlots(p.id, idle, a.gone);
    if Retried(p, t, idle, target, a, b, grace, now) { RetryNeeds(p, t, idle, target, a, b, grace, now); }
  }

  lemma UnionsDisjoint<T>(a: set<T>, b: set<T>, x: set<T>, y: set<T>)
    requires a !! x && a !! y && b !! x && b !! y
    ensures a + b !! x + y
  {
  }

  // Over both branches no vetoed runner is removed unless the veto is asked again.
  lemma VetoesKept(t: Table, t1: Table, t2: Table, p: Pool, idle: seq<Runner>, rest: seq<Runner>, left1: int, left: int,
                   target: int, a: Walk, b: Walk, grace: int, now: int)
    requires IsIdleList(t, p.id, idle)
    requires CapBranch(t, t1, p, idle, rest, left1, a, now)
    requires TargetBranch(t1, t2, p, rest, left, target, b, grace, now)
    ensures a.gone !! a.vetoed && b.gone !! b.vetoed
    ensures Both(a, b).gone !! Both(a, b).vetoed || MayRetry(p, t, target, grace, now)
  {
    assert idle[..|idle|] == idle && rest == Undrained(p.id, idle, a.gone);
    DrivesKeep(p, t, idle, target, Drive(a.gone, a.vetoed), Drive(b.gone, b.vetoed), grace, now);
    if a.vetoed !! b.gone { UnionsDisjoint(a.gone, b.gone, a.vetoed, b.vetoed); }
  }

  // In terms of the events: a vetoed runner is still there.
  lemma VetoedStays(t: Table, t1: Table, p: Pool, idle: seq<Runner>, left: int, target: int, w: Walk, grace: int, now: int, s: Slot)
    requires IsIdleList(t, p.id, idle) && ScaledDown(t, t1, p, idle, left, target, w, grace, now)
    requires !MayRetry(p, t, target, grace, now) && Vetoed(s) in w.ev
    ensures s in t1 && t1[s].running
  {
    assert DrainEvent(p.id, idle, w.gone, w.vetoed, w.reason, Vetoed(s), now);
  }

  // One busy runner and one idle standby.
  ghost predicate Pair(p: Pool, t: Table, busy: Slot, s: Slot) {
    && busy != s && busy.pool == s.pool == p.id && t.Keys == {busy, s}
    && t[busy].running && t[busy].busy && IsIdle(t[s]) && !t[s].onDemand && t[s].id == s.id
  }

  lemma PairCounts(p: Pool, t: Table, busy: Slot, s: Slot)
    requires Pair(p, t, busy, s)
    ensures RunningIn(t, p.id) == {busy, s} && IdleIn(t, p.id) == {s} && IsIdleList(t, p.id, [t[s]])
    ensures |RunningIn(t, p.id)| == 2 && SlotsOf(p.id, [t[s]]) == {s}
  {
  }

  lemma PairVetoed(p: Pool, t: Table, busy: Slot, s: Slot, now: int)
    requires Pair(p, t, busy, s) && p.maxConcurrency == 1
    ensures CapBranch(t, MarkEntry(t, Some(s), true, now), p, [t[s]], [t[s]], 2, Walk({}, {s}, 1, [Vetoed(s)], IdleDrain), now)
  {
    PairCounts(p, t, busy, s);
    AllVetoed(p.id, [t[s]], 1);
    assert Vetoed(s) in [Vetoed(s)];
    UndrainedNone(p.id, [t[s]]);
    assert [t[s]][..1] == [t[s]];
  }

  lemma PairDrained(p: Pool, t: Table, busy: Slot, s: Slot, grace: int, now: int)
    requires Pair(p, t, busy, s) && p.minIdle == 0
    ensures var t1 := MarkEntry(t, Some(s), true, now);
      TargetBranch(t1, t1 - {s}, p, [t[s]], 1, 1, Walk({s}, {}, 0, [Removed(s, t[s], IdleDrain, now, 0, Failed, true)], IdleDrain), grace, now)
  {
    OneStale(p, [t[s]], grace, now);
    var t1 := MarkEntry(t, Some(s), true, now);
    assert RunningIn(t1, p.id) == {busy, s} && IdleIn(t1, p.id) == {};
    assert SlotsOf(p.id, [t[s]]) == {s};
  }

  lemma OneStale(p: Pool, idle: seq<Runner>, grace: int, now: int)
    requires p.minIdle == 0 && |idle| == 1 && StaleAtZero(idle[0], grace, now)
    ensures TargetDrive(p, idle, 1, Drive({Slot(p.id, idle[0].id)}, {}), grace, now)
  {
    var d := Drive({Slot(p.id, idle[0].id)}, {});
    assert idle[0] in idle;
    assert Asked(p.id, idle, StaleFlags(idle, grace, now), 1, d);
    assert Stops(p.id, idle, 1, 1, 1, d.gone);
  }

  // A concrete case: no standbys are wanted, the cap was lowered to 1, and one
  // busy runner and one idle standby are left.  The forge vetoes the standby and
  // then fails: it is removed although its entry says busy by then.
  lemma VetoedRunnerIsRemoved(p: Pool, t: Table, busy: Slot, s: Slot, grace: int, now: int)
    requires p.minIdle == 0 && p.maxConcurrency == 1 && Pair(p, t, busy, s)
    ensures IsIdleList(t, p.id, [t[s]]) && TargetFor(p, t, 0) == 1
    ensures var t1 := MarkEntry(t, Some(s), true, now);
      CapBranch(t, t1, p, [t[s]], [t[s]], 2, Walk({}, {s}, 1, [Vetoed(s)], IdleDrain), now) &&
      t1[s].running && t1[s].busy &&
      TargetBranch(t1, t1 - {s}, p, [t[s]], 1, 1, Walk({s}, {}, 0, [Removed(s, t[s], IdleDrain, now, 0, Failed, true)], IdleDrain), grace, now)
  {
    PairCounts(p, t, busy, s);
    PairVetoed(p, t, busy, s, now);
    PairDrained(p, t, busy, s, grace, now);
  }

  lemma RestReady(t: Table, t1: Table, p: Pool, idle: seq<Runner>, rest: seq<Runner>, left: int, w: Walk, now: int)
    requires IsIdleList(t, p.id, idle) && CapBranch(t, t1, p, idle, rest, left, w, now)
    ensures Listed(t1, p.id, rest) && SlotsOf(p.id, rest) <= RunningIn(t1, p.id) && left == |RunningIn(t1, p.id)|
  {
    IdleListed(t, p.id, idle);
    RestListed(t, t1, p.id, idle, rest, w, now);
    WalkCounts(t, t1, p.id, idle, w, now);
    SurvivorsRun(t, t1, p.id, idle, rest, w, now);
  }

  lemma CapThenTarget(t: Table, t1: Table, t2: Table, p: Pool, idle: seq<Runner>, rest: seq<Runner>, left1: int, left: int,
                      target: int, a: Walk, b: Walk, grace: int, now: int)
    requires IsIdleList(t, p.id, idle) && Capped(p, target) == target
    requires CapBranch(t, t1, p, idle, rest, left1, a, now)
    requires TargetBranch(t1, t2, p, rest, left, target, b, grace, now)
    ensures ScaledDown(t, t2, p, idle, left, target, Both(a, b), grace, now)
  {
    IdleListed(t, p.id, idle);
    RestListed(t, t1, p.id, idle, rest, a, now);
    WholeWalk(t, t1, t2, p, idle, rest, a, b, now);
    VetoesKept(t, t1, t2, p, idle, rest, left1, left, target, a, b, grace, now);
    if !(0 < p.maxConcurrency < |RunningIn(t, p.id)|) { DrainedByAge(t, p, idle, rest, target, a, b, grace, now); }
    if Both(a, b).vetoes == 0 { NothingLeft(t, t1, t2, p, idle, rest, left1, left, target, a, b, grace, now); }
    if NothingToDrain(p, t, target, grace, now) { NothingTwice(t, t1, t2, p, idle, rest, left1, left, target, a, b, grace, now); }
  }

  // Within its cap a pool loses idle runners by age only.
  lemma DrainedByAge(t: Table, p: Pool, idle: seq<Runner>, rest: seq<Runner>, target: int, a: Walk, b: Walk, grace: int, now: int)
    requires IsIdleList(t, p.id, idle) && (forall r :: r in rest ==> r in idle) && a.gone == {}
    requires TargetDrive(p, rest, target, Drive(b.gone, b.vetoed), grace, now)
    ensures OldEnough(p, t, Both(a, b).gone, grace, now)
  {
    forall s | s in b.gone
      ensures s in t && (t[s].onDemand ==> if t[s].spawnedAt == 0 then p.minIdle != 0 else now - t[s].spawnedAt >= grace)
    {
      var j := TargetWants(p, rest, target, Drive(b.gone, b.vetoed), grace, now, s);
      assert rest[j] in rest && s == Slot(p.id, rest[j].id);
    }
  }

  lemma WholeWalk(t: Table, t1: Table, t2: Table, p: Pool, idle: seq<Runner>, rest: seq<Runner>, a: Walk, b: Walk, now: int)
    requires IsIdleList(t, p.id, idle) && DrainWalk(t, t1, p.id, idle, a, now) && DrainWalk(t1, t2, p.id, rest, b, now)
    requires SlotsOf(p.id, rest) == SlotsOf(p.id, idle) - a.gone && (forall r :: r in rest ==> r in idle) && a.reason == b.reason
    ensures DrainWalk(t, t2, p.id, idle, Both(a, b), now)
    ensures |RunningIn(t2, p.id)| == |RunningIn(t, p.id)| - |a.gone| - |b.gone|
    ensures |RunningIn(t1, p.id)| == |RunningIn(t, p.id)| - |a.gone|
    ensures |Both(a, b).gone| == |a.gone| + |b.gone|
  {
    WalkTwice(t, t1, t2, p.id, idle, rest, a, b, now);
    WalkCounts(t, t2, p.id, idle, Both(a, b), now);
    WalkCounts(t, t1, p.id, idle, a, now);
  }

  lemma NothingLeft(t: Table, t1: Table, t2: Table, p: Pool, idle: seq<Runner>, rest: seq<Runner>, left1: int, left: int,
                    target: int, a: Walk, b: Walk, grace: int, now: int)
    requires IsIdleList(t, p.id, idle) && a.vetoes == b.vetoes == 0
    requires CapBranch(t, t1, p, idle, rest, left1, a, now)
    requires TargetBranch(t1, t2, p, rest, left, target, b, grace, now)
    ensures NothingToDrain(p, t2, target, grace, now)
  {
    RestIdle(t, t1, p.id, idle, rest, a, now);
    WalkCounts(t, t1, p.id, idle, a, now);
    BothDone(t, t1, t2, p, idle, rest, a, b, target, grace, now);
  }

  lemma NothingTwice(t: Table, t1: Table, t2: Table, p: Pool, idle: seq<Runner>, rest: seq<Runner>, left1: int, left: int,
                     target: int, a: Walk, b: Walk, grace: int, now: int)
    requires IsIdleList(t, p.id, idle) && NothingToDrain(p, t, target, grace, now)
    requires CapBranch(t, t1, p, idle, rest, left1, a, now)
    requires TargetBranch(t1, t2, p, rest, left, target, b, grace, now)
    ensures Both(a, b).ev == [] && t2 == t
  {
    NothingRows(t, p, idle, target, grace, now);
    assert a.ev == [] && t1 == t;
    RestWhole(p.id, idle, rest, a);
    assert b.ev == [] && t2 == t;
  }

  lemma RestWhole(pool: nat, idle: seq<Runner>, rest: seq<Runner>, w: Walk)
    requires Parted(pool, idle, |idle|, rest, w) && w.gone == {}
    ensures rest == idle
  {
    UndrainedNone(pool, idle);
    assert idle[..|idle|] == idle;
  }

  // ---- Spawning up to the target -------------------------------------------

  // Queued requests of the pool for one target.
  function QueuedOn(queue: seq<Request>, pool: nat, target: string): nat {
    if queue == [] then 0
    else
      var r := queue[|queue| - 1];
      QueuedOn(queue[..|queue| - 1], pool, target) + if r.pool == pool && r.target == target then 1 else 0
  }

  // Every target gained, in idle runners and queued requests together, what was
  // placed on it.
  ghost predicate Placed(t: Table, q: seq<Request>, t1: Table, q1: seq<Request>, pool: nat, placed: seq<string>) {
    forall x :: |IdleOn(t1, pool, x)| + QueuedOn(q1, pool, x) ==
                |IdleOn(t, pool, x)| + QueuedOn(q, pool, x) + multiset(placed)[x]
  }

  lemma PlacedSpawn(t: Table, q: seq<Request>, t1: Table, q1: seq<Request>, placed: seq<string>, s: Slot, r: Runner)
    requires Placed(t, q, t1, q1, s.pool, placed) && s !in t1 && r.running && !r.busy
    ensures Placed(t, q, t1[s := r], q1, s.pool, placed + [r.target])
  {
    forall x ensures |IdleOn(t1[s := r], s.pool, x)| + QueuedOn(q1, s.pool, x) ==
                     |IdleOn(t, s.pool, x)| + QueuedOn(q, s.pool, x) + multiset(placed + [r.target])[x] {
      SpawnIdles(t1, s, r, x);
    }
  }

  lemma PlacedQueued(t: Table, q: seq<Request>, t1: Table, q1: seq<Request>, placed: seq<string>, r: Request)
    requires Placed(t, q, t1, q1, r.pool, placed)
    ensures Placed(t, q, t1, q1 + [r], r.pool, placed + [r.target])
    ensures QueuedFor(q1 + [r], r.pool) == QueuedFor(q1, r.pool) + 1
  {
    assert (q1 + [r])[..|q1|] == q1;
  }

  ghost predicate QueueGrown(q: seq<Request>, q1: seq<Request>, p: Pool) {
    q <= q1 && forall i :: |q| <= i < |q1| ==> q1[i].pool == p.id && q1[i].poolName == p.name
  }

  lemma QueueTwice(q: seq<Request>, q1: seq<Request>, q2: seq<Request>, p: Pool)
    requires QueueGrown(q, q1, p) && QueueGrown(q1, q2, p)
    ensures QueueGrown(q, q2, p)
  {
  }

  lemma GrownTwice(t: Table, t1: Table, t2: Table, p: Pool, onDemand: bool, now: int)
    requires Grown(t, t1, p, onDemand, now) && Grown(t1, t2, p, onDemand, now)
    ensures Grown(t, t2, p, onDemand, now)
  {
  }

  // What a cycle places: the uncovered demand first, then round robin.
  ghost predicate DemandFirst(placed: seq<string>, demand: seq<string>) {
    placed <= demand || demand <= placed
  }

  // rest is what is left of the demand queue after placing placed.
  ghost predicate Drawn(placed: seq<string>, rest: seq<string>, demand: seq<string>) {
    if rest == [] then demand <= placed else placed + rest == demand
  }

  lemma DrawNext(placed: seq<string>, rest: seq<string>, demand: seq<string>, x: string)
    requires Drawn(placed, rest, demand) && (rest != [] ==> x == rest[0])
    ensures Drawn(placed + [x], if rest == [] then [] else rest[1..], demand)
  {
    if rest != [] { assert placed + rest == (placed + [x]) + rest[1..]; }
  }

  lemma DrawnFirst(placed: seq<string>, rest: seq<string>, demand: seq<string>)
    requires Drawn(placed, rest, demand)
    ensures DemandFirst(placed, demand)
  {
    assert rest != [] ==> demand[..|placed|] == placed;
  }

  // The spawn loop midway: what was placed so far, and what is left of the demand.
  ghost predicate Placing(t: Table, q: seq<Request>, t1: Table, q1: seq<Request>, p: Pool, placed: seq<string>,
                          rest: seq<string>, demand: seq<string>, onDemand: bool, now: int) {
    && Grown(t, t1, p, onDemand, now) && QueueGrown(q, q1, p)
    && Placed(t, q, t1, q1, p.id, placed) && Drawn(placed, rest, demand) && "" !in rest
    && RoundRobin(p.targets, placed, |demand|, |RunningIn(t, p.id)|, |RunningIn(t1, p.id)| - |RunningIn(t, p.id)|)
    && |RunningIn(t1, p.id)| + QueuedFor(q1, p.id) == |RunningIn(t, p.id)| + QueuedFor(q, p.id) + |placed|
  }

  // Beyond the demand, the i-th placement goes to the target that the number of
  // runners at that point selects; requests queued at the global quota do not count.
  ghost predicate RoundRobin(targets: seq<string>, placed: seq<string>, demand: nat, left: int, spawned: int) {
    targets != [] && 0 <= spawned <= |placed| &&
    forall i :: demand <= i < |placed| ==> placed[i] == targets[(left + Min(i, spawned)) % |targets|]
  }

  // One more placement: a container as long as nothing was queued, else a request.
  lemma RoundRobinNext(targets: seq<string>, placed: seq<string>, demand: nat, left: int, spawned: int, spawned1: int, x: string)
    requires RoundRobin(targets, placed, demand, left, spawned)
    requires spawned1 == spawned || spawned1 == spawned + 1 == |placed| + 1
    requires demand <= |placed| ==> x == targets[(left + spawned) % |targets|]
    ensures RoundRobin(targets, placed + [x], demand, left, spawned1)
  {
  }

  // So all requests that a cycle queues beyond the demand are for one target.
  lemma QueuedForOneTarget(targets: seq<string>, placed: seq<string>, demand: nat, left: int, spawned: int, i: nat, j: nat)
    requires RoundRobin(targets, placed, demand, left, spawned)
    requires Max(demand, spawned) <= i < |placed| && Max(demand, spawned) <= j < |placed|
    ensures placed[i] == placed[j]
  {
  }

  lemma NextInTurn(t: Table, q: seq<Request>, t1: Table, q1: seq<Request>, p: Pool, placed: seq<string>, rest: seq<string>,
                   demand: seq<string>, x: string, spawned: int, onDemand: bool, now: int)
    requires Placing(t, q, t1, q1, p, placed, rest, demand, onDemand, now) && x == TargetNext(p, rest, |RunningIn(t1, p.id)|)
    requires var before := |RunningIn(t1, p.id)| - |RunningIn(t, p.id)|; spawned == before || spawned == before + 1 == |placed| + 1
    ensures RoundRobin(p.targets, placed + [x], |demand|, |RunningIn(t, p.id)|, spawned)
  {
    var left := |RunningIn(t, p.id)|;
    assert left + (|RunningIn(t1, p.id)| - left) == |RunningIn(t1, p.id)|;
    RoundRobinNext(p.targets, placed, |demand|, left, |RunningIn(t1, p.id)| - left, spawned, x);
  }

  // One more placement on x: a container if more, else a request.
  lemma PlacingOne(t: Table, q: seq<Request>, t1: Table, q1: seq<Request>, t2: Table, q2: seq<Request>, p: Pool,
                   placed: seq<string>, rest: seq<string>, demand: seq<string>, x: string, more: bool, onDemand: bool, now: int)
    requires Placing(t, q, t1, q1, p, placed, rest, demand, onDemand, now) && x == TargetNext(p, rest, |RunningIn(t1, p.id)|)
    requires Grown(t1, t2, p, onDemand, now) && QueueGrown(q1, q2, p) && Placed(t, q, t2, q2, p.id, placed + [x])
    requires |RunningIn(t2, p.id)| == |RunningIn(t1, p.id)| + if more then 1 else 0
    requires QueuedFor(q2, p.id) == QueuedFor(q1, p.id) + if more then 0 else 1
    requires more ==> q1 == q
    ensures Placing(t, q, t2, q2, p, placed + [x], if rest == [] then [] else rest[1..], demand, onDemand, now)
  {
    var spawned := |RunningIn(t2, p.id)| - |RunningIn(t, p.id)|;
    assert (rest != [] ==> x == rest[0]) && |RunningIn(t2, p.id)| + QueuedFor(q2, p.id) == |RunningIn(t1, p.id)| + QueuedFor(q1, p.id) + 1;
    InTurn(t, q, t1, q1, spawned, p, placed, rest, demand, x, more, onDemand, now);
    PlacingNext(t, q, t1, q1, t2, q2, spawned, p, placed, rest, demand, x, onDemand, now);
  }

  lemma InTurn(t: Table, q: seq<Request>, t1: Table, q1: seq<Request>, spawned: int, p: Pool, placed: seq<string>, rest: seq<string>,
               demand: seq<string>, x: string, more: bool, onDemand: bool, now: int)
    requires Placing(t, q, t1, q1, p, placed, rest, demand, onDemand, now) && x == TargetNext(p, rest, |RunningIn(t1, p.id)|)
    requires spawned == |RunningIn(t1, p.id)| - |RunningIn(t, p.id)| + (if more then 1 else 0) && (more ==> q1 == q)
    ensures RoundRobin(p.targets, placed + [x], |demand|, |RunningIn(t, p.id)|, spawned)
  {
    NextInTurn(t, q, t1, q1, p, placed, rest, demand, x, spawned, onDemand, now);
  }

  lemma PlacingNext(t: Table, q: seq<Request>, t1: Table, q1: seq<Request>, t2: Table, q2: seq<Request>, spawned: int, p: Pool,
                    placed: seq<string>, rest: seq<string>, demand: seq<string>, x: string, onDemand: bool, now: int)
    requires Placing(t, q, t1, q1, p, placed, rest, demand, onDemand, now) && (rest != [] ==> x == rest[0])
    requires Grown(t1, t2, p, onDemand, now) && QueueGrown(q1, q2, p) && Placed(t, q, t2, q2, p.id, placed + [x])
    requires |RunningIn(t2, p.id)| + QueuedFor(q2, p.id) == |RunningIn(t1, p.id)| + QueuedFor(q1, p.id) + 1
    requires spawned == |RunningIn(t2, p.id)| - |RunningIn(t, p.id)|
    requires RoundRobin(p.targets, placed + [x], |demand|, |RunningIn(t, p.id)|, spawned)
    ensures Placing(t, q, t2, q2, p, placed + [x], if rest == [] then [] else rest[1..], demand, onDemand, now)
  {
    GrownTwice(t, t1, t2, p, onDemand, now);
    QueueTwice(q, q1, q2, p);
    DrawNext(placed, rest, demand, x);
  }

  // Uncovered demand first, then the target that the number of runners selects.
  function TargetNext(p: Pool, rest: seq<string>, running: nat): string
    requires rest == [] ==> p.targets != []
  {
    if rest != [] then rest[0] else p.targets[running % |p.targets|]
  }

  // Placing at least the whole demand queue covers every target's demand.
  lemma DemandMet(targets: seq<string>, polled: map<string, nat>, t: Table, q: seq<Request>, t1: Table, q1: seq<Request>,
                  pool: nat, placed: seq<string>, x: string)
    requires Placed(t, q, t1, q1, pool, placed) && x in targets
    requires DemandQueue(targets, polled, t, pool) <= placed
    ensures |IdleOn(t1, pool, x)| + QueuedOn(q1, pool, x) >= Demand(polled, x)
  {
    var demand := DemandQueue(targets, polled, t, pool);
    DemandQueueCovers(targets, polled, t, pool, x);
    assert placed == demand + placed[|demand|..];
    assert multiset(placed) == multiset(demand) + multiset(placed[|demand|..]);
  }

  // ---- A whole cycle -------------------------------------------------------

  // The demand a cycle acts on; poll is None when none was polled.
  function DemandFor(p: Pool, poll: Option<seq<Option<nat>>>, t: Table): seq<string>
    requires poll.Some? ==> |poll.value| == |p.targets|
  {
    if poll.Some? then DemandQueue(p.targets, Polled(p.targets, poll.value), t, p.id) else []
  }

  function TargetFor(p: Pool, t: Table, deficit: nat): int {
    Target(p, |RunningIn(t, p.id)|, |IdleIn(t, p.id)|, deficit)
  }

  lemma GrownCounts(t: Table, t1: Table, p: Pool, onDemand: bool, now: int)
    requires Grown(t, t1, p, onDemand, now)
    ensures |RunningIn(t1, p.id)| - |RunningIn(t, p.id)| == |IdleIn(t1, p.id)| - |IdleIn(t, p.id)|
    ensures |IdleIn(t1, p.id)| <= |RunningIn(t1, p.id)|
  {
    GrownRunning(t, t1, p, onDemand, now);
    GrownIdle(t, t1, p, onDemand, now);
    Subsets(IdleIn(t1, p.id), RunningIn(t1, p.id));
  }

  lemma GrownRunning(t: Table, t1: Table, p: Pool, onDemand: bool, now: int)
    requires Grown(t, t1, p, onDemand, now)
    ensures |RunningIn(t1, p.id)| == |RunningIn(t, p.id)| + |t1.Keys - t.Keys|
  {
    assert RunningIn(t1, p.id) == RunningIn(t, p.id) + (t1.Keys - t.Keys);
  }

  lemma GrownIdle(t: Table, t1: Table, p: Pool, onDemand: bool, now: int)
    requires Grown(t, t1, p, onDemand, now)
    ensures |IdleIn(t1, p.id)| == |IdleIn(t, p.id)| + |t1.Keys - t.Keys|
  {
    assert IdleIn(t1, p.id) == IdleIn(t, p.id) + (t1.Keys - t.Keys);
  }

  // What keeps the second branch from draining anybody: no standby and no on-demand
  // runner past its grace period in a scale-to-zero pool; elsewhere an uncovered
  // demand, no more idle than wanted, or only on-demand runners within their grace.
  ghost predicate NoneToDrain(p: Pool, t: Table, deficit: nat, grace: int, now: int) {
    var active, idle := |RunningIn(t, p.id)|, |IdleIn(t, p.id)|;
    if p.minIdle == 0 then
      forall s :: s in IdleIn(t, p.id) ==> t[s].onDemand && (t[s].spawnedAt == 0 || now - t[s].spawnedAt < grace)
    else
      || deficit > 0 || idle <= p.minIdle + active - idle
      || forall s :: s in IdleIn(t, p.id) ==> t[s].onDemand && t[s].spawnedAt != 0 && now - t[s].spawnedAt < grace
  }

  // The cap leaves room for the uncovered demand.
  ghost predicate DemandFits(p: Pool, t: Table, deficit: nat) {
    p.maxConcurrency <= 0 || |RunningIn(t, p.id)| + deficit <= p.maxConcurrency
  }

  lemma NoneToDrainIs(p: Pool, t: Table, deficit: nat, grace: int, now: int)
    requires DemandFits(p, t, deficit)
    ensures NoneToDrain(p, t, deficit, grace, now) <==> DownToTarget(p, t, TargetFor(p, t, deficit), grace, now)
  {
    Subsets(IdleIn(t, p.id), RunningIn(t, p.id));
  }

  // Some answers of the forge make the second branch remove an idle runner exactly
  // when something is to drain.
  lemma IdleCanGo(p: Pool, t: Table, idle: seq<Runner>, deficit: nat, grace: int, now: int)
    requires IsIdleList(t, p.id, idle) && DemandFits(p, t, deficit)
    ensures (exists d :: TargetDrive(p, idle, TargetFor(p, t, deficit), d, grace, now) && d.gone != {}) <==>
      !NoneToDrain(p, t, deficit, grace, now)
  {
    var target := TargetFor(p, t, deficit);
    NoneToDrainIs(p, t, deficit, grace, now);
    if !DownToTarget(p, t, target, grace, now) {
      var j := SomeUnwanted(p, t, idle, target, grace, now);
      var d := TargetTakes(p, idle, target, grace, now, j);
      assert Slot(p.id, idle[j].id) in d.gone;
    }
    forall d, s | TargetDrive(p, idle, target, d, grace, now) && s in d.gone ensures !DownToTarget(p, t, target, grace, now) {
      var j := TargetWants(p, idle, target, d, grace, now, s);
      NotDown(p, t, idle, target, grace, now, idle[j]);
    }
  }

  // ... and otherwise the whole cycle drains nothing.
  lemma NothingDrained(t: Table, mid: Table, p: Pool, idle: seq<Runner>, left: int, deficit: nat, w: Walk, grace: int, now: int)
    requires IsIdleList(t, p.id, idle) && ScaledDown(t, mid, p, idle, left, TargetFor(p, t, deficit), w, grace, now)
    requires DemandFits(p, t, deficit) && NoneToDrain(p, t, deficit, grace, now)
    ensures w.ev == [] && mid == t && left == |RunningIn(t, p.id)|
  {
    NoneToDrainIs(p, t, deficit, grace, now);
    assert NothingToDrain(p, t, TargetFor(p, t, deficit), grace, now);
  }

  // Two idle standbys of a pool with the one target "x".
  ghost predicate TwoStandbys(p: Pool, t: Table, a: Slot, b: Slot) {
    && p.targets == ["x"] && a != b && a.pool == b.pool == p.id
    && t.Keys == {a, b} && t[a].id == a.id && t[b].id == b.id
    && forall s :: s in t ==> IsIdle(t[s]) && !t[s].onDemand && t[s].target == "x"
  }

  lemma StandbyCounts(p: Pool, t: Table, a: Slot, b: Slot)
    requires TwoStandbys(p, t, a, b)
    ensures RunningIn(t, p.id) == IdleIn(t, p.id) == IdleOn(t, p.id, "x") == {a, b} && |{a, b}| == 2
    ensures IdleOn(t - {a}, p.id, "x") == {b}
  {
  }

  lemma StandbyList(p: Pool, t: Table, a: Slot, b: Slot)
    requires TwoStandbys(p, t, a, b)
    ensures IsIdleList(t, p.id, [t[a], t[b]])
  {
    StandbyCounts(p, t, a, b);
    assert SlotsOf(p.id, [t[a], t[b]]) == {a, b};
  }

  // Two jobs are queued for the target.
  lemma TwoQueued(p: Pool, t: Table, a: Slot, b: Slot)
    requires TwoStandbys(p, t, a, b)
    ensures DemandFor(p, Some([Some(2)]), t) == [] && LastAnswer(p.targets, [Some(2)], 0)
  {
    var answers := [Some(2)];
    StandbyCounts(p, t, a, b);
    assert p.targets[..0] == [] && answers[..0] == [];
    assert LastAnswer(p.targets, answers, 0);
    PolledIs(p.targets, answers);
    assert Demand(Polled(p.targets, answers), "x") == 2;
    assert DemandQueue(p.targets, Polled(p.targets, answers), t, p.id) == [] + Repeat("x", 0);
  }

  // A concrete case: two standbys on a target with two queued jobs, and min_idle 1.
  // No job is uncovered, so the target stays at 1 and one of the standbys may go.
  lemma CoveredStandbyDrained(p: Pool, t: Table, a: Slot, b: Slot, grace: int, now: int) returns (d: Drive)
    requires p.minIdle == 1 && p.maxConcurrency <= 0 && TwoStandbys(p, t, a, b)
    ensures DemandFor(p, Some([Some(2)]), t) == [] && IsIdleList(t, p.id, [t[a], t[b]])
    ensures TargetDrive(p, [t[a], t[b]], TargetFor(p, t, 0), d, grace, now) && d.gone == {a}
    ensures !DemandCovered(p, Some([Some(2)]), t - {a}, [])
  {
    StandbyCounts(p, t, a, b);
    StandbyList(p, t, a, b);
    TwoQueued(p, t, a, b);
    d := TargetTakes(p, [t[a], t[b]], TargetFor(p, t, 0), grace, now, 0);
  }

  // A polling cycle in which neither the cap, nor older requests, nor the pool's own
  // draining get in the way.
  ghost predicate MustCover(p: Pool, poll: Option<seq<Option<nat>>>, t: Table, queue: seq<Request>, grace: int, now: int) {
    && poll.Some? && |poll.value| == |p.targets| && QueuedFor(queue, p.id) == 0
    && DemandFits(p, t, |DemandFor(p, poll, t)|) && NoneToDrain(p, t, |DemandFor(p, poll, t)|, grace, now)
  }

  // Every target the forge answered for has runners or requests for all its jobs.
  ghost predicate DemandCovered(p: Pool, poll: Option<seq<Option<nat>>>, t: Table, queue: seq<Request>)
    requires poll.Some? && |poll.value| == |p.targets|
  {
    forall i :: LastAnswer(p.targets, poll.value, i) ==>
      |IdleOn(t, p.id, p.targets[i])| + QueuedOn(queue, p.id, p.targets[i]) >= poll.value[i].value
  }

  lemma CoveredBy(p: Pool, poll: Option<seq<Option<nat>>>, t: Table, q: seq<Request>, t1: Table, q1: seq<Request>, placed: seq<string>)
    requires poll.Some? && |poll.value| == |p.targets| && Placed(t, q, t1, q1, p.id, placed)
    requires DemandFirst(placed, DemandFor(p, poll, t)) && |DemandFor(p, poll, t)| <= |placed|
    ensures DemandCovered(p, poll, t1, q1)
  {
    PolledIs(p.targets, poll.value);
    forall i | LastAnswer(p.targets, poll.value, i)
      ensures |IdleOn(t1, p.id, p.targets[i])| + QueuedOn(q1, p.id, p.targets[i]) >= poll.value[i].value
    {
      DemandMet(p.targets, Polled(p.targets, poll.value), t, q, t1, q1, p.id, placed, p.targets[i]);
    }
  }

  // What the growing half of a cycle achieves: quiet says it did nothing.
  ghost predicate GrownTo(t: Table, q: seq<Request>, t1: Table, q1: seq<Request>, p: Pool, left: int, target: int,
                          demand: seq<string>, ok: bool, placed: seq<string>, quiet: bool, onDemand: bool, now: int) {
    var needed := target - (left + QueuedFor(q, p.id));
    && Grown(t, t1, p, onDemand, now) && QueueGrown(q, q1, p)
    && Placed(t, q, t1, q1, p.id, placed) && DemandFirst(placed, demand)
    && RoundRobin(p.targets, placed, |demand|, left, |RunningIn(t1, p.id)| - left)
    && |RunningIn(t1, p.id)| + QueuedFor(q1, p.id) == left + QueuedFor(q, p.id) + |placed|
    && (needed <= 0 ==> ok && quiet)
    && (quiet ==> placed == [] && t1 == t && q1 == q)
    && (needed > 0 && ok ==> |placed| == needed)
  }

  lemma GrowthDone(t: Table, q: seq<Request>, t1: Table, q1: seq<Request>, p: Pool, left: int, target: int,
                   placed: seq<string>, rest: seq<string>, demand: seq<string>, ok: bool, onDemand: bool, now: int)
    requires Placing(t, q, t1, q1, p, placed, rest, demand, onDemand, now) && left == |RunningIn(t, p.id)|
    requires target - (left + QueuedFor(q, p.id)) > 0 && (ok ==> |placed| == target - (left + QueuedFor(q, p.id)))
    ensures GrownTo(t, q, t1, q1, p, left, target, demand, ok, placed, false, onDemand, now)
  {
    DrawnFirst(placed, rest, demand);
  }

  lemma GrowthNone(t: Table, q: seq<Request>, p: Pool, left: int, target: int, demand: seq<string>, onDemand: bool, now: int)
    requires target - (left + QueuedFor(q, p.id)) <= 0 && left == |RunningIn(t, p.id)| && p.targets != []
    ensures GrownTo(t, q, t, q, p, left, target, demand, true, [], true, onDemand, now)
  {
  }

  lemma HalvesDone(c: Cycle, left: int)
    requires Answered(c) && IsIdleList(c.start, c.p.id, c.idle)
    requires ScaledDown(c.start, c.mid, c.p, c.idle, left, TargetIn(c), c.w, c.grace, c.now)
    requires GrownTo(c.mid, c.before, c.end, c.after, c.p, left, TargetIn(c), DemandIn(c), c.ok, c.placed, c.quiet,
                     c.p.minIdle == 0 || c.p.polls, c.now)
    ensures Halves(c)
  {
  }

  // The promises of one cycle.
  // No thrashing: a pool with standbys that loses an idle runner gains none.
  ghost predicate NoThrash(p: Pool, w: Walk, quiet: bool) {
    p.minIdle > 0 && w.gone != {} ==> quiet
  }

  // On target: runners and requests meet min_idle on top of the busy runners, and
  // the uncovered demand on top of all runners; if anything was placed, they are no
  // more than that and within the cap.
  ghost predicate OnTarget(t: Table, t1: Table, q1: seq<Request>, p: Pool, deficit: nat, placed: seq<string>) {
    var active, idle, reached := |RunningIn(t, p.id)|, |IdleIn(t, p.id)|, |RunningIn(t1, p.id)| + QueuedFor(q1, p.id);
    && Meets(p, reached, p.minIdle + active - idle) && (deficit > 0 ==> Meets(p, reached, active + deficit))
    && (placed != [] ==>
          (reached <= p.minIdle + active - idle || (deficit > 0 && reached <= active + deficit)) &&
          (p.maxConcurrency > 0 ==> reached <= p.maxConcurrency))
  }

  // One cycle of a pool: what it found, the draining of the idle runners down to
  // mid, and what it placed from there; quiet says that it placed nothing.
  datatype Cycle = Cycle(p: Pool, poll: Option<seq<Option<nat>>>, grace: int, now: int,
                         start: Table, before: seq<Request>, idle: seq<Runner>, w: Walk, mid: Table,
                         placed: seq<string>, end: Table, after: seq<Request>, ok: bool, quiet: bool)

  predicate Answered(c: Cycle) {
    c.poll.Some? ==> |c.poll.value| == |c.p.targets|
  }

  function DemandIn(c: Cycle): seq<string>
    requires Answered(c)
  {
    DemandFor(c.p, c.poll, c.start)
  }

  function TargetIn(c: Cycle): int
    requires Answered(c)
  {
    TargetFor(c.p, c.start, |DemandIn(c)|)
  }

  // The draining and the growing half did their parts.
  ghost predicate Halves(c: Cycle) {
    && Answered(c) && IsIdleList(c.start, c.p.id, c.idle)
    && var left := |RunningIn(c.mid, c.p.id)|;
    && ScaledDown(c.start, c.mid, c.p, c.idle, left, TargetIn(c), c.w, c.grace, c.now)
    && GrownTo(c.mid, c.before, c.end, c.after, c.p, left, TargetIn(c), DemandIn(c), c.ok, c.placed, c.quiet,
               c.p.minIdle == 0 || c.p.polls, c.now)
  }

  lemma CycleOnTarget(c: Cycle)
    requires Halves(c)
    ensures NoThrash(c.p, c.w, c.quiet)
    ensures c.ok ==> OnTarget(c.start, c.end, c.after, c.p, |DemandIn(c)|, c.placed)
  {
    TargetMeets(c.p, |RunningIn(c.start, c.p.id)|, |IdleIn(c.start, c.p.id)|, |DemandIn(c)|);
  }

  // Growing a drained pool up to its target leaves it settled, and so does a
  // cycle that had nothing to grow.
  lemma GrownSettled(c: Cycle)
    requires Halves(c) && DemandIn(c) == [] && c.ok && c.w.vetoes == 0
    ensures Settled(c.p, c.end, c.after, c.grace, c.now)
  {
    IdleListed(c.start, c.p.id, c.idle);
    WalkCounts(c.start, c.mid, c.p.id, c.idle, c.w, c.now);
    GrownCounts(c.mid, c.end, c.p, c.p.minIdle == 0 || c.p.polls, c.now);
    Subsets(c.w.gone, IdleIn(c.start, c.p.id));
    SettledIs(c.p, c.end, c.after, c.grace, c.now);
  }

  lemma CycleSettles(c: Cycle)
    requires Halves(c) && DemandIn(c) == []
    ensures c.ok && c.w.vetoes == 0 ==> Settled(c.p, c.end, c.after, c.grace, c.now)
    ensures Settled(c.p, c.start, c.before, c.grace, c.now) ==>
      c.w.ev == [] && c.quiet && c.end == c.start && c.after == c.before
  {
    SettledIs(c.p, c.start, c.before, c.grace, c.now);
    if c.ok && c.w.vetoes == 0 { GrownSettled(c); }
  }

  lemma CycleCovers(c: Cycle)
    requires Halves(c) && c.ok && MustCover(c.p, c.poll, c.start, c.before, c.grace, c.now)
    ensures DemandCovered(c.p, c.poll, c.end, c.after)
  {
    NothingDrained(c.start, c.mid, c.p, c.idle, |RunningIn(c.mid, c.p.id)|, |DemandIn(c)|, c.w, c.grace, c.now);
    TargetMeets(c.p, |RunningIn(c.start, c.p.id)|, |IdleIn(c.start, c.p.id)|, |DemandIn(c)|);
    CoveredBy(c.p, c.poll, c.start, c.before, c.end, c.after, c.placed);
  }

  // What goes is on record as an idle drain; within the cap it goes by age only; what
  // the forge vetoed stays, unless the veto may be asked again.
  ghost predicate DrainsRight(c: Cycle)
    requires Answered(c)
  {
    && NoThrash(c.p, c.w, c.quiet) && c.w.reason == IdleDrain
    && (!(0 < c.p.maxConcurrency < |RunningIn(c.start, c.p.id)|) ==> OldEnough(c.p, c.start, c.w.gone, c.grace, c.now))
    && (c.w.gone !! c.w.vetoed || MayRetry(c.p, c.start, TargetIn(c), c.grace, c.now))
  }

  // Uncovered demand is placed first, the rest round robin over the targets, up to the
  // target of the cycle.
  ghost predicate GrowsRight(c: Cycle)
    requires Answered(c)
  {
    && DemandFirst(c.placed, DemandIn(c))
    && (c.p.targets != [] ==>
          RoundRobin(c.p.targets, c.placed, |DemandIn(c)|, |RunningIn(c.mid, c.p.id)|,
                     |RunningIn(c.end, c.p.id)| - |RunningIn(c.mid, c.p.id)|))
    && (c.ok && c.p.targets != [] ==> OnTarget(c.start, c.end, c.after, c.p, |DemandIn(c)|, c.placed))
  }

  // Without polled demand, a cycle with no veto and no spawn error settles the pool, and
  // a settled pool is left alone.
  ghost predicate SettlesRight(c: Cycle)
    requires Answered(c)
  {
    DemandIn(c) == [] ==>
      && (c.ok && c.w.vetoes == 0 && c.p.targets != [] ==> Settled(c.p, c.end, c.after, c.grace, c.now))
      && (Settled(c.p, c.start, c.before, c.grace, c.now) ==>
            c.w.ev == [] && c.quiet && c.end == c.start && c.after == c.before)
  }

  // All promises of one cycle; the last one: polled demand is met on every target.
  ghost predicate CyclePromise(c: Cycle)
    requires Answered(c)
  {
    && DrainsRight(c) && GrowsRight(c) && SettlesRight(c)
    && (c.ok && MustCover(c.p, c.poll, c.start, c.before, c.grace, c.now) ==> DemandCovered(c.p, c.poll, c.end, c.after))
  }

  lemma CycleDrains(c: Cycle)
    requires Halves(c)
    ensures DrainsRight(c)
  {
    CycleOnTarget(c);
  }

  lemma CycleGrows(c: Cycle)
    requires Halves(c)
    ensures GrowsRight(c)
  {
    if c.ok { CycleOnTarget(c); }
  }

  lemma CycleKeepsPromise(c: Cycle)
    requires Halves(c)
    ensures CyclePromise(c)
  {
    CycleDrains(c);
    CycleGrows(c);
    if DemandIn(c) == [] { CycleSettles(c); }
    if c.ok && MustCover(c.p, c.poll, c.start, c.before, c.grace, c.now) { CycleCovers(c); }
  }

  // A pool without targets is left alone.
  lemma NoTargets(c: Cycle)
    requires c.p.targets == [] && Answered(c) && c.w == START && c.quiet && c.ok
    requires c.end == c.start && c.after == c.before && c.placed == []
    ensures CyclePromise(c)
  {
  }

  // ---- All pools -----------------------------------------------------------

  ghost predicate DistinctIds(pools: seq<Pool>) {
    forall i, j :: 0 <= i < j < |pools| ==> pools[i].id != pools[j].id
  }

  // The first n pools need nothing, as far as they have targets.
  ghost predicate AllSettled(t: Table, q: seq<Request>, pools: seq<Pool>, n: nat, grace: int, now: int)
    requires n <= |pools|
  {
    forall i :: 0 <= i < n && pools[i].targets != [] ==> Settled(pools[i], t, q, grace, now)
  }

  // No polled target has a queued job.
  predicate Quiet(poll: Option<seq<Option<nat>>>) {
    poll.Some? ==> forall i :: 0 <= i < |poll.value| && poll.value[i].Some? ==> poll.value[i].value == 0
  }

  lemma {:induction false} QuietPolled(targets: seq<string>, answers: seq<Option<nat>>)
    requires |targets| == |answers| && Quiet(Some(answers))
    ensures forall x :: x in Polled(targets, answers) ==> Polled(targets, answers)[x] == 0
  {
    if targets != [] { QuietPolled(targets[..|targets| - 1], answers[..|targets| - 1]); }
  }

  lemma {:induction false} NoDemandQueue(targets: seq<string>, polled: map<string, nat>, t: Table, pool: nat)
    requires forall x :: x in polled ==> polled[x] == 0
    ensures DemandQueue(targets, polled, t, pool) == []
  {
    if targets != [] { NoDemandQueue(targets[..|targets| - 1], polled, t, pool); }
  }

  lemma QuietDemand(p: Pool, poll: Option<seq<Option<nat>>>, t: Table)
    requires Quiet(poll) && (poll.Some? ==> |poll.value| == |p.targets|)
    ensures DemandFor(p, poll, t) == []
  {
    if poll.Some? {
      QuietPolled(p.targets, poll.value);
      NoDemandQueue(p.targets, Polled(p.targets, poll.value), t, p.id);
    }
  }

  // A pool of another id is as it was.
  ghost predicate SamePool(t: Table, t1: Table, pool: nat) {
    forall s: Slot :: s.pool == pool ==> (s in t1 <==> s in t) && (s in t && s in t1 ==> t1[s] == t[s])
  }

  lemma CycleElsewhere(t: Table, mid: Table, t1: Table, p: Pool, idle: seq<Runner>, w: Walk, onDemand: bool, now: int, pool: nat)
    requires IsIdleList(t, p.id, idle) && DrainWalk(t, mid, p.id, idle, w, now) && w.vetoes == 0
    requires Grown(mid, t1, p, onDemand, now) && pool != p.id
    ensures SamePool(t, t1, pool)
  {
  }

  lemma {:induction false} QueueElsewhere(q: seq<Request>, q1: seq<Request>, p: Pool, pool: nat)
    requires QueueGrown(q, q1, p) && pool != p.id
    ensures QueuedFor(q1, pool) == QueuedFor(q, pool)
    decreases |q1|
  {
    if |q1| > |q| {
      QueueElsewhere(q, q1[..|q1| - 1], p, pool);
    } else {
      assert q1 == q;
    }
  }

  lemma SettledElsewhere(t: Table, t1: Table, q: seq<Request>, q1: seq<Request>, p: Pool, grace: int, now: int)
    requires SamePool(t, t1, p.id) && QueuedFor(q1, p.id) == QueuedFor(q, p.id)
    ensures Settled(p, t1, q1, grace, now) <==> Settled(p, t, q, grace, now)
  {
    assert RunningIn(t1, p.id) == RunningIn(t, p.id) && IdleIn(t1, p.id) == IdleIn(t, p.id);
    assert forall s :: s in IdleIn(t, p.id) ==> t1[s] == t[s];
  }

  // One more pool settled, the earlier ones undisturbed.
  lemma SettledNext(t: Table, mid: Table, t1: Table, q: seq<Request>, q1: seq<Request>, pools: seq<Pool>, i: nat,
                    idle: seq<Runner>, w: Walk, onDemand: bool, grace: int, now: int)
    requires i < |pools| && DistinctIds(pools) && AllSettled(t, q, pools, i, grace, now)
    requires IsIdleList(t, pools[i].id, idle) && DrainWalk(t, mid, pools[i].id, idle, w, now) && w.vetoes == 0
    requires Grown(mid, t1, pools[i], onDemand, now) && QueueGrown(q, q1, pools[i])
    requires pools[i].targets != [] ==> Settled(pools[i], t1, q1, grace, now)
    ensures AllSettled(t1, q1, pools, i + 1, grace, now)
  {
    forall j | 0 <= j < i && pools[j].targets != [] ensures Settled(pools[j], t1, q1, grace, now) {
      CycleElsewhere(t, mid, t1, pools[i], idle, w, onDemand, now, pools[j].id);
      QueueElsewhere(q, q1, pools[i], pools[j].id);
      SettledElsewhere(t, t1, q, q1, pools[j], grace, now);
    }
  }

  // A clean cycle of the next pool.
  lemma CycleSettlesNext(c: Cycle, pools: seq<Pool>, i: nat)
    requires i < |pools| && c.p == pools[i] && DistinctIds(pools) && AllSettled(c.start, c.before, pools, i, c.grace, c.now)
    requires Answered(c) && Quiet(c.poll) && CyclePromise(c) && c.ok && c.w.vetoes == 0
    requires IsIdleList(c.start, c.p.id, c.idle) && DrainWalk(c.start, c.mid, c.p.id, c.idle, c.w, c.now)
    requires Grown(c.mid, c.end, c.p, c.p.minIdle == 0 || c.p.polls, c.now) && QueueGrown(c.before, c.after, c.p)
    ensures AllSettled(c.end, c.after, pools, i + 1, c.grace, c.now)
  {
    QuietDemand(c.p, c.poll, c.start);
    SettledNext(c.start, c.mid, c.end, c.before, c.after, pools, i, c.idle, c.w, c.p.minIdle == 0 || c.p.polls, c.grace, c.now);
  }

  // A cycle of a settled pool.
  lemma CycleRests(c: Cycle)
    requires Answered(c) && Quiet(c.poll) && CyclePromise(c) && Settled(c.p, c.start, c.before, c.grace, c.now)
    ensures c.w.ev == [] && c.quiet && c.end == c.start && c.after == c.before
  {
    QuietDemand(c.p, c.poll, c.start);
  }
}
