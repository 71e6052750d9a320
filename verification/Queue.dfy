// The internal provisioning queue, drainQueue of
// internal/orchestrator/controller.go: what becomes of each request.
module Queue {
  import opened Basics
  import opened Tracking
  import opened Fleet

  datatype Fate = Launched | Dropped | Kept

  // Pools are looked up by name; the last one of a name wins.
  function PoolNamed(pools: seq<Pool>, name: string): Option<Pool> {
    if pools == [] then None
    else if pools[|pools| - 1].name == name then Some(pools[|pools| - 1])
    else PoolNamed(pools[..|pools| - 1], name)
  }

  // The requests with one fate, in queue order.
  function With(fate: Fate, queue: seq<Request>, fates: seq<Fate>): seq<Request>
    requires |queue| == |fates|
  {
    if queue == [] then []
    else
      var n := |queue| - 1;
      With(fate, queue[..n], fates[..n]) + if fates[n] == fate then [queue[n]] else []
  }

  function Spawns(ev: seq<Event>): seq<Event> {
    if ev == [] then []
    else Spawns(ev[..|ev| - 1]) + if ev[|ev| - 1].Spawned? then [ev[|ev| - 1]] else []
  }

  // t1 is t plus newly created on-demand containers.
  ghost predicate Extended(t: Table, t1: Table, now: int) {
    && t.Keys <= t1.Keys && (forall s :: s in t ==> t1[s] == t[s])
    && (forall s :: s in t1 && s !in t ==>
          t1[s].running && !t1[s].busy && t1[s].onDemand && t1[s].spawnedAt == now && t1[s].busySince == 0)
  }

  lemma ExtendedMore(t: Table, t1: Table, now: int, pool: nat)
    requires Extended(t, t1, now)
    ensures |AllRunning(t)| <= |AllRunning(t1)| && |RunningIn(t, pool)| <= |RunningIn(t1, pool)|
  {
    Subsets(AllRunning(t), AllRunning(t1));
    Subsets(RunningIn(t, pool), RunningIn(t1, pool));
  }

  ghost predicate Full(t: Table, quota: int) {
    0 < quota <= |AllRunning(t)|
  }

  lemma StaysFull(t: Table, t1: Table, p: Pool, onDemand: bool, quota: int, now: int)
    requires Grown(t, t1, p, onDemand, now)
    ensures Full(t, quota) ==> Full(t1, quota)
  {
    Subsets(AllRunning(t), AllRunning(t1));
  }

  // Why a request may have its fate, given the table and events afterwards.
  ghost predicate Justified(r: Request, fate: Fate, t: Table, pools: seq<Pool>, quota: int, ev: seq<Event>) {
    var p := PoolNamed(pools, r.poolName);
    match fate
    case Launched => p.Some?
    case Dropped => p.None?
    case Kept =>
      || Full(t, quota)
      || (p.Some? && (0 < p.value.maxConcurrency <= |RunningIn(t, p.value.id)| || SpawnFailed(p.value.id) in ev))
  }

  // The k-th container was created for the k-th launched request.
  ghost predicate Serves(e: Event, r: Request, pools: seq<Pool>) {
    && e.Spawned? && PoolNamed(pools, r.poolName).Some? && e.slot.pool == PoolNamed(pools, r.poolName).value.id
    && OnTargetOf(e, r, PoolNamed(pools, r.poolName).value)
  }

  // On the request's own target, or on the one that the pool's running count selects.
  ghost predicate OnTargetOf(e: Event, r: Request, p: Pool)
    requires e.Spawned?
  {
    && (r.target != "" ==> e.target == r.target)
    && (r.target == "" && p.targets != [] && "" !in p.targets ==> e.target == p.targets[e.before % |p.targets|])
  }

  // Every request of the queue met exactly one fate, in order: rest is what is
  // kept, and the containers created are those of the launched ones.
  ghost predicate QueueDrained(t: Table, t1: Table, queue: seq<Request>, fates: seq<Fate>, rest: seq<Request>, pools: seq<Pool>,
                          quota: int, ev: seq<Event>, now: int) {
    && |fates| == |queue| && rest == With(Kept, queue, fates)
    && Extended(t, t1, now)
    && (forall i :: 0 <= i < |queue| ==> Justified(queue[i], fates[i], t1, pools, quota, ev))
    && Matched(Spawns(ev), With(Launched, queue, fates), pools)
    && |AllRunning(t1)| == |AllRunning(t)| + |Spawns(ev)|
    && Fifo(queue, fates, pools, ev) && (Full(t, quota) ==> rest == queue && ev == [])
  }

  ghost predicate Matched(spawns: seq<Event>, launched: seq<Request>, pools: seq<Pool>) {
    |spawns| == |launched| && forall k :: 0 <= k < |spawns| ==> Serves(spawns[k], launched[k], pools)
  }

  lemma {:induction false} SpawnsAppend(a: seq<Event>, b: seq<Event>)
    ensures Spawns(a + b) == Spawns(a) + Spawns(b)
  {
    if b == [] {
      assert a + b == a;
    } else {
      SpawnsAppend(a, b[..|b| - 1]);
      assert (a + b)[..|a + b| - 1] == a + b[..|b| - 1];
    }
  }

  // Handling one more request.
  lemma QueueNext(t: Table, t1: Table, t2: Table, queue: seq<Request>, fates: seq<Fate>, rest: seq<Request>, pools: seq<Pool>,
                    quota: int, ev: seq<Event>, r: Request, fate: Fate, more: seq<Event>, now: int)
    requires QueueDrained(t, t1, queue, fates, rest, pools, quota, ev, now) && Extended(t1, t2, now)
    requires Justified(r, fate, t2, pools, quota, more) && (fate == Launched ==> HasRoom(r, t1, pools, quota))
    requires Full(t1, quota) ==> fate == Kept && more == []
    requires |AllRunning(t2)| == |AllRunning(t1)| + |Spawns(more)|
    requires if fate == Launched then |more| == 1 && Serves(more[0], r, pools) else Spawns(more) == []
    ensures QueueDrained(t, t2, queue + [r], fates + [fate], if fate == Kept then rest + [r] else rest, pools, quota, ev + more, now)
  {
    var queue1, fates1 := queue + [r], fates + [fate];
    assert queue1[..|queue|] == queue && fates1[..|queue|] == fates;
    SpawnsAppend(ev, more);
    FifoNext(t1, queue, fates, pools, quota, ev, r, fate, more);
    ExtendedMore(t, t1, now, 0);
    forall i | 0 <= i < |queue1| ensures Justified(queue1[i], fates1[i], t2, pools, quota, ev + more) {
      if i < |queue| {
        assert Justified(queue[i], fates[i], t1, pools, quota, ev);
        StillJustified(queue[i], fates[i], t1, t2, pools, quota, ev, more, now);
      } else {
        StillJustified(r, fate, t2, t2, pools, quota, more, [], now);
        JustifiedAppend(r, fate, t2, pools, quota, ev, more);
      }
    }
  }

  lemma StillJustified(r: Request, fate: Fate, t: Table, t1: Table, pools: seq<Pool>, quota: int, ev: seq<Event>,
                       more: seq<Event>, now: int)
    requires Justified(r, fate, t, pools, quota, ev) && Extended(t, t1, now)
    ensures Justified(r, fate, t1, pools, quota, ev + more)
  {
    var p := PoolNamed(pools, r.poolName);
    ExtendedMore(t, t1, now, if p.Some? then p.value.id else 0);
  }

  lemma JustifiedAppend(r: Request, fate: Fate, t: Table, pools: seq<Pool>, quota: int, ev: seq<Event>, more: seq<Event>)
    requires Justified(r, fate, t, pools, quota, more)
    ensures Justified(r, fate, t, pools, quota, ev + more)
  {
  }

  // First come, first served: a request overtakes an older one of its pool only after
  // a spawn error of that pool.
  ghost predicate Fifo(queue: seq<Request>, fates: seq<Fate>, pools: seq<Pool>, ev: seq<Event>)
    requires |queue| == |fates|
  {
    forall i, j :: 0 <= i < j < |queue| && fates[i] == Kept && fates[j] == Launched && queue[i].poolName == queue[j].poolName ==>
      PoolNamed(pools, queue[i].poolName).Some? && SpawnFailed(PoolNamed(pools, queue[i].poolName).value.id) in ev
  }

  // There is room for the request.
  ghost predicate HasRoom(r: Request, t: Table, pools: seq<Pool>, quota: int) {
    var p := PoolNamed(pools, r.poolName);
    !Full(t, quota) && p.Some? && !(0 < p.value.maxConcurrency <= |RunningIn(t, p.value.id)|)
  }

  lemma FifoNext(t1: Table, queue: seq<Request>, fates: seq<Fate>, pools: seq<Pool>,
                 quota: int, ev: seq<Event>, r: Request, fate: Fate, more: seq<Event>)
    requires |queue| == |fates| && Fifo(queue, fates, pools, ev)
    requires forall i :: 0 <= i < |queue| ==> Justified(queue[i], fates[i], t1, pools, quota, ev)
    requires fate == Launched ==> HasRoom(r, t1, pools, quota)
    ensures Fifo(queue + [r], fates + [fate], pools, ev + more)
  {
    var queue1, fates1 := queue + [r], fates + [fate];
    forall i, j | 0 <= i < j < |queue1| && fates1[i] == Kept && fates1[j] == Launched && queue1[i].poolName == queue1[j].poolName
      ensures PoolNamed(pools, queue1[i].poolName).Some? &&
        SpawnFailed(PoolNamed(pools, queue1[i].poolName).value.id) in ev + more
    {
      assert queue1[i] == queue[i] && fates1[i] == fates[i];
      if j == |queue| {
        assert Justified(queue[i], fates[i], t1, pools, quota, ev);
      } else {
        assert queue1[j] == queue[j] && fates1[j] == fates[j];
      }
    }
  }

  // Whoever waits, waits for a reason.
  ghost predicate AllStuck(queue: seq<Request>, t: Table, pools: Option<seq<Pool>>, quota: int, ev: seq<Event>) {
    pools.Some? ==> forall r :: r in queue ==> Justified(r, Kept, t, pools.value, quota, ev)
  }

  lemma {:induction false} WithIndex(fate: Fate, queue: seq<Request>, fates: seq<Fate>, r: Request) returns (i: nat)
    requires |queue| == |fates| && r in With(fate, queue, fates)
    ensures i < |queue| && queue[i] == r && fates[i] == fate
  {
    var n := |queue| - 1;
    if fates[n] == fate && queue[n] == r { i := n; } else { i := WithIndex(fate, queue[..n], fates[..n], r); }
  }

  // After a drain of the queue, which followed pre.
  lemma DrainedStuck(t: Table, t1: Table, queue: seq<Request>, fates: seq<Fate>, rest: seq<Request>, pools: seq<Pool>,
                     quota: int, pre: seq<Event>, ev: seq<Event>, now: int)
    requires QueueDrained(t, t1, queue, fates, rest, pools, quota, ev, now)
    ensures AllStuck(rest, t1, Some(pools), quota, pre + ev)
  {
    forall r | r in rest ensures Justified(r, Kept, t1, pools, quota, pre + ev) {
      var i := WithIndex(Kept, queue, fates, r);
      assert Justified(queue[i], fates[i], t1, pools, quota, ev);
      JustifiedAppend(r, Kept, t1, pools, quota, pre, ev);
    }
  }

  lemma StillStuck(queue: seq<Request>, t: Table, pools: Option<seq<Pool>>, quota: int, pre: seq<Event>, ev: seq<Event>)
    requires AllStuck(queue, t, pools, quota, ev)
    ensures AllStuck(queue, t, pools, quota, pre + ev)
  {
    if pools.Some? {
      forall r | r in queue ensures Justified(r, Kept, t, pools.value, quota, pre + ev) {
        JustifiedAppend(r, Kept, t, pools.value, quota, pre, ev);
      }
    }
  }

  function Occurs(r: Request, queue: seq<Request>): nat {
    if queue == [] then 0 else Occurs(r, queue[..|queue| - 1]) + if queue[|queue| - 1] == r then 1 else 0
  }

  lemma OccursSnoc(r: Request, queue: seq<Request>, last: Request)
    ensures Occurs(r, queue + [last]) == Occurs(r, queue) + if last == r then 1 else 0
  {
    assert (queue + [last])[..|queue|] == queue;
  }

  lemma OccursWith(fate: Fate, queue: seq<Request>, fates: seq<Fate>, r: Request)
    requires |queue| == |fates| > 0
    ensures var n := |queue| - 1;
      Occurs(r, With(fate, queue, fates)) ==
      Occurs(r, With(fate, queue[..n], fates[..n])) + if fates[n] == fate && queue[n] == r then 1 else 0
  {
    var n := |queue| - 1;
    var before := With(fate, queue[..n], fates[..n]);
    OccursSnoc(r, before, queue[n]);
    assert With(fate, queue, fates) == if fates[n] == fate then before + [queue[n]] else before;
  }

  // Nothing is lost or duplicated: the fates partition the queue.
  lemma {:induction false} FatesPartition(queue: seq<Request>, fates: seq<Fate>, r: Request)
    requires |queue| == |fates|
    ensures Occurs(r, queue) ==
      Occurs(r, With(Launched, queue, fates)) + Occurs(r, With(Dropped, queue, fates)) + Occurs(r, With(Kept, queue, fates))
  {
    if queue != [] {
      var n := |queue| - 1;
      FatesPartition(queue[..n], fates[..n], r);
      OccursWith(Launched, queue, fates, r);
      OccursWith(Dropped, queue, fates, r);
      OccursWith(Kept, queue, fates, r);
    }
  }

  // ... in their order: a request follows those of its fate that were before it.
  lemma {:induction false} FatesInOrder(fate: Fate, queue: seq<Request>, fates: seq<Fate>, n: nat)
    requires |queue| == |fates| && n < |queue|
    ensures With(fate, queue[..n], fates[..n]) + (if fates[n] == fate then [queue[n]] else []) <= With(fate, queue, fates)
  {
    var m := |queue| - 1;
    if n < m {
      FatesInOrder(fate, queue[..m], fates[..m], n);
      assert queue[..m][..n] == queue[..n] && fates[..m][..n] == fates[..n];
    }
  }

  // ---- Requests and renamed pools ------------------------------------------

  // A request names its pool by id and by name; the drain goes by the name.
  // What the pool with the request's id may expect: only it is served, and its
  // requests are dropped only when it has no row.
  predicate RightFate(r: Request, fate: Fate, e: Event, pools: seq<Pool>) {
    && (fate == Launched ==> e.Spawned? && e.slot.pool == r.pool)
    && (fate == Dropped ==> forall p :: p in pools ==> p.id != r.pool)
  }

  // The fate of a request, with the container created if it is launched.
  ghost predicate Possible(r: Request, fate: Fate, e: Event, pools: seq<Pool>, t: Table, quota: int, ev: seq<Event>) {
    Justified(r, fate, t, pools, quota, ev) && (fate == Launched ==> Serves(e, r, pools))
  }

  // The request's name is still the name of the pool with its id and of no later
  // pool, or both are gone.
  ghost predicate StillNamed(r: Request, pools: seq<Pool>) {
    || (exists i :: 0 <= i < |pools| && pools[i].id == r.pool && LastNamed(pools, i, r.poolName))
    || (forall p :: p in pools ==> p.id != r.pool && p.name != r.poolName)
  }

  predicate LastNamed(pools: seq<Pool>, i: nat, name: string)
    requires i < |pools|
  {
    pools[i].name == name && forall j :: i < j < |pools| ==> pools[j].name != name
  }

  lemma {:induction false} NamedLast(pools: seq<Pool>, name: string)
    ensures PoolNamed(pools, name).None? ==> forall p :: p in pools ==> p.name != name
    ensures PoolNamed(pools, name).Some? ==>
      exists i :: 0 <= i < |pools| && pools[i] == PoolNamed(pools, name).value && LastNamed(pools, i, name)
  {
    if pools != [] {
      var n := |pools| - 1;
      if pools[n].name == name {
        assert LastNamed(pools, n, name);
      } else {
        NamedLast(pools[..n], name);
        assert pools == pools[..n] + [pools[n]];
        if PoolNamed(pools[..n], name).Some? {
          var i :| 0 <= i < n && pools[..n][i] == PoolNamed(pools[..n], name).value && LastNamed(pools[..n], i, name);
          assert LastNamed(pools, i, name);
        }
      }
    }
  }

  lemma StillNamedIs(r: Request, pools: seq<Pool>)
    ensures StillNamed(r, pools) <==>
      match PoolNamed(pools, r.poolName) { case Some(p) => p.id == r.pool case None => forall p :: p in pools ==> p.id != r.pool }
  {
    NamedLast(pools, r.poolName);
    if PoolNamed(pools, r.poolName).Some? {
      var i :| 0 <= i < |pools| && pools[i] == PoolNamed(pools, r.poolName).value && LastNamed(pools, i, r.poolName);
      assert pools[i] in pools;
      forall k | 0 <= k < |pools| && LastNamed(pools, k, r.poolName) ensures k == i { }
    }
  }

  // Every possible fate of a request is right for the pool it was made for
  // exactly when the request is still rightly named.
  lemma FateByName(r: Request, pools: seq<Pool>)
    ensures (forall fate, e, t, quota, ev :: Possible(r, fate, e, pools, t, quota, ev) ==> RightFate(r, fate, e, pools)) <==>
      StillNamed(r, pools)
  {
    StillNamedIs(r, pools);
    var found := PoolNamed(pools, r.poolName);
    if !StillNamed(r, pools) {
      var fate := if found.Some? then Launched else Dropped;
      var target := if r.target == "" && found.Some? && found.value.targets != [] then found.value.targets[0] else r.target;
      var e := Spawned(Slot(if found.Some? then found.value.id else 0, ""), target, 0, 0, 0, 0);
      assert Possible(r, fate, e, pools, map[], 0, []);
    }
  }

  // A renamed pool: its request can only be dropped, unless the quota is used up.
  lemma RenamedIsDropped(t: Table, quota: int, ev: seq<Event>, fate: Fate, p: Pool)
    requires p.id == 1 && p.name == "new" && !Full(t, quota)
    requires Justified(Request(1, "old", ""), fate, t, [p], quota, ev)
    ensures fate == Dropped
  {
    assert PoolNamed([p], "old").None? by { NamedLast([p], "old"); }
  }

  // A pool that took over the name is served in its place.
  lemma TakenNameIsServed(p: Pool, q: Pool, e: Event)
    requires p.id == 1 && p.name == "b" && q.id == 2 && q.name == "a"
    ensures Serves(e, Request(1, "a", "x"), [p, q]) <==> e.Spawned? && e.slot.pool == 2 && e.target == "x"
  {
    assert PoolNamed([p, q], "a") == Some(q) && OnTargetOf(Spawned(Slot(2, ""), "x", 0, 0, 0, 0), Request(1, "a", "x"), q);
  }

  lemma {:induction false} WithMembers(fate: Fate, queue: seq<Request>, fates: seq<Fate>)
    requires |queue| == |fates|
    ensures forall r :: r in With(fate, queue, fates) ==> r in queue
  {
    if queue != [] {
      WithMembers(fate, queue[..|queue| - 1], fates[..|queue| - 1]);
    }
  }

  // While no pool of a queued request was renamed, a drained queue is right by
  // id: containers go to the pools of the launched requests, and only requests of
  // pools without a row are dropped.
  lemma FatesById(t: Table, t1: Table, queue: seq<Request>, fates: seq<Fate>, rest: seq<Request>, pools: seq<Pool>,
                  quota: int, ev: seq<Event>, now: int)
    requires QueueDrained(t, t1, queue, fates, rest, pools, quota, ev, now)
    requires forall r :: r in queue ==> StillNamed(r, pools)
    ensures |Spawns(ev)| == |With(Launched, queue, fates)|
    ensures forall k :: 0 <= k < |Spawns(ev)| ==> Spawns(ev)[k].Spawned? && Spawns(ev)[k].slot.pool == With(Launched, queue, fates)[k].pool
    ensures forall i :: 0 <= i < |queue| && fates[i] == Dropped ==> forall p :: p in pools ==> p.id != queue[i].pool
  {
    WithMembers(Launched, queue, fates);
    var launched := With(Launched, queue, fates);
    forall k | 0 <= k < |launched| ensures Spawns(ev)[k].Spawned? && Spawns(ev)[k].slot.pool == launched[k].pool {
      assert launched[k] in launched;
      StillNamedIs(launched[k], pools);
    }
    forall i | 0 <= i < |queue| && fates[i] == Dropped ensures forall p :: p in pools ==> p.id != queue[i].pool {
      assert queue[i] in queue && Justified(queue[i], fates[i], t1, pools, quota, ev);
      StillNamedIs(queue[i], pools);
    }
  }
}
