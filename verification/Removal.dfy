// What a reconcile cycle may remove: the lifetime switch, the drain backstop and
// the ownership gate of internal/orchestrator/controller.go.
module Removal {
  import opened Basics
  import opened Tracking
  import opened Fleet
  import opened Queue

  datatype DrainEntry = DrainEntry(name: string, limit: int)

  // What the tombstone lookup answered for a tracked pool without a row.
  datatype Tombstone = Deleted | NoTombstone | LookupFailed

  // ---- Killing overdue runners ---------------------------------------------

  function Doomed(t: Table, pool: nat, limit: int, now: int): set<Slot> {
    set s | s in t && s.pool == pool && Overdue(t[s], limit, now)
  }

  // They run, are busy, and are past the limit since their anchor, which is their spawn
  // if they have no other.
  lemma DoomedWhen(t: Table, pool: nat, limit: int, now: int, s: Slot)
    requires s in t
    ensures var r := t[s];
      s in Doomed(t, pool, limit, now) <==>
      s.pool == pool && r.running && r.busy &&
      (if r.busySince != 0 then now - r.busySince > limit else r.spawnedAt != 0 && now - r.spawnedAt > limit)
  {
  }

  // gone left the table for good; what is new was created under an id unused so
  // far and is idle.
  ghost predicate Purged(t: Table, t1: Table, gone: set<Slot>, was: set<string>) {
    && (forall s :: s in gone ==> s in t)
    && (forall s :: s in t ==> (s in t1 <==> s !in gone))
    && (forall s :: s in t && s in t1 ==> t1[s] == t[s])
    && (forall s :: s in t1 && s !in t ==> s.id !in was && t1[s].running && !t1[s].busy)
  }

  ghost predicate FreshIds(t: Table, t1: Table, was: set<string>) {
    forall s :: s in t1 && s !in t ==> s.id !in was
  }

  lemma PurgedTwice(t: Table, t1: Table, t2: Table, a: set<Slot>, b: set<Slot>, was: set<string>, was1: set<string>)
    requires Purged(t, t1, a, was) && Purged(t1, t2, b, was1) && was <= was1
    requires (forall s :: s in t ==> s.id in was) && forall s :: s in b ==> s in t
    ensures Purged(t, t2, a + b, was)
  {
  }

  // Removing one runner and then launching queued requests.
  lemma PurgedOne(t: Table, t1: Table, t2: Table, s: Slot, was: set<string>, now: int)
    requires s in t && t1 == t - {s} && Extended(t1, t2, now) && FreshIds(t1, t2, was)
    requires forall k :: k in t ==> k.id in was
    ensures Purged(t, t2, {s}, was)
  {
  }

  // The same for a container that may be gone already.
  lemma PurgedReap(t: Table, t1: Table, t2: Table, s: Slot, was: set<string>, now: int)
    requires t1 == t - {s} && Extended(t1, t2, now) && FreshIds(t1, t2, was)
    requires s.id in was && forall k :: k in t ==> k.id in was
    ensures Purged(t, t2, if s in t then {s} else {}, was)
  {
  }

  // Every removal among the events is a lifetime kill of a doomed runner, and
  // every doomed runner has one.
  ghost predicate Kills(t: Table, gone: set<Slot>, ev: seq<Event>, limit: int, now: int) {
    && (forall e :: e in ev && e.Removed? ==> KillOf(t, e, limit, now) && e.slot in gone)
    && (forall s :: s in gone ==> exists e :: e in ev && e.Removed? && e.slot == s)
  }

  ghost predicate KillOf(t: Table, e: Event, limit: int, now: int) {
    e.Removed? && e.reason == LifetimeLimit && e.slot in t && e.runner == t[e.slot] && e.limit == limit && e.at == now &&
    Overdue(e.runner, limit, now)
  }

  lemma KillsMore(t: Table, gone: set<Slot>, ev: seq<Event>, limit: int, now: int, s: Slot, kill: Event, tail: seq<Event>)
    requires Kills(t, gone, ev, limit, now) && KillOf(t, kill, limit, now) && kill.slot == s
    requires forall e :: e in tail ==> !e.Removed?
    ensures Kills(t, gone + {s}, ev + ([kill] + tail), limit, now)
  {
    var all := ev + ([kill] + tail);
    assert forall e :: e in all <==> e in ev || e == kill || e in tail;
  }

  // The rows of a snapshot that are overdue.
  function OverdueRows(pool: nat, rs: seq<Runner>, limit: int, now: int): set<Slot> {
    set r | r in rs && Overdue(r, limit, now) :: Slot(pool, r.id)
  }

  lemma OverdueNext(pool: nat, rs: seq<Runner>, i: nat, limit: int, now: int)
    requires i < |rs|
    ensures OverdueRows(pool, rs[..i + 1], limit, now) ==
      OverdueRows(pool, rs[..i], limit, now) + if Overdue(rs[i], limit, now) then {Slot(pool, rs[i].id)} else {}
  {
    TakeNext(rs, i);
  }

  lemma OverdueAll(t: Table, pool: nat, rs: seq<Runner>, limit: int, now: int)
    requires IsSnapshot(t, pool, rs)
    ensures OverdueRows(pool, rs, limit, now) == Doomed(t, pool, limit, now)
  {
    forall s ensures s in OverdueRows(pool, rs, limit, now) <==> s in Doomed(t, pool, limit, now) {
      if s in Doomed(t, pool, limit, now) {
        var i :| 0 <= i < |rs| && rs[i].id == s.id;
        assert rs[i] in rs;
      }
    }
  }

  // ---- Reaping -------------------------------------------------------------

  const RECENT_REMOVAL_TTL := 300_000_000_000 // 5 minutes

  // How often the container was recorded as reaped.
  function Reaps(ev: seq<Event>, s: Slot): nat {
    if ev == [] then 0
    else
      var e := ev[|ev| - 1];
      Reaps(ev[..|ev| - 1], s) + if e.Removed? && e.reason == Reap && e.slot == s then 1 else 0
  }

  ghost predicate NoReap(ev: seq<Event>) {
    forall e :: e in ev && e.Removed? ==> e.reason != Reap
  }

  lemma {:induction false} ReapsAppend(a: seq<Event>, b: seq<Event>, s: Slot)
    ensures Reaps(a + b, s) == Reaps(a, s) + Reaps(b, s)
  {
    if b == [] {
      PlusNothing(a);
    } else {
      ReapsAppend(a, b[..|b| - 1], s);
      assert (a + b)[..|a + b| - 1] == a + b[..|b| - 1];
    }
  }

  lemma {:induction false} NoReaps(ev: seq<Event>, s: Slot)
    requires NoReap(ev)
    ensures Reaps(ev, s) == 0
  {
    if ev != [] {
      assert ev[|ev| - 1] in ev;
      assert forall e :: e in ev[..|ev| - 1] ==> e in ev;
      NoReaps(ev[..|ev| - 1], s);
    }
  }

  // Each of the dead is recorded once, unless the supervisor had removed it itself
  // within the last five minutes; nobody else is.
  ghost predicate DeadRecorded(ev: seq<Event>, dead: set<Slot>, removed: map<string, int>, now: int) {
    forall s :: Reaps(ev, s) ==
      if s in dead && !(s.id in removed && now - removed[s.id] <= RECENT_REMOVAL_TTL) then 1 else 0
  }

  lemma RecordedMore(ev: seq<Event>, more: seq<Event>, dead: set<Slot>, removed: map<string, int>, now: int)
    requires DeadRecorded(ev, dead, removed, now) && NoReap(more)
    ensures DeadRecorded(ev + more, dead, removed, now)
  {
    forall s ensures Reaps(ev + more, s) == Reaps(ev, s) {
      ReapsAppend(ev, more, s);
      NoReaps(more, s);
    }
  }

  // The memory of the supervisor's own removals after reaping some ids.
  ghost predicate Remembered(before: map<string, int>, removed: map<string, int>, ids: set<string>, now: int) {
    forall id :: id !in ids ==>
      (id in removed && now - removed[id] <= RECENT_REMOVAL_TTL <==> id in before && now - before[id] <= RECENT_REMOVAL_TTL)
  }

  function RowIdsOf(rows: seq<Runner>): set<string> {
    set r | r in rows :: r.id
  }

  // The record of one reaped container.
  ghost predicate ReapedOne(r: Runner, more: seq<Event>, removed: map<string, int>, now: int) {
    forall s :: Reaps(more, s) ==
      if s == KeyOf(r) && !(s.id in removed && now - removed[s.id] <= RECENT_REMOVAL_TTL) then 1 else 0
  }

  lemma ReapedOneIs(r: Runner, first: seq<Event>, tail: seq<Event>, removed: map<string, int>, now: int)
    requires NoRemoval(tail)
    requires if r.id in removed && now - removed[r.id] <= RECENT_REMOVAL_TTL then NoRemoval(first)
             else |first| == 1 && first[0].Removed? && first[0].reason == Reap && first[0].slot == KeyOf(r)
    ensures ReapedOne(r, first + tail, removed, now)
  {
    forall s ensures Reaps(first + tail, s) ==
      if s == KeyOf(r) && !(s.id in removed && now - removed[s.id] <= RECENT_REMOVAL_TTL) then 1 else 0
    {
      ReapsAppend(first, tail, s);
      NoReaps(tail, s);
      if NoReap(first) { NoReaps(first, s); } else { assert first == [] + [first[0]]; }
    }
  }

  lemma RecordedNext(ev: seq<Event>, more: seq<Event>, exited: seq<Runner>, i: nat, before: map<string, int>,
                     removed: map<string, int>, now: int)
    requires i < |exited| && Distinct(exited) && DeadRecorded(ev, KeysOf(exited[..i]), before, now)
    requires Remembered(before, removed, RowIdsOf(exited[..i]), now) && ReapedOne(exited[i], more, removed, now)
    ensures DeadRecorded(ev + more, KeysOf(exited[..i + 1]), before, now)
  {
    TakeNext(exited, i);
    KeysSnoc(exited[..i], exited[i]);
    assert exited[i].id !in RowIdsOf(exited[..i]);
    assert KeyOf(exited[i]) !in KeysOf(exited[..i]);
    forall s ensures Reaps(ev + more, s) ==
      if s in KeysOf(exited[..i + 1]) && !(s.id in before && now - before[s.id] <= RECENT_REMOVAL_TTL) then 1 else 0
    {
      ReapsAppend(ev, more, s);
    }
  }

  lemma RememberedNext(exited: seq<Runner>, i: nat, before: map<string, int>, removed: map<string, int>,
                       removed1: map<string, int>, now: int)
    requires i < |exited| && Remembered(before, removed, RowIdsOf(exited[..i]), now) && Remembered(removed, removed1, {exited[i].id}, now)
    ensures Remembered(before, removed1, RowIdsOf(exited[..i + 1]), now)
  {
    TakeNext(exited, i);
    assert RowIdsOf(exited[..i + 1]) == RowIdsOf(exited[..i]) + {exited[i].id};
  }

  // A listing that names nobody twice has rows that name nobody twice.
  lemma {:induction false} RowsDistinct(t: Table, resolve: Resolver, listing: seq<Runner>)
    requires Distinct(listing)
    ensures Distinct(Rows(t, resolve, listing)) && |Rows(t, resolve, listing)| == |listing|
  {
    if listing != [] {
      var before := listing[..|listing| - 1];
      RowsDistinct(t, resolve, before);
      RowIds(t, resolve, before);
      assert forall r :: r in before ==> r.id != listing[|listing| - 1].id;
    }
  }

  lemma ExitedDistinct(t: Table, resolve: Resolver, listing: seq<Runner>)
    requires Distinct(listing)
    ensures Distinct(Exited(t, resolve, listing))
  {
    RowsDistinct(t, resolve, listing);
    SelectDistinct(IsExited, Rows(t, resolve, listing));
  }

  // Reaping midway: of the audited containers exactly the first n dead ones are gone.
  ghost predicate ReapedSoFar(t: Table, reaped: set<Slot>, exited: seq<Runner>, n: nat)
    requires n <= |exited|
  {
    forall s :: s in t ==> (s in reaped <==> s in KeysOf(exited[..n]))
  }

  lemma ReapedNext(t: Table, t1: Table, reaped: set<Slot>, was: set<string>, exited: seq<Runner>, i: nat)
    requires Purged(t, t1, reaped, was) && i < |exited| && ReapedSoFar(t, reaped, exited, i)
    ensures ReapedSoFar(t, reaped + if KeyOf(exited[i]) in t1 then {KeyOf(exited[i])} else {}, exited, i + 1)
  {
    TakeNext(exited, i);
    assert KeysOf(exited[..i + 1]) == KeysOf(exited[..i]) + {KeyOf(exited[i])};
  }

  // Everything a reaping knows after the first n dead rows.
  ghost predicate Reaping(t: Table, t1: Table, reaped: set<Slot>, was: set<string>, exited: seq<Runner>, n: nat, ev: seq<Event>,
                          before: map<string, int>, removed: map<string, int>, now: int)
    requires n <= |exited|
  {
    && Purged(t, t1, reaped, was) && ReapedSoFar(t, reaped, exited, n)
    && Remembered(before, removed, RowIdsOf(exited[..n]), now)
    && (Distinct(exited) ==> DeadRecorded(ev, KeysOf(exited[..n]), before, now))
    && (forall e :: e in ev && e.Removed? ==> e.reason == Reap && !e.runner.running)
  }

  lemma ReapingStart(t: Table, was: set<string>, exited: seq<Runner>, ev: seq<Event>, removed: map<string, int>, now: int)
    requires NoRemoval(ev)
    ensures Reaping(t, t, {}, was, exited, 0, ev, removed, removed, now)
  {
    forall s ensures Reaps(ev, s) == 0 { NoReaps(ev, s); }
  }

  lemma ReapingNext(t: Table, t1: Table, t2: Table, reaped: set<Slot>, was: set<string>, was1: set<string>, exited: seq<Runner>, i: nat,
                    ev: seq<Event>, more: seq<Event>, before: map<string, int>, removed: map<string, int>,
                    removed1: map<string, int>, now: int)
    requires i < |exited| && Reaping(t, t1, reaped, was, exited, i, ev, before, removed, now) && was <= was1
    requires forall s :: s in t ==> s.id in was
    requires var key := KeyOf(exited[i]); key.id in was && Purged(t1, t2, if key in t1 then {key} else {}, was1)
    requires ReapedOne(exited[i], more, removed, now) && Remembered(removed, removed1, {exited[i].id}, now)
    requires forall e :: e in more && e.Removed? ==> e.reason == Reap && !e.runner.running
    ensures Reaping(t, t2, reaped + (if KeyOf(exited[i]) in t1 then {KeyOf(exited[i])} else {}), was, exited, i + 1, ev + more,
                    before, removed1, now)
  {
    var key := KeyOf(exited[i]);
    ReapedNext(t, t1, reaped, was, exited, i);
    PurgedTwice(t, t1, t2, reaped, if key in t1 then {key} else {}, was, was1);
    RememberedNext(exited, i, before, removed, removed1, now);
    if Distinct(exited) { RecordedNext(ev, more, exited, i, before, removed, now); }
  }

  // ---- Over all pools ------------------------------------------------------

  // The lifetime limits a pool's runners are under: its own if it has one, and
  // its drain entry's.
  ghost predicate LimitOf(pool: nat, limit: int, pools: seq<Pool>, draining: map<nat, DrainEntry>) {
    || (exists p :: p in pools && p.id == pool && p.lifetime == limit > 0)
    || (pool in draining && draining[pool].limit == limit)
  }

  // Past one of its limits.
  ghost predicate Condemned(r: Runner, pool: nat, pools: seq<Pool>, draining: map<nat, DrainEntry>, now: int) {
    || (exists p :: p in pools && p.id == pool && p.lifetime > 0 && Overdue(r, p.lifetime, now))
    || (pool in draining && Overdue(r, draining[pool].limit, now))
  }

  // The effect so far: exactly the condemned ones are gone, each by a
  // lifetime kill under one of its limits.
  ghost predicate Checked(t: Table, t1: Table, gone: set<Slot>, pools: seq<Pool>, draining: map<nat, DrainEntry>,
                          was: set<string>, ev: seq<Event>, now: int) {
    && Purged(t, t1, gone, was)
    && (forall s :: s in t ==> (s in gone <==> Condemned(t[s], s.pool, pools, draining, now)))
    && (forall e :: e in ev && e.Removed? ==> KillUnder(t, e, gone, pools, draining, now))
  }

  ghost predicate KillUnder(t: Table, e: Event, gone: set<Slot>, pools: seq<Pool>, draining: map<nat, DrainEntry>, now: int) {
    e.Removed? && e.slot in gone && KillOf(t, e, e.limit, now) && LimitOf(e.slot.pool, e.limit, pools, draining)
  }

  // A pool without a limit adds nothing.
  lemma CheckedSkip(t: Table, t1: Table, gone: set<Slot>, pools: seq<Pool>, draining: map<nat, DrainEntry>, was: set<string>,
                    ev: seq<Event>, now: int, p: Pool)
    requires Checked(t, t1, gone, pools, draining, was, ev, now) && p.lifetime <= 0
    ensures Checked(t, t1, gone, pools + [p], draining, was, ev, now)
  {
    forall s | s in t
      ensures Condemned(t[s], s.pool, pools + [p], draining, now) <==> Condemned(t[s], s.pool, pools, draining, now) {
    }
    forall e | e in ev && e.Removed? ensures KillUnder(t, e, gone, pools + [p], draining, now) {
      assert KillUnder(t, e, gone, pools, draining, now);
    }
  }

  // One more limit checked: for a pool, or for a drain entry.
  lemma CheckedMore(t: Table, t1: Table, t2: Table, gone: set<Slot>, more: set<Slot>, pools: seq<Pool>, pools1: seq<Pool>,
                    draining: map<nat, DrainEntry>, draining1: map<nat, DrainEntry>, was: set<string>, was1: set<string>,
                    ev: seq<Event>, ev1: seq<Event>, pool: nat, limit: int, now: int)
    requires Checked(t, t1, gone, pools, draining, was, ev, now)
    requires (forall s :: s in t ==> s.id in was) && was <= was1
    requires more == Doomed(t1, pool, limit, now) && Purged(t1, t2, more, was1) && Kills(t1, more, ev1, limit, now)
    requires forall q, l :: LimitOf(q, l, pools1, draining1) <==> LimitOf(q, l, pools, draining) || (q == pool && l == limit)
    requires forall r, q :: Condemned(r, q, pools1, draining1, now) <==>
      Condemned(r, q, pools, draining, now) || (q == pool && Overdue(r, limit, now))
    ensures Checked(t, t2, gone + more, pools1, draining1, was, ev + ev1, now)
  {
    forall s | s in more ensures s in t && t1[s] == t[s] { assert t1[s].busy; }
    PurgedTwice(t, t1, t2, gone, more, was, was1);
    forall e | e in ev + ev1 && e.Removed? ensures KillUnder(t, e, gone + more, pools1, draining1, now) {
      if e in ev {
        assert KillUnder(t, e, gone, pools, draining, now);
        assert LimitOf(e.slot.pool, e.limit, pools1, draining1);
      } else {
        assert KillOf(t1, e, limit, now) && e.slot in more;
        assert LimitOf(e.slot.pool, e.limit, pools1, draining1);
      }
    }
    forall s | s in t ensures s in gone + more <==> Condemned(t[s], s.pool, pools1, draining1, now) {
      if s !in gone && s in t1 { assert t1[s] == t[s]; }
    }
  }

  lemma PoolLimits(pools: seq<Pool>, p: Pool, draining: map<nat, DrainEntry>, now: int)
    requires p.lifetime > 0
    ensures forall q, l :: LimitOf(q, l, pools + [p], draining) <==> LimitOf(q, l, pools, draining) || (q == p.id && l == p.lifetime)
    ensures forall r, q :: Condemned(r, q, pools + [p], draining, now) <==>
      Condemned(r, q, pools, draining, now) || (q == p.id && Overdue(r, p.lifetime, now))
  {
    assert forall x :: x in pools + [p] <==> x in pools || x == p;
  }

  lemma EntryLimits(pools: seq<Pool>, draining: map<nat, DrainEntry>, pool: nat, entry: DrainEntry, now: int)
    requires pool !in draining
    ensures forall q, l :: LimitOf(q, l, pools, draining[pool := entry]) <==>
      LimitOf(q, l, pools, draining) || (q == pool && l == entry.limit)
    ensures forall r, q :: Condemned(r, q, pools, draining[pool := entry], now) <==>
      Condemned(r, q, pools, draining, now) || (q == pool && Overdue(r, entry.limit, now))
  {
    forall q, l ensures LimitOf(q, l, pools, draining[pool := entry]) <==>
      LimitOf(q, l, pools, draining) || (q == pool && l == entry.limit) {
      if q == pool { assert draining[pool := entry][q] == entry; } else { assert q in draining[pool := entry] <==> q in draining; }
    }
    forall r, q ensures Condemned(r, q, pools, draining[pool := entry], now) <==>
      Condemned(r, q, pools, draining, now) || (q == pool && Overdue(r, entry.limit, now)) {
      if q == pool { assert draining[pool := entry][q] == entry; } else { assert q in draining[pool := entry] <==> q in draining; }
    }
  }

  // The drain entries midway through their check: the visited ones that retired
  // had no container left running.
  ghost predicate Retiring(drains: map<nat, DrainEntry>, before: map<nat, DrainEntry>, todo: set<nat>, t: Table, gone: set<Slot>) {
    && todo <= drains.Keys
    && (forall d :: d in drains ==> d in before && drains[d] == before[d])
    && (forall d :: d in before && d !in drains ==> AllGone(t, d, gone))
  }

  ghost predicate AllGone(t: Table, pool: nat, gone: set<Slot>) {
    forall s :: s in t && s.pool == pool && t[s].running ==> s in gone
  }

  lemma RetiringEntry(drains: map<nat, DrainEntry>, before: map<nat, DrainEntry>, todo: set<nat>, t: Table, gone: set<Slot>, d: nat)
    requires Retiring(drains, before, todo, t, gone) && d in todo
    ensures d in drains && d in before && drains[d] == before[d]
  {
  }

  lemma RetiringNext(drains: map<nat, DrainEntry>, drains1: map<nat, DrainEntry>, before: map<nat, DrainEntry>, todo: set<nat>,
                     t: Table, gone: set<Slot>, gone1: set<Slot>, d: nat)
    requires Retiring(drains, before, todo, t, gone) && gone <= gone1
    requires drains1 == drains || (drains1 == drains - {d} && AllGone(t, d, gone1))
    ensures Retiring(drains1, before, todo - {d}, t, gone1)
  {
  }

  lemma NoneRunning(t: Table, t1: Table, gone: set<Slot>, was: set<string>, pool: nat)
    requires Purged(t, t1, gone, was) && RunningIn(t1, pool) == {}
    ensures AllGone(t, pool, gone)
  {
    assert forall s :: s in t1 && s.pool == pool && t1[s].running ==> s in RunningIn(t1, pool);
  }

  // ---- Draining a whole pool -----------------------------------------------

  const DEFAULT_DRAIN_BACKSTOP := 21_600_000_000_000 // 6 hours

  predicate Leaves(r: Runner, graceful: bool) {
    r.running && !(graceful && r.busy)
  }

  function Leaving(t: Table, pool: nat, graceful: bool): set<Slot> {
    set s | s in t && s.pool == pool && Leaves(t[s], graceful)
  }

  function LeavingRows(pool: nat, rs: seq<Runner>, graceful: bool): set<Slot> {
    set r | r in rs && Leaves(r, graceful) :: Slot(pool, r.id)
  }

  // The running rows a graceful drain leaves alone.
  function StayingRows(pool: nat, rs: seq<Runner>, graceful: bool): set<Slot> {
    set r | r in rs && r.running && !Leaves(r, graceful) :: Slot(pool, r.id)
  }

  lemma LeavingNext(t: Table, pool: nat, rs: seq<Runner>, i: nat, graceful: bool)
    requires i < |rs|
    ensures t - LeavingRows(pool, rs[..i + 1], graceful) ==
      t - LeavingRows(pool, rs[..i], graceful) - if Leaves(rs[i], graceful) then {Slot(pool, rs[i].id)} else {}
    ensures StayingRows(pool, rs[..i + 1], graceful) == StayingRows(pool, rs[..i], graceful) +
      if rs[i].running && !Leaves(rs[i], graceful) then {Slot(pool, rs[i].id)} else {}
  {
    TakeNext(rs, i);
    assert LeavingRows(pool, rs[..i + 1], graceful) ==
      LeavingRows(pool, rs[..i], graceful) + if Leaves(rs[i], graceful) then {Slot(pool, rs[i].id)} else {};
  }

  lemma LeavingAll(t: Table, pool: nat, rs: seq<Runner>, graceful: bool)
    requires IsSnapshot(t, pool, rs)
    ensures LeavingRows(pool, rs, graceful) == Leaving(t, pool, graceful)
    ensures StayingRows(pool, rs, graceful) == RunningIn(t - Leaving(t, pool, graceful), pool)
  {
    forall s ensures s in LeavingRows(pool, rs, graceful) <==> s in Leaving(t, pool, graceful) {
      if s in Leaving(t, pool, graceful) {
        var i :| 0 <= i < |rs| && rs[i].id == s.id;
        assert rs[i] in rs;
      }
    }
    forall s ensures s in StayingRows(pool, rs, graceful) <==> s in RunningIn(t - Leaving(t, pool, graceful), pool) {
      if s in RunningIn(t, pool) {
        var i :| 0 <= i < |rs| && rs[i].id == s.id;
        assert rs[i] in rs;
      }
    }
  }

  function WithoutPool(queue: seq<Request>, pool: nat): seq<Request> {
    if queue == [] then []
    else WithoutPool(queue[..|queue| - 1], pool) + if queue[|queue| - 1].pool != pool then [queue[|queue| - 1]] else []
  }

  // The pool's requests go; those of others stay, as often as they were there.
  lemma {:induction false} WithoutPoolIs(queue: seq<Request>, pool: nat, r: Request)
    ensures Occurs(r, WithoutPool(queue, pool)) == if r.pool == pool then 0 else Occurs(r, queue)
  {
    if queue != [] {
      var before, last := queue[..|queue| - 1], queue[|queue| - 1];
      WithoutPoolIs(before, pool, r);
      OccursSnoc(r, WithoutPool(before, pool), last);
      assert WithoutPool(queue, pool) == if last.pool == pool then WithoutPool(before, pool) else WithoutPool(before, pool) + [last];
    }
  }

  // ... in the order they had.
  lemma {:induction false} WithoutPoolInOrder(queue: seq<Request>, pool: nat, n: nat)
    requires n < |queue|
    ensures WithoutPool(queue[..n], pool) + (if queue[n].pool == pool then [] else [queue[n]]) <= WithoutPool(queue, pool)
  {
    var before := queue[..|queue| - 1];
    if n < |before| {
      WithoutPoolInOrder(before, pool, n);
      assert before[..n] == queue[..n];
    }
  }

  // What a drain of the pool leaves: nobody running after a hard one, nobody idle after
  // a graceful one; no busy runner goes gracefully, and nobody else goes at all.
  ghost predicate DrainedPool(t: Table, t1: Table, pool: nat, graceful: bool) {
    && (forall s :: s in t1 ==> s in t && t1[s] == t[s])
    && (forall s :: s in t && s !in t1 ==> s.pool == pool && t[s].running && (graceful ==> !t[s].busy))
    && (if graceful then IdleIn(t1, pool) == {} else RunningIn(t1, pool) == {})
  }

  lemma DrainedPoolIs(t: Table, pool: nat, graceful: bool)
    ensures DrainedPool(t, t - Leaving(t, pool, graceful), pool, graceful)
  {
  }

  ghost predicate PoolDrains(t: Table, pool: nat, graceful: bool, ev: seq<Event>, now: int) {
    forall e :: e in ev ==> e.Removed? && e.reason == PoolDrain && e.at == now && e.slot in Leaving(t, pool, graceful) && e.runner == t[e.slot]
  }

  lemma DrainsMore(t: Table, pool: nat, graceful: bool, ev: seq<Event>, rs: seq<Runner>, i: nat, answer: Dereg, now: int)
    requires PoolDrains(t, pool, graceful, ev, now) && IsSnapshot(t, pool, rs) && i < |rs| && Leaves(rs[i], graceful)
    ensures PoolDrains(t, pool, graceful, ev + [Removed(Slot(pool, rs[i].id), rs[i], PoolDrain, now, 0, answer, true)], now)
  {
    assert Slot(pool, rs[i].id) in Leaving(t, pool, graceful);
  }

  // ---- The ownership gate --------------------------------------------------

  ghost predicate HasRow(pool: nat, pools: seq<Pool>) {
    exists p :: p in pools && p.id == pool
  }

  // This supervisor may drain a pool it has no row for.
  predicate Owned(pool: nat, tomb: map<nat, Tombstone>, adoptAll: bool) {
    adoptAll || (pool in tomb && tomb[pool] == Deleted)
  }

  // What a cycle needs before it may remove a container.
  ghost predicate Warranted(e: Event, pools: seq<Pool>, drains: map<nat, DrainEntry>, tomb: map<nat, Tombstone>,
                            adoptAll: bool, now: int) {
    e.Removed? ==>
      match e.reason
      case Reap => !e.runner.running
      case IdleDrain => e.runner.running && !e.runner.busy && HasRow(e.slot.pool, pools) && e.answer != Busy
      case Recycle => false
      case PoolDrain =>
        e.runner.running && !e.runner.busy && !HasRow(e.slot.pool, pools) && Owned(e.slot.pool, tomb, adoptAll)
      case LifetimeLimit =>
        Overdue(e.runner, e.limit, now) &&
        (LimitOf(e.slot.pool, e.limit, pools, drains) ||
         (!HasRow(e.slot.pool, pools) && Owned(e.slot.pool, tomb, adoptAll) && e.limit == DEFAULT_DRAIN_BACKSTOP))
  }

  ghost predicate AllWarranted(ev: seq<Event>, pools: seq<Pool>, drains: map<nat, DrainEntry>, tomb: map<nat, Tombstone>,
                               adoptAll: bool, now: int) {
    forall e :: e in ev ==> Warranted(e, pools, drains, tomb, adoptAll, now)
  }

  lemma WarrantedAppend(a: seq<Event>, b: seq<Event>, pools: seq<Pool>, drains: map<nat, DrainEntry>, tomb: map<nat, Tombstone>,
                        adoptAll: bool, now: int)
    requires AllWarranted(a, pools, drains, tomb, adoptAll, now) && AllWarranted(b, pools, drains, tomb, adoptAll, now)
    ensures AllWarranted(a + b, pools, drains, tomb, adoptAll, now)
  {
    forall e | e in a + b ensures Warranted(e, pools, drains, tomb, adoptAll, now) {
      if e in a { } else { assert e in b; }
    }
  }

  // The drain entries of a cycle: old ones, and backstops of owned, deleted pools.
  ghost predicate DrainsOwned(now_: map<nat, DrainEntry>, before: map<nat, DrainEntry>, pools: seq<Pool>,
                              tomb: map<nat, Tombstone>, adoptAll: bool) {
    forall d :: d in now_ ==>
      (d in before && now_[d] == before[d]) ||
      (!HasRow(d, pools) && Owned(d, tomb, adoptAll) && now_[d].limit == DEFAULT_DRAIN_BACKSTOP)
  }

  // What removed-pool detection drains: whatever may leave gracefully in tracked
  // pools without a row that are ours and not draining yet.
  ghost function Removable(t: Table, pools: seq<Pool>, drains: map<nat, DrainEntry>, tomb: map<nat, Tombstone>, adoptAll: bool): set<Slot> {
    set s | s in t && !HasRow(s.pool, pools) && Owned(s.pool, tomb, adoptAll) && s.pool !in drains && Leaves(t[s], true)
  }

  lemma DrainsWarranted(t: Table, d: nat, ev: seq<Event>, pools: seq<Pool>, drains: map<nat, DrainEntry>,
                        tomb: map<nat, Tombstone>, adoptAll: bool, now: int)
    requires PoolDrains(t, d, true, ev, now) && !HasRow(d, pools) && Owned(d, tomb, adoptAll)
    ensures AllWarranted(ev, pools, drains, tomb, adoptAll, now)
  {
  }

  // Only the pools in todo are still to be emptied of out.
  ghost predicate PartlyOut(t: Table, t1: Table, out: set<Slot>, todo: set<nat>) {
    && (forall s :: s in t1 ==> s in t && t1[s] == t[s])
    && (forall s :: s in t ==> (s in t1 <==> s !in out || s.pool in todo))
  }

  // Handling one pool: leaving it alone unless it is ours, graceful draining else.
  lemma OutNext(t: Table, t1: Table, pools: seq<Pool>, drains: map<nat, DrainEntry>, tomb: map<nat, Tombstone>, adoptAll: bool,
                todo: set<nat>, d: nat)
    requires d in todo && !HasRow(d, pools)
    requires PartlyOut(t, t1, Removable(t, pools, drains, tomb, adoptAll), todo)
    ensures !Owned(d, tomb, adoptAll) || d in drains ==>
      PartlyOut(t, t1, Removable(t, pools, drains, tomb, adoptAll), todo - {d})
    ensures Owned(d, tomb, adoptAll) && d !in drains ==>
      PartlyOut(t, t1 - Leaving(t1, d, true), Removable(t, pools, drains, tomb, adoptAll), todo - {d})
  {
  }

  lemma ChecksWarranted(t: Table, t1: Table, gone: set<Slot>, pools: seq<Pool>, draining: map<nat, DrainEntry>,
                        before: map<nat, DrainEntry>, tomb: map<nat, Tombstone>, adoptAll: bool, was: set<string>,
                        ev: seq<Event>, now: int)
    requires Checked(t, t1, gone, pools, draining, was, ev, now) && DrainsOwned(draining, before, pools, tomb, adoptAll)
    ensures AllWarranted(ev, pools, before, tomb, adoptAll, now)
  {
    forall e | e in ev && e.Removed? ensures Warranted(e, pools, before, tomb, adoptAll, now) {
      assert KillUnder(t, e, gone, pools, draining, now);
    }
  }

  // Only reaping records a container as reaped.
  lemma ChecksNoReap(t: Table, t1: Table, gone: set<Slot>, pools: seq<Pool>, draining: map<nat, DrainEntry>, was: set<string>,
                     ev: seq<Event>, now: int)
    requires Checked(t, t1, gone, pools, draining, was, ev, now)
    ensures NoReap(ev)
  {
    assert forall e :: e in ev && e.Removed? ==> KillUnder(t, e, gone, pools, draining, now);
  }

  lemma WalkNoReap(t: Table, t1: Table, pool: nat, idle: seq<Runner>, w: Walk, now: int)
    requires DrainWalk(t, t1, pool, idle, w, now) && w.reason != Reap
    ensures NoReap(w.ev)
  {
    assert forall e :: e in w.ev ==> DrainEvent(pool, idle, w.gone, w.vetoed, w.reason, e, now);
  }

  lemma WalkWarranted(t: Table, t1: Table, p: Pool, idle: seq<Runner>, w: Walk, pools: seq<Pool>, drains: map<nat, DrainEntry>,
                      tomb: map<nat, Tombstone>, adoptAll: bool, now: int)
    requires IsIdleList(t, p.id, idle) && DrainWalk(t, t1, p.id, idle, w, now) && p in pools && w.reason == IdleDrain
    ensures AllWarranted(w.ev, pools, drains, tomb, adoptAll, now)
  {
    forall e | e in w.ev && e.Removed? ensures Warranted(e, pools, drains, tomb, adoptAll, now) {
      assert DrainEvent(p.id, idle, w.gone, w.vetoed, w.reason, e, now);
      assert e.slot in SlotsOf(p.id, idle);
    }
  }

  // A pool of somebody else: no row, no drain entry, and no tombstone found, unless the
  // supervisor adopts everything.
  ghost predicate Foreign(pool: nat, pools: seq<Pool>, drains: map<nat, DrainEntry>, tomb: map<nat, Tombstone>, adoptAll: bool) {
    && (forall p :: p in pools ==> p.id != pool) && pool !in drains
    && !adoptAll && (pool in tomb ==> tomb[pool] == NoTombstone || tomb[pool] == LookupFailed)
  }

  // It loses no running container.
  ghost predicate ForeignUntouched(ev: seq<Event>, pools: seq<Pool>, drains: map<nat, DrainEntry>, tomb: map<nat, Tombstone>,
                                   adoptAll: bool) {
    forall e :: e in ev && e.Removed? && Foreign(e.slot.pool, pools, drains, tomb, adoptAll) ==> !e.runner.running
  }

  // A container that the removing step saw busy goes only past one of its limits.
  // (What the step saw is its snapshot; `BusySurvive` speaks of the table.)
  ghost predicate BusyNeedsLimit(ev: seq<Event>, pools: seq<Pool>, drains: map<nat, DrainEntry>, tomb: map<nat, Tombstone>,
                                 adoptAll: bool, now: int) {
    forall e :: e in ev && e.Removed? && e.runner.running && e.runner.busy ==>
      && now - Anchor(e.runner) > e.limit
      && (LimitOf(e.slot.pool, e.limit, pools, drains) ||
          (Owned(e.slot.pool, tomb, adoptAll) && e.limit == DEFAULT_DRAIN_BACKSTOP))
  }

  lemma WarrantedIsSafe(ev: seq<Event>, pools: seq<Pool>, drains: map<nat, DrainEntry>, tomb: map<nat, Tombstone>,
                        adoptAll: bool, now: int)
    requires AllWarranted(ev, pools, drains, tomb, adoptAll, now)
    ensures ForeignUntouched(ev, pools, drains, tomb, adoptAll)
    ensures BusyNeedsLimit(ev, pools, drains, tomb, adoptAll, now)
  {
    forall e | e in ev && e.Removed? && Foreign(e.slot.pool, pools, drains, tomb, adoptAll) ensures !e.runner.running {
      assert Warranted(e, pools, drains, tomb, adoptAll, now);
      assert forall l :: !LimitOf(e.slot.pool, l, pools, drains);
    }
    assert forall e :: e in ev ==> Warranted(e, pools, drains, tomb, adoptAll, now);
  }

  // ---- Pools without a row -------------------------------------------------

  // Scaling the pools that have a row adds and removes nothing elsewhere.
  ghost predicate RowlessSame(t: Table, t1: Table, pools: seq<Pool>) {
    forall s: Slot :: !HasRow(s.pool, pools) ==> (s in t1 <==> s in t) && (s in t && s in t1 ==> t1[s].running == t[s].running)
  }

  lemma RowlessTwice(t: Table, t1: Table, t2: Table, pools: seq<Pool>)
    requires RowlessSame(t, t1, pools) && RowlessSame(t1, t2, pools)
    ensures RowlessSame(t, t2, pools)
  {
  }

  // Scaling keeps whatever is running and busy.
  ghost predicate BusyKept(t: Table, t1: Table) {
    forall s :: s in t && t[s].running && t[s].busy ==> s in t1 && t1[s].running && t1[s].busy
  }

  lemma BusyKeptStep(t: Table, mid: Table, t1: Table, p: Pool, idle: seq<Runner>, w: Walk, onDemand: bool, now: int)
    requires IsIdleList(t, p.id, idle) && DrainWalk(t, mid, p.id, idle, w, now) && Grown(mid, t1, p, onDemand, now)
    ensures BusyKept(t, t1)
  {
  }

  lemma OwnPoolOnly(t: Table, mid: Table, t1: Table, p: Pool, idle: seq<Runner>, w: Walk, onDemand: bool,
                    pools: seq<Pool>, now: int)
    requires DrainWalk(t, mid, p.id, idle, w, now) && Grown(mid, t1, p, onDemand, now) && p in pools
    ensures RowlessSame(t, t1, pools)
  {
    forall s: Slot | !HasRow(s.pool, pools)
      ensures (s in t1 <==> s in t) && (s in t && s in t1 ==> t1[s].running == t[s].running) {
      assert s.pool != p.id;
    }
  }

  // ---- The stages of a cycle ------------------------------------------------

  // Serving the queue: the requests found, what became of them, and those left.
  datatype Line = Line(found: seq<Request>, fates: seq<Fate>, left: seq<Request>, ev: seq<Event>)

  // The tables after the stages of a cycle: reaped (losing gone; was are the ids
  // known by then), queue served, removed pools drained (leaving drains as drain
  // entries), and overdue runners killed.
  datatype Stages = Stages(reaped: Table, gone: set<Slot>, was: set<string>, line: Line, served: Table, drained: Table,
                           drains: map<nat, DrainEntry>, checked: Table)

  // What the lifetime check leaves: exactly the runners within their limits, as
  // they were.
  ghost predicate WithinLimits(t: Table, t1: Table, pools: seq<Pool>, drains: map<nat, DrainEntry>, now: int) {
    && (forall s :: s in t ==> (s in t1 <==> !Condemned(t[s], s.pool, pools, drains, now)))
    && (forall s :: s in t && s in t1 ==> t1[s] == t[s])
  }

  // Removed pools drained and overdue runners killed, exactly; after that rowless
  // pools are left alone and busy runners kept.
  ghost predicate RowsStaged(served: Table, drained: Table, drains: map<nat, DrainEntry>, checked: Table, t1: Table,
                             pools: seq<Pool>, before: map<nat, DrainEntry>, tomb: map<nat, Tombstone>, adoptAll: bool, now: int) {
    && drained == served - Removable(served, pools, before, tomb, adoptAll)
    && DrainsOwned(drains, before, pools, tomb, adoptAll)
    && WithinLimits(drained, checked, pools, drains, now)
    && RowlessSame(checked, t1, pools) && BusyKept(checked, t1)
  }

  // From the audited table to the end of a cycle.
  ghost predicate Staged(t: Table, st: Stages, t1: Table, pools: seq<Pool>, before: map<nat, DrainEntry>,
                         tomb: map<nat, Tombstone>, adoptAll: bool, now: int) {
    && Purged(t, st.reaped, st.gone, st.was)
    && Extended(st.reaped, st.served, now)
    && RowsStaged(st.served, st.drained, st.drains, st.checked, t1, pools, before, tomb, adoptAll, now)
  }

  // The table after the audit of a cycle; a failed listing changes nothing.
  function Observed(t: Table, resolve: Resolver, listing: Option<seq<Runner>>): Table {
    if listing.Some? then Audited(t, resolve, listing.value) else t
  }

  // The containers it found dead.
  function Dead(t: Table, resolve: Resolver, listing: Option<seq<Runner>>): set<Slot> {
    if listing.Some? then KeysOf(Exited(t, resolve, listing.value)) else {}
  }

  // Containers of foreign pools stay tracked and running unless they were dead.
  ghost predicate ForeignKept(t: Table, t1: Table, dead: set<Slot>, pools: seq<Pool>, before: map<nat, DrainEntry>,
                              tomb: map<nat, Tombstone>, adoptAll: bool) {
    forall s :: s in t && s !in dead && Foreign(s.pool, pools, before, tomb, adoptAll) ==>
      s in t1 && t1[s].running == t[s].running
  }

  lemma ForeignStays(t: Table, st: Stages, t1: Table, dead: set<Slot>, pools: seq<Pool>, before: map<nat, DrainEntry>,
                     tomb: map<nat, Tombstone>, adoptAll: bool, now: int)
    requires Staged(t, st, t1, pools, before, tomb, adoptAll, now)
    requires forall s :: s in t ==> (s in st.gone <==> s in dead)
    ensures ForeignKept(t, t1, dead, pools, before, tomb, adoptAll)
  {
    forall s | s in t && s !in dead && Foreign(s.pool, pools, before, tomb, adoptAll)
      ensures s in t1 && t1[s].running == t[s].running
    {
      assert s in st.drained && st.drained[s] == t[s];
      assert s.pool !in st.drains;
      assert !Condemned(t[s], s.pool, pools, st.drains, now);
    }
  }

  // Past a limit of its pool: its row's, its drain entry's, or the backstop of a
  // deleted pool that is ours.
  ghost predicate OverLimit(r: Runner, pool: nat, pools: seq<Pool>, before: map<nat, DrainEntry>, tomb: map<nat, Tombstone>,
                            adoptAll: bool, now: int) {
    || Condemned(r, pool, pools, before, now)
    || (!HasRow(pool, pools) && Owned(pool, tomb, adoptAll) && Overdue(r, DEFAULT_DRAIN_BACKSTOP, now))
  }

  // Busy containers within their limits stay tracked, running and busy unless they
  // were dead.
  ghost predicate BusySurvive(t: Table, t1: Table, dead: set<Slot>, pools: seq<Pool>, before: map<nat, DrainEntry>,
                              tomb: map<nat, Tombstone>, adoptAll: bool, now: int) {
    forall s :: s in t && s !in dead && t[s].running && t[s].busy && !OverLimit(t[s], s.pool, pools, before, tomb, adoptAll, now) ==>
      s in t1 && t1[s].running && t1[s].busy
  }

  // In terms of the table before the audit: a busy container that the host lists as
  // running is still there, running and busy, unless it is past a limit.
  ghost predicate BusyOutlives(t: Table, listing: Option<seq<Runner>>, t1: Table, pools: seq<Pool>, before: map<nat, DrainEntry>,
                               tomb: map<nat, Tombstone>, adoptAll: bool, now: int) {
    forall s :: s in t && t[s].running && t[s].busy && !OverLimit(t[s], s.pool, pools, before, tomb, adoptAll, now) &&
                (listing.Some? ==> s.id in Present(listing.value) && ListedRunning(listing.value, s, t[s])) ==>
      s in t1 && t1[s].running && t1[s].busy
  }

  lemma ObservedAlive(t: Table, resolve: Resolver, listing: Option<seq<Runner>>, s: Slot)
    requires s in t && t[s].running && t[s].busy
    requires listing.Some? ==> s.id in Present(listing.value) && ListedRunning(listing.value, s, t[s])
    ensures var t1 := Observed(t, resolve, listing);
      s in t1 && t1[s].running && t1[s].busy && Anchor(t1[s]) == Anchor(t[s]) && s !in Dead(t, resolve, listing)
  {
    if listing.Some? {
      ObserveAllAlive(resolve, t, listing.value, s);
      SelectMembers(IsExited, Rows(t, resolve, listing.value));
    }
  }

  lemma BusyOutlivesIs(t: Table, resolve: Resolver, listing: Option<seq<Runner>>, t1: Table, pools: seq<Pool>,
                       before: map<nat, DrainEntry>, tomb: map<nat, Tombstone>, adoptAll: bool, now: int)
    requires BusySurvive(Observed(t, resolve, listing), t1, Dead(t, resolve, listing), pools, before, tomb, adoptAll, now)
    ensures BusyOutlives(t, listing, t1, pools, before, tomb, adoptAll, now)
  {
    forall s | s in t && t[s].running && t[s].busy && !OverLimit(t[s], s.pool, pools, before, tomb, adoptAll, now) &&
               (listing.Some? ==> s.id in Present(listing.value) && ListedRunning(listing.value, s, t[s]))
      ensures s in t1 && t1[s].running && t1[s].busy
    {
      ObservedAlive(t, resolve, listing, s);
      var r := Observed(t, resolve, listing)[s];
      assert forall limit :: Overdue(r, limit, now) <==> Overdue(t[s], limit, now);
      assert !OverLimit(r, s.pool, pools, before, tomb, adoptAll, now);
    }
  }

  lemma BusyStays(t: Table, st: Stages, t1: Table, dead: set<Slot>, pools: seq<Pool>, before: map<nat, DrainEntry>,
                  tomb: map<nat, Tombstone>, adoptAll: bool, now: int)
    requires Staged(t, st, t1, pools, before, tomb, adoptAll, now)
    requires forall s :: s in t ==> (s in st.gone <==> s in dead)
    ensures BusySurvive(t, t1, dead, pools, before, tomb, adoptAll, now)
  {
    forall s | s in t && s !in dead && t[s].running && t[s].busy && !OverLimit(t[s], s.pool, pools, before, tomb, adoptAll, now)
      ensures s in t1 && t1[s].running && t1[s].busy
    {
      assert s in st.drained && st.drained[s] == t[s];
      assert !Condemned(t[s], s.pool, pools, st.drains, now);
      assert s in st.checked && st.checked[s] == t[s];
    }
  }
}
