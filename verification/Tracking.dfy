// The runner reconciler of internal/orchestrator/auditor.go: what the supervisor
// believes about the containers on its engine.
//
// The source keeps one map per pool and deletes a pool's map as soon as it is
// empty, so the pair (pool id, container id) identifies an entry and the nested
// map is exactly a map from such pairs.
module Tracking {
  import opened Basics

  // busySince is the anchor of the lifetime clock; pool 0 means "unresolved".
  datatype Runner = Runner(id: string, name: string, poolName: string, pool: nat, running: bool, busy: bool,
                           onDemand: bool, spawnedAt: int, busySince: int, target: string, forgeId: nat)

  datatype Slot = Slot(pool: nat, id: string)

  type Table = map<Slot, Runner>

  type Resolver = string -> Option<nat>

  ghost predicate WellKeyed(t: Table) {
    forall s :: s in t ==> t[s].pool == s.pool && t[s].id == s.id
  }

  // ---- One audit -----------------------------------------------------------

  // Containers without a pool-id label are promoted by their spawn-time name.
  function Resolved(resolve: Resolver, r: Runner): Runner {
    if r.pool == 0 && r.poolName != "" then
      match resolve(r.poolName)
      case Some(p) => r.(pool := p)
      case None => r
    else r
  }

  function KeyOf(r: Runner): Slot {
    Slot(r.pool, r.id)
  }

  // Sticky fields survive a listing that cannot report them.
  function Kept(e: Runner, r: Runner): Runner {
    r.(busy := r.busy || e.busy,
       spawnedAt := if r.spawnedAt == 0 then e.spawnedAt else r.spawnedAt,
       busySince := if r.busySince == 0 then e.busySince else r.busySince,
       onDemand := r.onDemand || e.onDemand,
       forgeId := if r.forgeId == 0 then e.forgeId else r.forgeId)
  }

  // What an already resolved row of the host listing becomes in the table; a
  // container seen for the first time gets the conservative spawn anchor.
  function Merged(t: Table, r: Runner): Runner {
    if KeyOf(r) in t then Kept(t[KeyOf(r)], r)
    else if r.running && r.spawnedAt != 0 then r.(busySince := r.spawnedAt)
    else r
  }

  function Observe(t: Table, resolve: Resolver, r: Runner): Table {
    t[KeyOf(Resolved(resolve, r)) := Merged(t, Resolved(resolve, r))]
  }

  function ObserveAll(t: Table, resolve: Resolver, listing: seq<Runner>): Table {
    if listing == [] then t
    else Observe(ObserveAll(t, resolve, listing[..|listing| - 1]), resolve, listing[|listing| - 1])
  }

  // The merged rows, in listing order.
  function Rows(t: Table, resolve: Resolver, listing: seq<Runner>): seq<Runner> {
    if listing == [] then []
    else
      var before := listing[..|listing| - 1];
      Rows(t, resolve, before) + [LastRow(t, resolve, listing)]
  }

  function LastRow(t: Table, resolve: Resolver, listing: seq<Runner>): Runner
    requires listing != []
  {
    Merged(ObserveAll(t, resolve, listing[..|listing| - 1]), Resolved(resolve, listing[|listing| - 1]))
  }

  function Present(listing: seq<Runner>): set<string> {
    set r | r in listing :: r.id
  }

  function Audited(t: Table, resolve: Resolver, listing: seq<Runner>): Table {
    var seen := ObserveAll(t, resolve, listing);
    map s | s in seen && s.id in Present(listing) :: seen[s]
  }

  // ---- Steps and runs ------------------------------------------------------

  predicate Matches(r: Runner, key: string) {
    r.id == key || r.name == key
  }

  // Set once, sticky across busy-to-idle flips.
  function Marked(r: Runner, busy: bool, now: int): Runner {
    r.(busy := busy, busySince := if busy && r.busySince == 0 then now else r.busySince)
  }

  function MarkEntry(t: Table, hit: Option<Slot>, busy: bool, now: int): Table
    requires hit.Some? ==> hit.value in t
  {
    if hit.Some? then t[hit.value := Marked(t[hit.value], busy, now)] else t
  }

  // Mark names the matching entry the map iteration meets first, if any.
  datatype Action =
    | Audit(listing: seq<Runner>)
    | Track(r: Runner)
    | Untrack(slot: Slot)
    | Mark(key: string, hit: Option<Slot>, busy: bool, now: int)

  // home is the one pool a container id ever belongs to: by its label, else by the
  // name it was spawned under, else none.
  ghost predicate AtHome(resolve: Resolver, home: string -> nat, r: Runner) {
    home(r.id) ==
      if r.pool != 0 then r.pool
      else if r.poolName != "" && resolve(r.poolName).Some? then resolve(r.poolName).value else 0
  }

  // A host listing reports neither busy state nor anchors; the engine hands out
  // ids that are not in use; the clock is past the zero instant.
  ghost predicate Enabled(resolve: Resolver, home: string -> nat, t: Table, a: Action) {
    match a
    case Audit(listing) => forall r :: r in listing ==> !r.busy && r.busySince == 0 && AtHome(resolve, home, r)
    case Track(r) => KeyOf(r) !in t && r.pool == home(r.id) && !r.busy && r.busySince == 0
    case Untrack(_) => true
    case Mark(key, None, _, _) => forall s :: s in t ==> !Matches(t[s], key)
    case Mark(key, Some(s), _, now) => s in t && Matches(t[s], key) && now != 0
  }

  function Step(resolve: Resolver, t: Table, a: Action): Table
    requires a.Mark? && a.hit.Some? ==> a.hit.value in t
  {
    match a
    case Audit(listing) => Audited(t, resolve, listing)
    case Track(r) => t[KeyOf(r) := r]
    case Untrack(s) => t - {s}
    case Mark(_, hit, busy, now) => MarkEntry(t, hit, busy, now)
  }

  ghost predicate IsRun(resolve: Resolver, home: string -> nat, t: Table, as_: seq<Action>)
    decreases |as_|, 0
  {
    as_ != [] ==>
      IsRun(resolve, home, t, as_[..|as_| - 1]) &&
      Enabled(resolve, home, After(resolve, home, t, as_[..|as_| - 1]), as_[|as_| - 1])
  }

  ghost function After(resolve: Resolver, home: string -> nat, t: Table, as_: seq<Action>): Table
    requires IsRun(resolve, home, t, as_)
    decreases |as_|, 1
  {
    if as_ == [] then t else Step(resolve, After(resolve, home, t, as_[..|as_| - 1]), as_[|as_| - 1])
  }

  // ---- Invariant: one bucket per container, busy implies anchored ----------

  ghost predicate GoodEntry(home: string -> nat, s: Slot, r: Runner) {
    r.pool == s.pool && r.id == s.id && s.pool == home(s.id) && (r.busy ==> r.busySince != 0)
  }

  ghost predicate Inv(home: string -> nat, t: Table) {
    forall s :: s in t ==> GoodEntry(home, s, t[s])
  }

  // ... in particular no container is tracked under two pools.
  lemma OneBucket(home: string -> nat, t: Table, a: Slot, b: Slot)
    requires Inv(home, t) && a in t && b in t && a.id == b.id
    ensures a == b
  {
    assert GoodEntry(home, a, t[a]) && GoodEntry(home, b, t[b]);
  }

  lemma {:induction false} ObserveAllKeeps(resolve: Resolver, home: string -> nat, t: Table, listing: seq<Runner>)
    requires Inv(home, t)
    requires forall r :: r in listing ==> !r.busy && r.busySince == 0 && AtHome(resolve, home, r)
    ensures Inv(home, ObserveAll(t, resolve, listing))
    ensures t.Keys <= ObserveAll(t, resolve, listing).Keys
    ensures forall s :: s in t && t[s].busySince != 0 ==> ObserveAll(t, resolve, listing)[s].busySince == t[s].busySince
  {
    if listing != [] {
      ObserveAllKeeps(resolve, home, t, listing[..|listing| - 1]);
    }
  }

  // One step keeps the invariant and every anchor it keeps tracked.
  lemma StepKeepsInv(resolve: Resolver, home: string -> nat, t: Table, a: Action)
    requires Inv(home, t) && Enabled(resolve, home, t, a)
    ensures Inv(home, Step(resolve, t, a))
    ensures forall s :: s in t && s in Step(resolve, t, a) && t[s].busySince != 0 ==>
      Step(resolve, t, a)[s].busySince == t[s].busySince
  {
    if a.Audit? { ObserveAllKeeps(resolve, home, t, a.listing); }
  }

  lemma {:induction false} ObserveAllKeyed(resolve: Resolver, t: Table, listing: seq<Runner>)
    requires WellKeyed(t)
    ensures WellKeyed(ObserveAll(t, resolve, listing))
  {
    if listing != [] { ObserveAllKeyed(resolve, t, listing[..|listing| - 1]); }
  }

  lemma {:induction false} ObserveAllKeys(resolve: Resolver, home: string -> nat, t: Table, listing: seq<Runner>)
    requires forall r :: r in listing ==> AtHome(resolve, home, r)
    ensures ObserveAll(t, resolve, listing).Keys == t.Keys + set r | r in listing :: Slot(home(r.id), r.id)
  {
    if listing != [] {
      var before, last := listing[..|listing| - 1], listing[|listing| - 1];
      ObserveAllKeys(resolve, home, t, before);
      assert listing == before + [last];
      assert AtHome(resolve, home, last);
      assert (set r | r in listing :: Slot(home(r.id), r.id)) ==
        (set r | r in before :: Slot(home(r.id), r.id)) + {Slot(home(last.id), last.id)};
    }
  }

  // An audit makes the table mirror the host: it tracks exactly the listed
  // containers, each once.
  lemma AuditMirrorsHost(resolve: Resolver, home: string -> nat, t: Table, listing: seq<Runner>)
    requires Inv(home, t) && Enabled(resolve, home, t, Audit(listing))
    ensures Audited(t, resolve, listing).Keys == set r | r in listing :: Slot(home(r.id), r.id)
  {
    ObserveAllKeys(resolve, home, t, listing);
    forall s | s in t && s.id in Present(listing) ensures s in set r | r in listing :: Slot(home(r.id), r.id) {
      assert GoodEntry(home, s, t[s]);
      var r :| r in listing && r.id == s.id;
      assert s == Slot(home(r.id), r.id);
    }
  }

  // Over any run of audits, spawns, removals and busy flips a container sits in
  // one pool's bucket, and a busy one has its anchor.
  lemma {:induction false} EveryRunAnchored(resolve: Resolver, home: string -> nat, t: Table, as_: seq<Action>)
    requires Inv(home, t) && IsRun(resolve, home, t, as_)
    ensures Inv(home, After(resolve, home, t, as_))
  {
    if as_ != [] {
      EveryRunAnchored(resolve, home, t, as_[..|as_| - 1]);
      StepKeepsInv(resolve, home, After(resolve, home, t, as_[..|as_| - 1]), as_[|as_| - 1]);
    }
  }

  ghost predicate Stays(resolve: Resolver, home: string -> nat, t: Table, as_: seq<Action>, s: Slot)
    requires IsRun(resolve, home, t, as_)
  {
    s in After(resolve, home, t, as_) && (as_ != [] ==> Stays(resolve, home, t, as_[..|as_| - 1], s))
  }

  // The anchor never moves while the container stays tracked, however often the
  // listing flaps.
  lemma {:induction false} AnchorNeverMoves(resolve: Resolver, home: string -> nat, t: Table, as_: seq<Action>, s: Slot)
    requires Inv(home, t) && IsRun(resolve, home, t, as_) && s in t && t[s].busySince != 0
    requires Stays(resolve, home, t, as_, s)
    ensures After(resolve, home, t, as_)[s].busySince == t[s].busySince
  {
    if as_ != [] {
      var before := as_[..|as_| - 1];
      AnchorNeverMoves(resolve, home, t, before, s);
      EveryRunAnchored(resolve, home, t, before);
      StepKeepsInv(resolve, home, After(resolve, home, t, before), as_[|as_| - 1]);
    }
  }

  // ---- What a listing cannot report ----------------------------------------

  // The row says nothing about the container that contradicts its entry ...
  predicate Agrees(r: Runner, e: Runner) {
    (r.onDemand ==> e.onDemand) && (r.spawnedAt == 0 || r.spawnedAt == e.spawnedAt) && (r.forgeId == 0 || r.forgeId == e.forgeId)
  }

  // ... and nothing at all about its job.
  predicate NothingNew(r: Runner, e: Runner) {
    !r.busy && r.busySince == 0 && Agrees(r, e)
  }

  predicate SameKnowledge(e: Runner, e1: Runner) {
    e1.busy == e.busy && e1.busySince == e.busySince && e1.onDemand == e.onDemand && e1.spawnedAt == e.spawnedAt &&
    e1.forgeId == e.forgeId
  }

  // Whatever the listing says, an audit takes nobody's busy or on-demand flag, and
  // no anchor, spawn instant or forge id that the row does not replace.
  lemma {:induction false} ObserveAllRemembers(resolve: Resolver, t: Table, listing: seq<Runner>, s: Slot)
    requires s in t
    ensures var t1 := ObserveAll(t, resolve, listing);
      s in t1 && (t[s].busy ==> t1[s].busy) && (t[s].onDemand ==> t1[s].onDemand) &&
      ((forall r :: r in listing && r.id == s.id ==> !r.busy) ==> t1[s].busy == t[s].busy) &&
      ((forall r :: r in listing && r.id == s.id ==> NothingNew(r, t[s])) ==> SameKnowledge(t[s], t1[s]))
  {
    if listing != [] {
      var before, last := listing[..|listing| - 1], listing[|listing| - 1];
      ObserveAllRemembers(resolve, t, before, s);
      assert listing == before + [last];
    }
  }

  // So it takes none of what is known about a container that is still listed.
  lemma AuditRemembers(resolve: Resolver, t: Table, listing: seq<Runner>, s: Slot)
    requires s in t && s.id in Present(listing)
    ensures var t1 := Audited(t, resolve, listing);
      s in t1 && (t[s].busy ==> t1[s].busy) && (t[s].onDemand ==> t1[s].onDemand) &&
      ((forall r :: r in listing && r.id == s.id ==> NothingNew(r, t[s])) ==> SameKnowledge(t[s], t1[s]))
  {
    ObserveAllRemembers(resolve, t, listing, s);
  }

  // What the last flip of the entry said.
  ghost function LastFlip(as_: seq<Action>, s: Slot, before: bool): bool {
    if as_ == [] then before
    else
      var a := as_[|as_| - 1];
      if a.Mark? && a.hit == Some(s) then a.busy else LastFlip(as_[..|as_| - 1], s, before)
  }

  ghost predicate NeverNews(as_: seq<Action>, s: Slot, e: Runner) {
    forall i, r :: 0 <= i < |as_| && as_[i].Audit? && r in as_[i].listing && r.id == s.id ==> Agrees(r, e)
  }

  // Over every run: a container that stays tracked is busy exactly if the last flip
  // that hit it said so, however many audits came after; its spawn instant, its
  // on-demand flag and its forge id stay unless a listing says otherwise.
  lemma {:induction false} FlagIsLastFlip(resolve: Resolver, home: string -> nat, t: Table, as_: seq<Action>, s: Slot)
    requires IsRun(resolve, home, t, as_) && s in t && Stays(resolve, home, t, as_, s)
    ensures var e := After(resolve, home, t, as_)[s];
      e.busy == LastFlip(as_, s, t[s].busy) &&
      (NeverNews(as_, s, t[s]) ==> e.onDemand == t[s].onDemand && e.spawnedAt == t[s].spawnedAt && e.forgeId == t[s].forgeId)
  {
    if as_ != [] {
      var before, a := as_[..|as_| - 1], as_[|as_| - 1];
      FlagIsLastFlip(resolve, home, t, before, s);
      assert forall i :: 0 <= i < |before| ==> before[i] == as_[i];
      var was := After(resolve, home, t, before);
      StepRemembers(resolve, home, was, a, s);
      assert NeverNews(as_, s, t[s]) ==> NeverNews(before, s, t[s]);
    }
  }

  lemma StepRemembers(resolve: Resolver, home: string -> nat, t: Table, a: Action, s: Slot)
    requires Enabled(resolve, home, t, a) && s in t && s in Step(resolve, t, a)
    ensures Step(resolve, t, a)[s].busy == if a.Mark? && a.hit == Some(s) then a.busy else t[s].busy
    ensures (a.Audit? ==> forall r :: r in a.listing && r.id == s.id ==> Agrees(r, t[s])) ==>
      Step(resolve, t, a)[s].onDemand == t[s].onDemand && Step(resolve, t, a)[s].spawnedAt == t[s].spawnedAt &&
      Step(resolve, t, a)[s].forgeId == t[s].forgeId
  {
    if a.Audit? {
      ObserveAllRemembers(resolve, t, a.listing, s);
      assert forall r :: r in a.listing && r.id == s.id && Agrees(r, t[s]) ==> NothingNew(r, t[s]);
    }
  }

  // ---- The lifetime switch -------------------------------------------------

  function Anchor(r: Runner): int {
    if r.busySince != 0 then r.busySince else r.spawnedAt
  }

  predicate Overdue(r: Runner, limit: int, now: int) {
    r.running && r.busy && Anchor(r) != 0 && now - Anchor(r) > limit
  }

  // Whatever flips in between, the switch fires on a runner exactly when it is
  // busy and the limit has passed since the first time it was marked busy.
  lemma LifetimeCountsFromFirstBusy(resolve: Resolver, home: string -> nat, past: seq<Action>, key: string, s: Slot,
                                    first: int, as_: seq<Action>, limit: int, now: int)
    requires IsRun(resolve, home, map[], past)
    requires s in After(resolve, home, map[], past) && After(resolve, home, map[], past)[s].busySince == 0
    requires Enabled(resolve, home, After(resolve, home, map[], past), Mark(key, Some(s), true, first))
    requires var busy := Step(resolve, After(resolve, home, map[], past), Mark(key, Some(s), true, first));
      IsRun(resolve, home, busy, as_) && Stays(resolve, home, busy, as_, s)
    ensures var busy := Step(resolve, After(resolve, home, map[], past), Mark(key, Some(s), true, first));
      var r := After(resolve, home, busy, as_)[s];
      Overdue(r, limit, now) <==> r.running && r.busy && now - first > limit
  {
    var idle := After(resolve, home, map[], past);
    var mark := Mark(key, Some(s), true, first);
    EveryRunAnchored(resolve, home, map[], past);
    StepKeepsInv(resolve, home, idle, mark);
    AnchorNeverMoves(resolve, home, Step(resolve, idle, mark), as_, s);
  }

  // An adopted running container counts from its spawn, even if it is first
  // marked busy much later.
  lemma AdoptedCountsFromSpawn(resolve: Resolver, home: string -> nat, past: seq<Action>, row: Runner,
                               as_: seq<Action>, limit: int, now: int)
    requires IsRun(resolve, home, map[], past)
    requires Enabled(resolve, home, After(resolve, home, map[], past), Audit([row]))
    requires row.running && row.spawnedAt != 0 && Slot(home(row.id), row.id) !in After(resolve, home, map[], past)
    requires var adopted := Step(resolve, After(resolve, home, map[], past), Audit([row]));
      IsRun(resolve, home, adopted, as_) && Stays(resolve, home, adopted, as_, Slot(home(row.id), row.id))
    ensures var adopted := Step(resolve, After(resolve, home, map[], past), Audit([row]));
      var r := After(resolve, home, adopted, as_)[Slot(home(row.id), row.id)];
      Overdue(r, limit, now) <==> r.running && r.busy && now - row.spawnedAt > limit
  {
    var t := After(resolve, home, map[], past);
    var s := Slot(home(row.id), row.id);
    assert AtHome(resolve, home, row);
    EveryRunAnchored(resolve, home, map[], past);
    StepKeepsInv(resolve, home, t, Audit([row]));
    assert ObserveAll(t, resolve, [row]) == Observe(t, resolve, row);
    AnchorNeverMoves(resolve, home, Step(resolve, t, Audit([row])), as_, s);
  }

  // ---- Where stability of the resolver matters -----------------------------

  // Auditing one tracked container again leaves it in its bucket and possibly in
  // a second one: exactly when its row now resolves to another pool.
  lemma DoubleTracked(resolve: Resolver, t: Table, pool: nat, row: Runner)
    requires Slot(pool, row.id) in t && forall s :: s in t && s.id == row.id ==> s.pool == pool
    ensures var t1 := Audited(t, resolve, [row]);
      Slot(pool, row.id) in t1 &&
      ((exists s :: s in t1 && s.id == row.id && s.pool != pool) <==> Resolved(resolve, row).pool != pool)
  {
    var t1 := Audited(t, resolve, [row]);
    assert ObserveAll(t, resolve, [row]) == Observe(t, resolve, row);
    assert row in [row];
    if Resolved(resolve, row).pool != pool {
      assert KeyOf(Resolved(resolve, row)) in t1;
    }
  }

  // ---- The reconciler object -----------------------------------------------

  datatype AuditReport = AuditReport(total: nat, active: seq<Runner>, exited: seq<Runner>,
                                     adopted: seq<Runner>, disappeared: set<Slot>)

  predicate IsRunning(r: Runner) { r.running }

  predicate IsExited(r: Runner) { !r.running }

  // The rows of an audit whose container is not running any more.
  function Exited(t: Table, resolve: Resolver, listing: seq<Runner>): seq<Runner> {
    Select(IsExited, Rows(t, resolve, listing))
  }

  function KeysOf(rows: seq<Runner>): set<Slot> {
    set r | r in rows :: KeyOf(r)
  }

  lemma {:induction false} RowIds(t: Table, resolve: Resolver, listing: seq<Runner>)
    ensures forall r :: r in Rows(t, resolve, listing) ==> r.id in Present(listing)
  {
    if listing != [] {
      RowIds(t, resolve, listing[..|listing| - 1]);
      assert listing == listing[..|listing| - 1] + [listing[|listing| - 1]];
    }
  }

  // Every listed container is tracked after the audit.
  lemma {:induction false} ListedTracked(t: Table, resolve: Resolver, listing: seq<Runner>)
    ensures forall id :: id in Present(listing) ==> exists s :: s in ObserveAll(t, resolve, listing) && s.id == id
  {
    if listing != [] {
      var before, last := listing[..|listing| - 1], listing[|listing| - 1];
      ListedTracked(t, resolve, before);
      assert listing == before + [last];
      PresentSnoc(before, last);
      var s := KeyOf(Resolved(resolve, last));
      assert s in ObserveAll(t, resolve, listing) && s.id == last.id;
    }
  }

  // The listing says nothing about the container but that it runs.
  ghost predicate ListedRunning(listing: seq<Runner>, s: Slot, e: Runner) {
    forall r :: r in listing && r.id == s.id ==>
      r.running && r.busySince == 0 && (r.spawnedAt == 0 || r.spawnedAt == e.spawnedAt)
  }

  // Then it stays running and busy under the same anchor, and no row of it is dead.
  lemma {:induction false} ObserveAllAlive(resolve: Resolver, t: Table, listing: seq<Runner>, s: Slot)
    requires s in t && t[s].running && t[s].busy && ListedRunning(listing, s, t[s])
    ensures var t1 := ObserveAll(t, resolve, listing);
      s in t1 && t1[s].running && t1[s].busy && t1[s].busySince == t[s].busySince && t1[s].spawnedAt == t[s].spawnedAt
    ensures forall r :: r in Rows(t, resolve, listing) && r.id == s.id ==> r.running
  {
    if listing != [] {
      var before := listing[..|listing| - 1];
      ObserveAllAlive(resolve, t, before, s);
    }
  }

  lemma LastRowIs(t: Table, resolve: Resolver, listing: seq<Runner>)
    requires listing != []
    ensures var row, r := LastRow(t, resolve, listing), listing[|listing| - 1];
      row.running == r.running && KeyOf(row) == Slot(Resolved(resolve, r).pool, r.id)
  {
    MergedKey(ObserveAll(t, resolve, listing[..|listing| - 1]), Resolved(resolve, listing[|listing| - 1]));
  }

  lemma {:induction false} RowAt(t: Table, resolve: Resolver, listing: seq<Runner>, i: nat)
    requires i < |listing|
    ensures |Rows(t, resolve, listing)| == |listing|
    ensures var row, r := Rows(t, resolve, listing)[i], listing[i];
      row.running == r.running && KeyOf(row) == Slot(Resolved(resolve, r).pool, r.id)
  {
    var before := listing[..|listing| - 1];
    if before != [] { RowAt(t, resolve, before, if i < |before| then i else 0); }
    LastRowIs(t, resolve, listing);
  }

  // The containers found dead are those of the listed rows that do not run.
  lemma DeadAreListed(t: Table, resolve: Resolver, listing: seq<Runner>, s: Slot)
    ensures s in KeysOf(Exited(t, resolve, listing)) <==>
      exists r :: r in listing && !r.running && s == Slot(Resolved(resolve, r).pool, r.id)
  {
    var rows := Rows(t, resolve, listing);
    SelectMembers(IsExited, rows);
    if s in KeysOf(Exited(t, resolve, listing)) {
      var row :| row in rows && !row.running && KeyOf(row) == s;
      if listing != [] { RowAt(t, resolve, listing, 0); }
      var i :| 0 <= i < |rows| && rows[i] == row;
      RowAt(t, resolve, listing, i);
      assert listing[i] in listing;
    }
    if r :| r in listing && !r.running && s == Slot(Resolved(resolve, r).pool, r.id) {
      var i :| 0 <= i < |listing| && listing[i] == r;
      RowAt(t, resolve, listing, i);
      assert rows[i] in Exited(t, resolve, listing) && KeyOf(rows[i]) == s;
    }
  }

  lemma RowsSnoc(t: Table, resolve: Resolver, listing: seq<Runner>)
    requires listing != []
    ensures var before, r := listing[..|listing| - 1], LastRow(t, resolve, listing);
      Select(IsRunning, Rows(t, resolve, listing)) ==
        Select(IsRunning, Rows(t, resolve, before)) + (if r.running then [r] else []) &&
      Exited(t, resolve, listing) == Exited(t, resolve, before) + if r.running then [] else [r]
  {
    var rows, r := Rows(t, resolve, listing[..|listing| - 1]), LastRow(t, resolve, listing);
    SelectSnoc(IsRunning, rows, r);
    SelectSnoc(IsExited, rows, r);
  }

  lemma ObserveSnoc(t: Table, resolve: Resolver, listing: seq<Runner>)
    requires listing != []
    ensures var before, r := listing[..|listing| - 1], LastRow(t, resolve, listing);
      ObserveAll(t, resolve, listing) == ObserveAll(t, resolve, before)[KeyOf(r) := r] &&
      Present(listing) == Present(before) + {listing[|listing| - 1].id}
  {
    MergedKey(ObserveAll(t, resolve, listing[..|listing| - 1]), Resolved(resolve, listing[|listing| - 1]));
    PresentSnoc(listing[..|listing| - 1], listing[|listing| - 1]);
    assert listing == listing[..|listing| - 1] + [listing[|listing| - 1]];
  }

  lemma MergedKey(t: Table, r: Runner)
    ensures KeyOf(Merged(t, r)) == KeyOf(r) && Merged(t, r).running == r.running
  {
  }

  // An audit after the first rows of its listing.
  ghost predicate AuditSoFar(t: Table, resolve: Resolver, rows: seq<Runner>, tracked: Table, live: set<string>,
                             active: seq<Runner>, exited: seq<Runner>) {
    && tracked == ObserveAll(t, resolve, rows) && live == Present(rows)
    && active == Select(IsRunning, Rows(t, resolve, rows)) && exited == Exited(t, resolve, rows)
  }

  lemma AuditNext(t: Table, resolve: Resolver, listing: seq<Runner>, i: nat, tracked: Table, live: set<string>,
                  active: seq<Runner>, exited: seq<Runner>)
    requires i < |listing| && AuditSoFar(t, resolve, listing[..i], tracked, live, active, exited)
    ensures var r := Merged(tracked, Resolved(resolve, listing[i]));
      AuditSoFar(t, resolve, listing[..i + 1], tracked[KeyOf(r) := r], live + {listing[i].id},
                 if r.running then active + [r] else active, if r.running then exited else exited + [r])
  {
    assert listing[..i + 1][..i] == listing[..i];
    RowsSnoc(t, resolve, listing[..i + 1]);
    ObserveSnoc(t, resolve, listing[..i + 1]);
  }

  lemma PresentSnoc(listing: seq<Runner>, r: Runner)
    ensures Present(listing + [r]) == Present(listing) + {r.id}
  {
  }

  // The containers adopted so far, each once.
  ghost predicate AdoptedSoFar(t: Table, t1: Table, adopted: seq<Runner>) {
    t.Keys <= t1.Keys && (forall s :: s in KeysOf(adopted) <==> s in t1 && s !in t) && |adopted| == |t1| - |t|
  }

  lemma AdoptNext(t: Table, t1: Table, adopted: seq<Runner>, r: Runner)
    requires AdoptedSoFar(t, t1, adopted)
    ensures AdoptedSoFar(t, t1[KeyOf(r) := r], if KeyOf(r) in t1 then adopted else adopted + [r])
  {
    KeysSnoc(adopted, r);
    MoreKeys(t1, KeyOf(r), r);
  }

  lemma MoreKeys(t: Table, s: Slot, r: Runner)
    ensures |t[s := r]| == if s in t then |t| else |t| + 1
  {
    assert t[s := r].Keys == t.Keys + {s};
  }

  lemma KeysSnoc(rows: seq<Runner>, r: Runner)
    ensures KeysOf(rows + [r]) == KeysOf(rows) + {KeyOf(r)}
  {
  }

  // A listing of a pool's entries in some order.
  ghost predicate IsSnapshot(t: Table, pool: nat, rs: seq<Runner>) {
    && (forall i :: 0 <= i < |rs| ==> Slot(pool, rs[i].id) in t && t[Slot(pool, rs[i].id)] == rs[i])
    && (forall s :: s in t && s.pool == pool ==> exists i :: 0 <= i < |rs| && rs[i].id == s.id)
    && (forall i, j :: 0 <= i < j < |rs| ==> rs[i].id != rs[j].id)
  }

  class Reconciler {
    var tracked: Table

    constructor ()
      ensures tracked == map[]
    {
      tracked := map[];
    }

    static method KeepSticky(e: Runner, r: Runner) returns (m: Runner)
      ensures m == Kept(e, r)
    {
      var busy, spawned, since, onDemand, forge := r.busy, r.spawnedAt, r.busySince, r.onDemand, r.forgeId;
      if !busy && e.busy { busy := e.busy; }
      if spawned == 0 && e.spawnedAt != 0 { spawned := e.spawnedAt; }
      if since == 0 && e.busySince != 0 { since := e.busySince; }
      if !onDemand && e.onDemand { onDemand := e.onDemand; }
      if forge == 0 && e.forgeId != 0 { forge := e.forgeId; }
      m := r.(busy := busy, spawnedAt := spawned, busySince := since, onDemand := onDemand, forgeId := forge);
    }

    // The merge of one row.
    method MergeRow(resolve: Resolver, row: Runner) returns (r: Runner)
      ensures r == Merged(tracked, Resolved(resolve, row))
    {
      r := row;
      if r.pool == 0 && r.poolName != "" {
        var p := resolve(r.poolName);
        if p.Some? { r := r.(pool := p.value); }
      }
      if Slot(r.pool, r.id) in tracked {
        r := KeepSticky(tracked[Slot(r.pool, r.id)], r);
      } else if r.running && r.spawnedAt != 0 {
        r := r.(busySince := r.spawnedAt);
      }
    }

    // Forgets every container that is no longer on the host.
    method DropAbsent(live: set<string>) returns (disappeared: set<Slot>)
      modifies this
      ensures tracked == map s | s in old(tracked) && s.id in live :: old(tracked)[s]
      ensures disappeared == old(tracked).Keys - tracked.Keys
    {
      ghost var seen := tracked;
      var todo := tracked.Keys;
      disappeared := {};
      while todo != {}
        invariant todo <= seen.Keys && disappeared <= seen.Keys
        invariant forall s :: s in seen && s !in todo ==> (s in disappeared <==> s.id !in live)
        invariant disappeared !! todo && tracked == seen - disappeared
      {
        var s := Pick(todo);
        todo := todo - {s};
        if s.id !in live {
          disappeared := disappeared + {s};
          tracked := tracked - {s};
        }
      }
    }

    method Audit(resolve: Resolver, listing: seq<Runner>) returns (report: AuditReport)
      modifies this
      ensures tracked == Audited(old(tracked), resolve, listing)
      ensures report.total == |tracked|
      ensures report.active == Select(IsRunning, Rows(old(tracked), resolve, listing))
      ensures report.exited == Exited(old(tracked), resolve, listing)
      ensures report.disappeared == ObserveAll(old(tracked), resolve, listing).Keys - tracked.Keys
      ensures AdoptedSoFar(old(tracked), ObserveAll(old(tracked), resolve, listing), report.adopted)
    {
      var active, exited, adopted := [], [], [];
      var live: set<string> := {};
      for i := 0 to |listing|
        invariant AuditSoFar(old(tracked), resolve, listing[..i], tracked, live, active, exited)
        invariant AdoptedSoFar(old(tracked), tracked, adopted)
      {
        AuditNext(old(tracked), resolve, listing, i, tracked, live, active, exited);
        live := live + {listing[i].id};
        var r := MergeRow(resolve, listing[i]);
        AdoptNext(old(tracked), tracked, adopted, r);
        if Slot(r.pool, r.id) !in tracked { adopted := adopted + [r]; }
        if r.running { active := active + [r]; } else { exited := exited + [r]; }
        tracked := tracked[Slot(r.pool, r.id) := r];
      }
      assert listing[..|listing|] == listing;
      var disappeared := DropAbsent(live);
      report := AuditReport(|tracked|, active, exited, adopted, disappeared);
    }

    // A snapshot of a pool's runners.  The source sorts it by name; any order is
    // allowed here.
    method TrackedPoolRunners(pool: nat) returns (rs: seq<Runner>)
      requires WellKeyed(tracked)
      ensures IsSnapshot(tracked, pool, rs)
    {
      rs := [];
      var todo := tracked.Keys;
      while todo != {}
        invariant todo <= tracked.Keys
        invariant forall i :: 0 <= i < |rs| ==> Slot(pool, rs[i].id) in tracked.Keys - todo && tracked[Slot(pool, rs[i].id)] == rs[i]
        invariant forall s :: s in tracked && s !in todo && s.pool == pool ==> exists i :: 0 <= i < |rs| && rs[i].id == s.id
        invariant forall i, j :: 0 <= i < j < |rs| ==> rs[i].id != rs[j].id
      {
        var s := Pick(todo);
        ghost var before := rs;
        if s.pool == pool {
          rs := rs + [tracked[s]];
          assert rs[|rs| - 1].id == s.id;
          assert forall i :: 0 <= i < |before| ==> rs[i] == before[i];
        }
        todo := todo - {s};
      }
    }

    // The open job rows boot recovery keeps: (pool, name) of every resolved, named
    // container.
    method TrackedJobKeys() returns (keys: set<(nat, string)>)
      ensures keys == set s | s in tracked && s.pool != 0 && tracked[s].name != "" :: (s.pool, tracked[s].name)
    {
      keys := {};
      var todo := tracked.Keys;
      while todo != {}
        invariant todo <= tracked.Keys
        invariant keys == set s | s in tracked.Keys - todo && s.pool != 0 && tracked[s].name != "" :: (s.pool, tracked[s].name)
      {
        var s := Pick(todo);
        todo := todo - {s};
        if s.pool != 0 && tracked[s].name != "" { keys := keys + {(s.pool, tracked[s].name)}; }
      }
    }

    method TrackRunner(r: Runner)
      modifies this
      ensures tracked == old(tracked)[KeyOf(r) := r]
    {
      tracked := tracked[Slot(r.pool, r.id) := r];
    }

    method UntrackRunner(pool: nat, id: string)
      modifies this
      ensures tracked == old(tracked) - {Slot(pool, id)}
    {
      if Slot(pool, id) in tracked { tracked := tracked - {Slot(pool, id)}; }
    }

    // Marks the first match, if there is one.
    method MarkRunnerBusy(key: string, busy: bool, now: int) returns (ghost hit: Option<Slot>)
      modifies this
      ensures hit.Some? ==> hit.value in old(tracked) && Matches(old(tracked)[hit.value], key)
      ensures hit.None? ==> forall s :: s in tracked ==> tracked[s].id != key && tracked[s].name != key
      ensures tracked == MarkEntry(old(tracked), hit, busy, now)
    {
      var todo := tracked.Keys;
      while todo != {}
        invariant todo <= tracked.Keys && tracked == old(tracked)
        invariant forall s :: s in tracked && s !in todo ==> !Matches(tracked[s], key)
      {
        var s := Pick(todo);
        todo := todo - {s};
        var r := tracked[s];
        if r.id == key || r.name == key {
          r := r.(busy := busy);
          if busy && r.busySince == 0 { r := r.(busySince := now); }
          tracked := tracked[s := r];
          return Some(s);
        }
      }
      return None;
    }
  }
}
