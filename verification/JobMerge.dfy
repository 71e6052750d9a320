// What the recorder operations promise together: the indexes survive every
// call, closed rows stay closed, completion is idempotent, and the events of
// one job converge to one row whatever their order.
module JobMerge {
  import opened Basics
  import opened JobTable
  import opened JobRecorder

  // ---- Both indexes survive every recorder call -----------------------------

  lemma AppendValid(t: Table, r: JobRow)
    requires Valid(t) && Free(t.rows, t.nextId, r)
    ensures Valid(Append(t, r).table)
  {
    PutUnique(t.rows, t.nextId, r);
  }

  lemma GuardValid(t: Table, i: nat, r: JobRow)
    requires Valid(t) && i in t.rows
    requires forall j :: r.jobId.Some? && IsJob(t.rows, j, r.jobId.value) ==> j == i
    ensures Valid(ReopenGuard(t, i, r).table)
  {
    PutUnique(t.rows, i, r);
  }

  lemma StartedValid(t: Table, pool: int, job: int, runner: string, startedAt: int, queuedAt: int, meta: Meta)
    requires Valid(t)
    ensures Valid(DoStarted(t, pool, job, runner, startedAt, queuedAt, meta).table)
  {
    if job == 0 || runner == "" {
    } else if HasOpenJob(t.rows, job) {
      var s := JobRowOf(t.rows, job);
      if !HasSlot(t.rows, pool, runner) {
        PutUnique(t.rows, s, Promote(t.rows[s], runner, startedAt));
      } else {
        var k := SlotOf(t.rows, pool, runner);
        DropUnique(t.rows, t.rows - {s});
        if k != s {
          AbsorbFree(t.rows, s, k, job, startedAt, EffectiveQueued(t.rows[s], queuedAt), meta);
        }
      }
    } else if !HasJob(t.rows, job) {
      if HasSlot(t.rows, pool, runner) {
        var k := SlotOf(t.rows, pool, runner);
        PutUnique(t.rows, k, Attach(t.rows[k], job, startedAt, NullTime(queuedAt), meta));
      } else {
        AppendValid(t, RunningRow(pool, job, runner, startedAt, NullTime(queuedAt), meta));
      }
    }
  }

  lemma CompletedValid(t: Table, pool: int, job: int, runner: string, status: Status, at: Option<int>)
    requires Valid(t)
    ensures Valid(DoCompleted(t, pool, job, runner, status, at).table)
  {
    if job != 0 && HasOpenJob(t.rows, job) {
      var i := JobRowOf(t.rows, job);
      GuardValid(t, i, ConcludeAs(t.rows[i], runner, status, at));
      var o := ReopenGuard(t, i, ConcludeAs(t.rows[i], runner, status, at));
      DropUnique(o.table.rows, WithoutDuplicates(o.table.rows, pool, runner));
    } else if HasBareSlot(t.rows, pool, runner) {
      StampValid(t, SlotOf(t.rows, pool, runner), status, at, job);
    } else if HasUpgradableJob(t.rows, job) {
      var i := JobRowOf(t.rows, job);
      GuardValid(t, i, Conclude(t.rows[i], status, at));
    } else if runner != "" && HasLatest(t.rows, pool, runner) {
      StampValid(t, LatestOf(t.rows, pool, runner), status, at, job);
    }
  }

  lemma StampValid(t: Table, i: nat, status: Status, at: Option<int>, job: int)
    requires Valid(t) && i in t.rows && NoJobId(t.rows[i])
    ensures Valid(StampRow(t, i, status, at, job).table)
  {
    StampFree(t, i, status, at, job);
    PutUnique(t.rows, i, Stamp(t.rows[i], status, at, NullId(job)));
  }

  lemma KeepsIndexes(t: Table, op: Op)
    requires Valid(t)
    ensures Valid(Do(t, op).table)
  {
    match op
    case OpenTransition(pool, runner, at) =>
      if !HasSlot(t.rows, pool, runner) { AppendValid(t, TransitionRow(pool, runner, at)); }
    case CloseTransition(pool, runner, status, job, log, at) =>
      var id := if job > 0 then Some(job) else None;
      ClosedUnique(t.rows, ClosedRows(t.rows, pool, runner, status, id, NullPath(log), NullTime(at)),
                   pool, runner, status, id, NullPath(log), NullTime(at));
    case JobTimeout(pool, runner, log, at) =>
      ClosedUnique(t.rows, ClosedRows(t.rows, pool, runner, Timeout, None, NullPath(log), Some(at)),
                   pool, runner, Timeout, None, NullPath(log), Some(at));
    case CloseInterrupted(at, keep) => CloseUnique(t.rows, InterruptedRows(t.rows, at, keep));
    case CloseStale(pool, cutoff, at) => CloseUnique(t.rows, StaleRows(t.rows, pool, cutoff, at));
    case WebhookQueued(pool, job, meta, at) =>
      if job != 0 && !HasJob(t.rows, job) {
        AppendValid(t, StubRow(pool, job, meta, at));
      } else if job != 0 {
        var i := JobRowOf(t.rows, job);
        if Open(t.rows[i]) {
          FreeSame(t.rows, i, Requeue(t.rows[i], meta, at));
          PutUnique(t.rows, i, Requeue(t.rows[i], meta, at));
        }
      }
    case WebhookStarted(pool, job, runner, started, queued, meta) =>
      StartedValid(t, pool, job, runner, started, queued, meta);
    case WebhookCompleted(pool, job, runner, status, at) =>
      CompletedValid(t, pool, job, runner, status, NullTime(at));
  }

  lemma {:induction false} RunKeepsIndexes(t: Table, ops: seq<Op>)
    requires Valid(t)
    ensures Valid(Run(t, ops))
  {
    if ops != [] {
      RunKeepsIndexes(t, ops[..|ops| - 1]);
      KeepsIndexes(Run(t, ops[..|ops| - 1]), ops[|ops| - 1]);
    }
  }

  // ---- RecordWebhookStarted: why the stub goes first ------------------------

  // Deleting the stub and then attaching keeps both indexes after each
  // statement; attaching first would leave two rows with one job id.
  lemma AbsorbFree(rows: Rows, s: nat, k: nat, job: int, startedAt: int, queued: Option<int>, meta: Meta)
    requires Unique(rows) && IsJob(rows, s, job) && k in rows && k != s
    requires Open(rows[k])
    ensures Unique(rows - {s})
    ensures Unique((rows - {s})[k := Attach(rows[k], job, startedAt, queued, meta)])
    ensures !Unique(rows[k := Attach(rows[k], job, startedAt, queued, meta)])
  {
    var r := Attach(rows[k], job, startedAt, queued, meta);
    DropUnique(rows, rows - {s});
    assert forall j :: IsJob(rows - {s}, j, job) ==> IsJob(rows, j, job) && j != s;
    assert IsSlot(rows, k, r.pool, r.runner);
    assert forall j :: IsSlot(rows - {s}, j, r.pool, r.runner) ==> IsSlot(rows, j, r.pool, r.runner);
    PutUnique(rows - {s}, k, r);
    PutUnique(rows, k, r);
  }

  // The stub is already the runner's own open row: a redelivered in_progress.
  ghost predicate Redelivered(t: Table, pool: int, job: int, runner: string) {
    HasOpenJob(t.rows, job) && IsSlot(t.rows, JobRowOf(t.rows, job), pool, runner)
  }

  // An accepted in_progress leaves the job an open row, except exactly when it
  // is a redelivery: then the row is deleted and nothing takes its place.
  lemma StartedKeepsJob(t: Table, pool: int, job: int, runner: string, startedAt: int, queuedAt: int, meta: Meta)
    requires Valid(t) && job != 0 && runner != ""
    ensures var o := DoStarted(t, pool, job, runner, startedAt, queuedAt, meta);
      o.ok ==> (HasOpenJob(o.table.rows, job) <==> !Redelivered(t, pool, job, runner))
  {
    var o := DoStarted(t, pool, job, runner, startedAt, queuedAt, meta);
    StartedValid(t, pool, job, runner, startedAt, queuedAt, meta);
    if o.ok {
      if HasOpenJob(t.rows, job) {
        var s := JobRowOf(t.rows, job);
        if HasSlot(t.rows, pool, runner) {
          var k := SlotOf(t.rows, pool, runner);
          if k == s {
            assert forall j :: IsJob(o.table.rows, j, job) ==> IsJob(t.rows, j, job) && j != s;
          } else {
            assert IsSlot(t.rows, s, pool, runner) ==> false by { OneSlot(t.rows, k, pool, runner); }
            OneJobRow(o.table.rows, k, job);
          }
        } else {
          OneJobRow(o.table.rows, s, job);
        }
      } else if HasSlot(t.rows, pool, runner) {
        OneJobRow(o.table.rows, SlotOf(t.rows, pool, runner), job);
      } else {
        OneJobRow(o.table.rows, t.nextId, job);
      }
    }
  }

  // A concrete redelivery: the second identical in_progress loses the job.
  lemma RedeliveryLosesJob(t: Table, pool: int, job: int, runner: string, at: int, queuedAt: int, meta: Meta)
    requires Valid(t) && job != 0 && runner != ""
    requires !HasJob(t.rows, job) && !HasSlot(t.rows, pool, runner)
    ensures var ev := WebhookStarted(pool, job, runner, at, queuedAt, meta);
      HasOpenJob(Run(t, [ev]).rows, job) && !HasJob(Run(t, [ev, ev]).rows, job)
  {
    var ev := WebhookStarted(pool, job, runner, at, queuedAt, meta);
    RunOne(t, ev);
    RunTwo(t, ev, ev);
    var t1 := Do(t, ev).table;
    KeepsIndexes(t, ev);
    assert IsJob(t1.rows, t.nextId, job) && IsSlot(t1.rows, t.nextId, pool, runner);
    OneJobRow(t1.rows, t.nextId, job);
    OneSlot(t1.rows, t.nextId, pool, runner);
    assert forall j :: IsJob(Do(t1, ev).table.rows, j, job) ==> IsJob(t1.rows, j, job) && j != t.nextId;
  }

  lemma RunOne(t: Table, a: Op)
    ensures Run(t, [a]) == Do(t, a).table
  {
    assert [a][..0] == [];
  }

  lemma RunTwo(t: Table, a: Op, b: Op)
    ensures Run(t, [a, b]) == Do(Do(t, a).table, b).table
  {
    assert [a, b][..1] == [a];
    RunOne(t, a);
  }

  lemma RunSnoc(t: Table, ops: seq<Op>, a: Op)
    ensures Run(t, ops + [a]) == Do(Run(t, ops), a).table
  {
    assert (ops + [a])[..|ops|] == ops;
  }

  lemma RunThenTwo(t: Table, ops: seq<Op>, a: Op, b: Op)
    ensures Run(t, ops + [a, b]) == Do(Do(Run(t, ops), a).table, b).table
  {
    assert ops + [a, b] == (ops + [a]) + [b];
    RunSnoc(t, ops, a);
    RunSnoc(t, ops + [a], b);
  }

  // ---- A queued event for a closed job -------------------------------------

  // It is refused exactly when the job's row is closed already; then the table is
  // unchanged.
  lemma QueuedRefused(t: Table, pool: int, job: int, meta: Meta, queuedAt: int)
    requires Valid(t)
    ensures var o := Do(t, WebhookQueued(pool, job, meta, queuedAt));
      (!o.ok <==> job != 0 && exists i :: IsJob(t.rows, i, job) && !Open(t.rows[i])) && (!o.ok ==> o.table == t)
  {
    if i :| IsJob(t.rows, i, job) && !Open(t.rows[i]) { OneJobRow(t.rows, i, job); }
  }

  // ---- Closed rows ---------------------------------------------------------

  // No closed row is deleted, reopened, or (unless closed as 'completed') given
  // another status.
  ghost predicate ClosedKept(a: Rows, b: Rows) {
    forall i :: i in a && !Open(a[i]) ==>
      i in b && !Open(b[i]) && (a[i].status != Completed ==> b[i].status == a[i].status)
  }

  // The forge's completed_at was present.
  predicate Timed(op: Op) {
    op.WebhookCompleted? ==> op.at != 0
  }

  lemma StartedKeepsClosed(t: Table, op: Op)
    requires Valid(t) && op.WebhookStarted?
    ensures ClosedKept(t.rows, Do(t, op).table.rows)
  {
  }

  lemma CompletedKeepsClosed(t: Table, op: Op)
    requires Valid(t) && op.WebhookCompleted? && op.at != 0
    ensures ClosedKept(t.rows, Do(t, op).table.rows)
  {
  }

  lemma ClosedStaysClosed(t: Table, op: Op)
    requires Valid(t) && Timed(op)
    ensures ClosedKept(t.rows, Do(t, op).table.rows)
  {
    match op
    case WebhookStarted(_, _, _, _, _, _) => StartedKeepsClosed(t, op);
    case WebhookCompleted(_, _, _, _, _) => CompletedKeepsClosed(t, op);
    case _ =>
  }

  lemma {:induction false} RunClosedStaysClosed(t: Table, ops: seq<Op>)
    requires Valid(t) && forall k :: 0 <= k < |ops| ==> Timed(ops[k])
    ensures ClosedKept(t.rows, Run(t, ops).rows)
  {
    if ops != [] {
      RunKeepsIndexes(t, ops[..|ops| - 1]);
      RunClosedStaysClosed(t, ops[..|ops| - 1]);
      ClosedStaysClosed(Run(t, ops[..|ops| - 1]), ops[|ops| - 1]);
    }
  }

  // The call takes one of the two upgrade branches.
  ghost predicate Upgrades(t: Table, pool: int, job: int, runner: string) {
    && !(job != 0 && HasOpenJob(t.rows, job)) && !HasBareSlot(t.rows, pool, runner)
    && (HasUpgradableJob(t.rows, job) || (runner != "" && HasLatest(t.rows, pool, runner)))
  }

  ghost function Upgraded(t: Table, pool: int, job: int, runner: string): nat
    requires Upgrades(t, pool, job, runner)
  {
    if HasUpgradableJob(t.rows, job) then JobRowOf(t.rows, job) else LatestOf(t.rows, pool, runner)
  }

  // Reopening the upgraded row takes no slot in use, and stamping the job's id
  // onto a row without one no id in use.
  ghost predicate UpgradeFits(t: Table, pool: int, job: int, runner: string)
    requires Upgrades(t, pool, job, runner)
  {
    var r := t.rows[Upgraded(t, pool, job, runner)];
    && (r.runner == "" || !HasSlot(t.rows, r.pool, r.runner))
    && (HasUpgradableJob(t.rows, job) || job == 0 || !HasJob(t.rows, job))
  }

  ghost predicate Reopened(a: Rows, b: Rows, i: nat) {
    i in a && !Open(a[i]) && i in b && Open(b[i])
  }

  // A completed event reopens a closed row exactly when it carries no time,
  // takes an upgrade branch and the row's slot and the id are free.
  lemma UntimedReopens(t: Table, pool: int, job: int, runner: string, status: Status, at: int)
    requires Valid(t)
    ensures (exists i :: Reopened(t.rows, Do(t, WebhookCompleted(pool, job, runner, status, at)).table.rows, i)) <==>
      at == 0 && Upgrades(t, pool, job, runner) && UpgradeFits(t, pool, job, runner)
  {
    if at != 0 {
      ClosedStaysClosed(t, WebhookCompleted(pool, job, runner, status, at));
    } else if Upgrades(t, pool, job, runner) && UpgradeFits(t, pool, job, runner) {
      var i := Upgraded(t, pool, job, runner);
      assert Reopened(t.rows, Do(t, WebhookCompleted(pool, job, runner, status, at)).table.rows, i);
    } else {
      OpenBranchesKeepClosed(t, pool, job, runner, status);
    }
  }

  lemma OpenBranchesKeepClosed(t: Table, pool: int, job: int, runner: string, status: Status)
    requires Valid(t)
    requires !(Upgrades(t, pool, job, runner) && UpgradeFits(t, pool, job, runner))
    ensures var o := DoCompleted(t, pool, job, runner, status, None);
      forall i :: i in t.rows && !Open(t.rows[i]) && i in o.table.rows ==> o.table.rows[i] == t.rows[i]
  {
    var o := DoCompleted(t, pool, job, runner, status, None);
    if job != 0 && HasOpenJob(t.rows, job) {
      var i := JobRowOf(t.rows, job);
      var r := ConcludeAs(t.rows[i], runner, status, None);
      if o.ok { assert o.table.rows == WithoutDuplicates(t.rows[i := r], pool, runner); }
    } else if HasBareSlot(t.rows, pool, runner) {
      var i := SlotOf(t.rows, pool, runner);
      if o.ok { assert o.table.rows == t.rows[i := Stamp(t.rows[i], status, None, NullId(job))]; }
    } else if Upgrades(t, pool, job, runner) {
      var r := t.rows[Upgraded(t, pool, job, runner)];
      if r.runner != "" && HasSlot(t.rows, r.pool, r.runner) {
        assert SlotOf(t.rows, r.pool, r.runner) != Upgraded(t, pool, job, runner);
      }
      assert o.table == t;
    } else {
      assert o.table == t;
    }
  }

  // Busy and idle again: the runner's row is closed as completed, without an id.
  ghost function BusyThenIdle(t: Table, pool: int, runner: string, from: int, till: int): Table {
    Do(Do(t, OpenTransition(pool, runner, from)).table, CloseTransition(pool, runner, Completed, 0, "", till)).table
  }

  lemma IdleRows(t: Table, pool: int, runner: string, from: int, till: int)
    requires Valid(t) && !HasSlot(t.rows, pool, runner)
    ensures BusyThenIdle(t, pool, runner, from, till).rows ==
      t.rows[t.nextId := CloseRow(TransitionRow(pool, runner, from), Completed, None, None, NullTime(till))]
  {
    assert forall i :: i in t.rows ==> !IsSlot(t.rows, i, pool, runner);
  }

  lemma IdleReopens(t: Table, idle: Table, pool: int, job: int, runner: string, from: int, till: int, status: Status)
    requires job != 0 && runner != "" && till != 0 && !HasJob(t.rows, job) && t.nextId !in t.rows
    requires forall i :: i in t.rows ==> t.rows[i].runner != runner
    requires idle.rows ==
      t.rows[t.nextId := CloseRow(TransitionRow(pool, runner, from), Completed, None, None, Some(till))]
    ensures Reopened(idle.rows, DoCompleted(idle, pool, job, runner, status, None).table.rows, t.nextId)
  {
    assert forall i :: IsJob(idle.rows, i, job) ==> IsJob(t.rows, i, job);
    assert !HasSlot(idle.rows, pool, runner);
    OneLatest(idle.rows, t.nextId, pool, runner);
  }

  // A concrete case: the runner was busy and idle, and the completed event comes
  // without a time.
  lemma UntimedReopensIdleRunner(t: Table, pool: int, job: int, runner: string, from: int, till: int, status: Status)
    requires Valid(t) && job != 0 && runner != "" && till != 0 && !HasJob(t.rows, job)
    requires forall i :: i in t.rows ==> t.rows[i].runner != runner
    ensures var idle := BusyThenIdle(t, pool, runner, from, till);
      Reopened(idle.rows, Do(idle, WebhookCompleted(pool, job, runner, status, 0)).table.rows, t.nextId)
  {
    IdleRows(t, pool, runner, from, till);
    IdleReopens(t, BusyThenIdle(t, pool, runner, from, till), pool, job, runner, from, till, status);
  }

  // ---- Completion is idempotent --------------------------------------------

  // The job id is already on a closed row that carries this conclusion, and no
  // open row is left for the runner to close: the state a first delivery leaves.
  ghost predicate Concluded(t: Table, pool: int, job: int, runner: string, status: Status, at: Option<int>) {
    && HasJob(t.rows, job) && var r := t.rows[JobRowOf(t.rows, job)];
       !Open(r) && r.status == status && r.completedAt == at && !HasBareSlot(t.rows, pool, runner)
  }

  lemma ConcludedIsStable(t: Table, pool: int, job: int, runner: string, status: Status, at: Option<int>)
    requires Valid(t) && job != 0 && Concluded(t, pool, job, runner, status, at)
    ensures DoCompleted(t, pool, job, runner, status, at).table == t
  {
    var i := JobRowOf(t.rows, job);
    if HasUpgradableJob(t.rows, job) {
      assert Conclude(t.rows[i], status, at) == t.rows[i];
      assert t.rows[i := t.rows[i]] == t.rows;
    }
  }

  lemma StampConcludes(t: Table, i: nat, pool: int, job: int, runner: string, status: Status, at: Option<int>)
    requires Valid(t) && job != 0 && at.Some? && i in t.rows && NoJobId(t.rows[i])
    requires StampRow(t, i, status, at, job).ok
    requires HasBareSlot(t.rows, pool, runner) ==> i == SlotOf(t.rows, pool, runner)
    ensures Concluded(StampRow(t, i, status, at, job).table, pool, job, runner, status, at)
  {
    var t1 := StampRow(t, i, status, at, job).table;
    StampValid(t, i, status, at, job);
    OneJobRow(t1.rows, i, job);
    BareSlotKept(t.rows, t1.rows, i, pool, runner);
  }

  // Closing or rewriting closed row i creates no bare slot.
  lemma BareSlotKept(a: Rows, b: Rows, i: nat, pool: int, runner: string)
    requires Unique(a) && i in b && !Open(b[i])
    requires forall j :: j in b && j != i ==> j in a && b[j] == a[j]
    requires HasBareSlot(a, pool, runner) ==> i == SlotOf(a, pool, runner)
    ensures !HasBareSlot(b, pool, runner)
  {
    if HasBareSlot(b, pool, runner) {
      var k := SlotOf(b, pool, runner);
      OneSlot(a, k, pool, runner);
    }
  }

  lemma FirstDeliveryConcludes(t: Table, pool: int, job: int, runner: string, status: Status, at: Option<int>)
    requires Valid(t) && job != 0 && at.Some?
    ensures var o := DoCompleted(t, pool, job, runner, status, at);
      o.table != t ==> Concluded(o.table, pool, job, runner, status, at)
  {
    var o := DoCompleted(t, pool, job, runner, status, at);
    CompletedValid(t, pool, job, runner, status, at);
    if o.table != t {
      if HasOpenJob(t.rows, job) {
        var i := JobRowOf(t.rows, job);
        OneJobRow(o.table.rows, i, job);
        if HasBareSlot(o.table.rows, pool, runner) {
          assert Duplicate(o.table.rows[SlotOf(o.table.rows, pool, runner)], pool, runner);
        }
      } else if HasBareSlot(t.rows, pool, runner) {
        StampConcludes(t, SlotOf(t.rows, pool, runner), pool, job, runner, status, at);
      } else if HasUpgradableJob(t.rows, job) {
        var i := JobRowOf(t.rows, job);
        OneJobRow(o.table.rows, i, job);
        BareSlotKept(t.rows, o.table.rows, i, pool, runner);
      } else {
        StampConcludes(t, LatestOf(t.rows, pool, runner), pool, job, runner, status, at);
      }
    }
  }

  // Delivering the same completed event twice leaves the table of one delivery.
  lemma CompletedTwice(t: Table, pool: int, job: int, runner: string, status: Status, at: int)
    requires Valid(t) && job != 0 && at != 0
    ensures var ev := WebhookCompleted(pool, job, runner, status, at);
      Run(t, [ev, ev]) == Run(t, [ev])
  {
    var ev := WebhookCompleted(pool, job, runner, status, at);
    RunOne(t, ev);
    RunTwo(t, ev, ev);
    var t1 := Do(t, ev).table;
    if t1 != t {
      KeepsIndexes(t, ev);
      FirstDeliveryConcludes(t, pool, job, runner, status, Some(at));
      ConcludedIsStable(t1, pool, job, runner, status, Some(at));
    }
  }
}
