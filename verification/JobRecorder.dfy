// The recorder methods of internal/db/db.go over a mutable table.  Every SQL
// statement is one call of Exec or ExecInsert, which refuses (and leaves the
// table alone) when a unique index would be violated; a transaction restores
// the table it started from when one of its statements is refused.
module JobRecorder {
  import opened Basics
  import opened JobTable

  lemma OneJobRow(rows: Rows, i: nat, job: int)
    requires Unique(rows) && IsJob(rows, i, job)
    ensures HasJob(rows, job) && JobRowOf(rows, job) == i
  {
  }

  lemma OneSlot(rows: Rows, i: nat, pool: int, runner: string)
    requires Unique(rows) && IsSlot(rows, i, pool, runner) && runner != ""
    ensures HasSlot(rows, pool, runner) && SlotOf(rows, pool, runner) == i
  {
  }

  lemma OneLatest(rows: Rows, i: nat, pool: int, runner: string)
    requires IsLatest(rows, i, pool, runner)
    ensures HasLatest(rows, pool, runner) && LatestOf(rows, pool, runner) == i
  {
  }

  // Writing one row is accepted exactly when its job id and its open slot are free.
  ghost predicate Free(rows: Rows, i: nat, r: JobRow) {
    && (forall j :: r.jobId.Some? && IsJob(rows, j, r.jobId.value) ==> j == i)
    && (forall j :: Open(r) && r.runner != "" && IsSlot(rows, j, r.pool, r.runner) ==> j == i)
  }

  lemma PutUnique(rows: Rows, i: nat, r: JobRow)
    requires Unique(rows)
    ensures Unique(rows[i := r]) <==> Free(rows, i, r)
  {
    var after := rows[i := r];
    assert forall j, job :: IsJob(after, j, job) <==> if j == i then r.jobId == Some(job) else IsJob(rows, j, job);
    assert forall j, pool, runner :: IsSlot(after, j, pool, runner) <==>
      if j == i then OpenFor(r, pool, runner) else IsSlot(rows, j, pool, runner);
    if Unique(after) {
      if r.jobId.Some? { assert IsJob(after, i, r.jobId.value); }
      if Open(r) { assert IsSlot(after, i, r.pool, r.runner); }
    }
  }

  lemma DropUnique(rows: Rows, after: Rows)
    requires Unique(rows)
    requires forall i :: i in after ==> i in rows && after[i] == rows[i]
    ensures Unique(after)
  {
    assert forall i, job :: IsJob(after, i, job) ==> IsJob(rows, i, job);
    assert forall i, pool, runner :: IsSlot(after, i, pool, runner) ==> IsSlot(rows, i, pool, runner);
  }

  // Closing rows without stamping a job id frees slots and takes none.
  lemma CloseUnique(rows: Rows, after: Rows)
    requires Unique(rows) && after.Keys == rows.Keys
    requires forall i :: i in after ==> after[i].jobId == rows[i].jobId && KeyOf(after[i]) == KeyOf(rows[i])
    requires forall i :: i in after && Open(after[i]) ==> Open(rows[i])
    ensures Unique(after)
  {
    assert forall i, job :: IsJob(after, i, job) ==> IsJob(rows, i, job);
    ClosedSlots(rows, after);
  }

  lemma ClosedSlots(rows: Rows, after: Rows)
    requires OneOpenRowPerRunner(rows) && after.Keys == rows.Keys
    requires forall i :: i in after ==> KeyOf(after[i]) == KeyOf(rows[i]) && (Open(after[i]) ==> Open(rows[i]))
    ensures OneOpenRowPerRunner(after)
  {
    forall i, pool, runner | IsSlot(after, i, pool, runner) ensures IsSlot(rows, i, pool, runner) {
      assert KeyOf(after[i]) == KeyOf(rows[i]);
    }
  }

  lemma ClosedJobs(rows: Rows, after: Rows, pool: int, runner: string, job: Option<int>)
    requires OneRowPerJob(rows)
    requires forall i, id :: IsJob(after, i, id) <==>
      if IsSlot(rows, i, pool, runner) && job.Some? then id == job.value else IsJob(rows, i, id)
    requires after.Keys == rows.Keys
    ensures OneRowPerJob(after) <==> !exists i, j :: StampClash(rows, i, j, pool, runner, job)
  {
    if i, j :| StampClash(rows, i, j, pool, runner, job) {
      assert IsJob(after, i, job.value) && IsJob(after, j, job.value);
    } else {
      forall i, j, id | IsJob(after, i, id) && IsJob(after, j, id) ensures i == j {
        assert !StampClash(rows, i, j, pool, runner, job) && !StampClash(rows, j, i, pool, runner, job);
      }
    }
  }

  lemma ClosedUnique(rows: Rows, after: Rows, pool: int, runner: string, status: Status, job: Option<int>,
                     log: Option<string>, at: Option<int>)
    requires Unique(rows) && after == ClosedRows(rows, pool, runner, status, job, log, at)
    ensures Unique(after) <==> !exists i, j :: StampClash(rows, i, j, pool, runner, job)
  {
    ClosedSlots(rows, after);
    ClosedJobs(rows, after, pool, runner, job);
  }

  // Rewriting a row that keeps its job id and takes no slot is always accepted.
  lemma FreeSame(rows: Rows, i: nat, r: JobRow)
    requires Unique(rows) && i in rows
    requires r.jobId.None? || r.jobId == rows[i].jobId
    requires Open(r) ==> IsSlot(rows, i, r.pool, r.runner)
    ensures Free(rows, i, r)
  {
    if r.jobId.Some? { assert IsJob(rows, i, r.jobId.value); }
  }

  // A finite non-empty set of candidates has a newest member.
  lemma {:induction false} LatestExists(rows: Rows, ids: set<nat>, pool: int, runner: string) returns (i: nat)
    requires ids != {}
    requires forall j :: j in ids ==> j in rows && Upgradable(rows[j], pool, runner)
    ensures i in ids
    ensures forall j :: j in ids && j != i ==>
      Newer(rows[i], rows[j]) || (rows[j].completedAt == rows[i].completedAt && i < j)
  {
    var k :| k in ids;
    if ids == {k} {
      i := k;
    } else {
      var b := LatestExists(rows, ids - {k}, pool, runner);
      i := if Newer(rows[k], rows[b]) || (rows[b].completedAt == rows[k].completedAt && k < b) then k else b;
    }
  }

  // Stamping a job id onto a row without one is refused exactly as StampRow says.
  lemma StampFree(t: Table, i: nat, status: Status, at: Option<int>, job: int)
    requires Valid(t) && i in t.rows && NoJobId(t.rows[i])
    ensures StampRow(t, i, status, at, job) ==
      if Free(t.rows, i, Stamp(t.rows[i], status, at, NullId(job)))
      then Commit(t, t.rows[i := Stamp(t.rows[i], status, at, NullId(job))]) else Rollback(t)
  {
    var r := Stamp(t.rows[i], status, at, NullId(job));
    if job != 0 && HasJob(t.rows, job) {
      assert IsJob(t.rows, JobRowOf(t.rows, job), r.jobId.value);
    }
  }

  function Lost(rows: Rows, keep: set<RunnerKey>): set<nat> {
    set i | i in rows && Open(rows[i]) && KeyOf(rows[i]) !in keep
  }

  // CloseInterruptedOpenJobs midway: the rows still to visit are as before, the
  // others as they end up.
  ghost predicate HalfInterrupted(before: Rows, rows: Rows, todo: set<nat>, at: int, keep: set<RunnerKey>) {
    && rows.Keys == before.Keys
    && (forall i :: i in todo ==> i in before && Open(before[i]))
    && (forall i :: i in before ==> rows[i] == if i in todo then before[i] else InterruptedRows(before, at, keep)[i])
  }

  lemma LostNext(before: Rows, rows: Rows, todo: set<nat>, i: nat, at: int, keep: set<RunnerKey>)
    requires HalfInterrupted(before, rows, todo, at, keep) && i in todo
    ensures KeyOf(rows[i]) in keep ==> |Lost(before, keep) - (todo - {i})| == |Lost(before, keep) - todo|
    ensures KeyOf(rows[i]) !in keep ==> |Lost(before, keep) - (todo - {i})| == |Lost(before, keep) - todo| + 1
    ensures KeyOf(rows[i]) in keep ==> HalfInterrupted(before, rows, todo - {i}, at, keep)
    ensures KeyOf(rows[i]) !in keep ==> HalfInterrupted(before, rows[i := Interrupt(rows[i], at)], todo - {i}, at, keep)
  {
    var lost := Lost(before, keep);
    assert lost - (todo - {i}) == (lost - todo) + if i in lost then {i} else {};
  }

  lemma LostAll(before: Rows, rows: Rows, at: int, keep: set<RunnerKey>)
    requires HalfInterrupted(before, rows, {}, at, keep)
    ensures rows == InterruptedRows(before, at, keep) && Lost(before, keep) - {} == Lost(before, keep)
  {
  }

  class JobStore {
    var rows: Rows
    var nextId: nat

    ghost function T(): Table reads this {
      Table(rows, nextId)
    }

    constructor ()
      ensures rows == map[] && Valid(T())
    {
      rows, nextId := map[], 1;
    }

    // One UPDATE or DELETE statement.
    method Exec(candidate: Rows) returns (ok: bool)
      modifies this`rows
      ensures ok == Unique(candidate)
      ensures rows == if ok then candidate else old(rows)
    {
      IndexesAreUnique(candidate);
      ok := IndexesHold(candidate);
      if ok { rows := candidate; }
    }

    // A statement that rewrites or adds the single row i.
    method Put(i: nat, r: JobRow) returns (ok: bool)
      requires Unique(rows)
      modifies this`rows
      ensures ok == Free(old(rows), i, r) && Unique(rows)
      ensures rows == if ok then old(rows)[i := r] else old(rows)
    {
      PutUnique(rows, i, r);
      ok := Exec(rows[i := r]);
    }

    // One INSERT statement.
    method ExecInsert(row: JobRow) returns (ok: bool)
      requires Unique(rows)
      modifies this
      ensures ok == Free(old(rows), old(nextId), row)
      ensures T() == if ok then Append(old(T()), row).table else old(T())
    {
      ok := Put(nextId, row);
      if ok { nextId := nextId + 1; }
    }

    // OpenTransitionJob: a check, then an insert.
    method OpenTransitionJob(pool: int, runner: string, startedAt: int) returns (ok: bool)
      requires Valid(T())
      modifies this
      ensures Outcome(ok, T()) == Do(old(T()), OpenTransition(pool, runner, startedAt))
    {
      if i :| i in rows && OpenFor(rows[i], pool, runner) {
        assert IsSlot(rows, i, pool, runner);
        return true;
      }
      assert !HasSlot(rows, pool, runner);
      ok := ExecInsert(TransitionRow(pool, runner, startedAt));
    }

    method CloseOpenJobRow(pool: int, runner: string, status: Status, job: Option<int>,
                           log: Option<string>, at: Option<int>) returns (ok: bool)
      requires Valid(T())
      modifies this`rows
      ensures Outcome(ok, T()) == DoClose(old(T()), pool, runner, status, job, log, at)
    {
      var after := ClosedRows(rows, pool, runner, status, job, log, at);
      ClosedUnique(rows, after, pool, runner, status, job, log, at);
      ok := Exec(after);
    }

    method CloseTransitionJob(pool: int, runner: string, status: Status, job: int, log: string, at: int)
      returns (ok: bool)
      requires Valid(T())
      modifies this`rows
      ensures Outcome(ok, T()) == Do(old(T()), CloseTransition(pool, runner, status, job, log, at))
    {
      ok := CloseOpenJobRow(pool, runner, status, if job > 0 then Some(job) else None, NullPath(log), NullTime(at));
    }

    method RecordJobTimeout(pool: int, runner: string, log: string, at: int) returns (ok: bool)
      requires Valid(T())
      modifies this`rows
      ensures ok && Outcome(ok, T()) == Do(old(T()), JobTimeout(pool, runner, log, at))
    {
      ok := CloseOpenJobRow(pool, runner, Timeout, None, NullPath(log), Some(at));
    }

    method InterruptRow(i: nat, at: int) returns (ok: bool)
      requires Unique(rows) && i in rows
      modifies this`rows
      ensures ok && Unique(rows) && rows == old(rows)[i := Interrupt(old(rows)[i], at)]
    {
      FreeSame(rows, i, Interrupt(rows[i], at));
      ok := Put(i, Interrupt(rows[i], at));
    }

    // CloseInterruptedOpenJobs: list the open rows, then close them one by one
    // unless their runner is kept.
    method CloseInterruptedOpenJobs(at: int, keep: set<RunnerKey>) returns (ok: bool, closed: nat)
      requires Valid(T())
      modifies this`rows
      ensures ok && Outcome(ok, T()) == Do(old(T()), CloseInterrupted(at, keep))
      ensures closed == |Lost(old(rows), keep)|
    {
      ghost var before := rows;
      var todo := set i | i in rows && Open(rows[i]);
      ok, closed := true, 0;
      while todo != {}
        invariant ok && closed == |Lost(before, keep) - todo| && Unique(rows)
        invariant HalfInterrupted(before, rows, todo, at, keep)
      {
        var i :| i in todo;
        LostNext(before, rows, todo, i, at, keep);
        todo := todo - {i};
        if KeyOf(rows[i]) !in keep {
          ok := InterruptRow(i, at);
          closed := closed + 1;
        }
      }
      LostAll(before, rows, at, keep);
    }

    method CloseStaleOpenJobs(pool: int, cutoff: int, at: int) returns (ok: bool)
      requires Valid(T())
      modifies this`rows
      ensures ok && Outcome(ok, T()) == Do(old(T()), CloseStale(pool, cutoff, at))
    {
      CloseUnique(rows, StaleRows(rows, pool, cutoff, at));
      ok := Exec(StaleRows(rows, pool, cutoff, at));
    }

    // UpsertWebhookQueuedJob
    method RecordWebhookQueued(pool: int, job: int, meta: Meta, queuedAt: int) returns (ok: bool)
      requires Valid(T())
      modifies this
      ensures Outcome(ok, T()) == Do(old(T()), WebhookQueued(pool, job, meta, queuedAt))
    {
      if job == 0 { return true; }
      if i :| i in rows && rows[i].jobId == Some(job) {
        OneJobRow(rows, i, job);
        if !Open(rows[i]) { return false; }
        FreeSame(rows, i, Requeue(rows[i], meta, queuedAt));
        ok := Put(i, Requeue(rows[i], meta, queuedAt));
      } else {
        assert !HasJob(rows, job);
        ok := ExecInsert(StubRow(pool, job, meta, queuedAt));
      }
    }

    // One UPDATE of the runner's open row; matching no row is not an error.
    method AttachWebhookToTransition(pool: int, runner: string, job: int, startedAt: int, queued: Option<int>, meta: Meta)
      returns (ok: bool)
      requires Unique(rows) && runner != ""
      modifies this`rows
      ensures if HasSlot(old(rows), pool, runner) then
                var k := SlotOf(old(rows), pool, runner);
                var r := Attach(old(rows)[k], job, startedAt, queued, meta);
                ok == Free(old(rows), k, r) && rows == if ok then old(rows)[k := r] else old(rows)
              else ok && rows == old(rows)
    {
      var after := map i | i in rows ::
        if OpenFor(rows[i], pool, runner) then Attach(rows[i], job, startedAt, queued, meta) else rows[i];
      if k :| k in rows && OpenFor(rows[k], pool, runner) {
        OneSlot(rows, k, pool, runner);
        PutUnique(rows, k, Attach(rows[k], job, startedAt, queued, meta));
        assert forall i :: i in rows && OpenFor(rows[i], pool, runner) ==> IsSlot(rows, i, pool, runner);
        assert after == rows[k := Attach(rows[k], job, startedAt, queued, meta)];
      } else {
        assert forall i :: !IsSlot(rows, i, pool, runner);
        assert after == rows;
      }
      ok := Exec(after);
    }

    // RecordWebhookStarted: two lookups, then absorb, promote, attach or insert.
    method RecordWebhookStarted(pool: int, job: int, runner: string, startedAt: int, queuedAt: int, meta: Meta)
      returns (ok: bool)
      requires Valid(T())
      modifies this
      ensures Outcome(ok, T()) == Do(old(T()), WebhookStarted(pool, job, runner, startedAt, queuedAt, meta))
    {
      if job == 0 || runner == "" { return true; }
      var saved := rows;
      var stub, hasStub := 0, false;
      if i :| i in rows && rows[i].jobId == Some(job) && Open(rows[i]) {
        stub, hasStub := i, true;
        OneJobRow(rows, i, job);
      }
      assert hasStub == HasOpenJob(rows, job);
      var slot, hasTransition := 0, false;
      if i :| i in rows && OpenFor(rows[i], pool, runner) {
        slot, hasTransition := i, true;
        assert IsSlot(rows, i, pool, runner);
        OneSlot(rows, i, pool, runner);
      }
      assert hasTransition == HasSlot(rows, pool, runner);
      var queued := if hasStub then EffectiveQueued(rows[stub], queuedAt) else NullTime(queuedAt);
      if hasStub && hasTransition {
        // The stub is deleted first: both rows would otherwise carry the job id.
        DropUnique(rows, rows - {stub});
        ok := Exec(rows - {stub});
        assert forall j :: IsJob(rows, j, job) ==> IsJob(saved, j, job) && j != stub;
        assert forall j :: IsSlot(rows, j, pool, runner) ==> IsSlot(saved, j, pool, runner) && j != stub;
        assert slot != stub ==> IsSlot(rows, slot, pool, runner);
        if slot != stub { OneSlot(rows, slot, pool, runner); }
        ok := AttachWebhookToTransition(pool, runner, job, startedAt, queued, meta);
      } else if hasStub {
        ok := Put(stub, Promote(rows[stub], runner, startedAt));
      } else if hasTransition {
        ok := AttachWebhookToTransition(pool, runner, job, startedAt, queued, meta);
      } else {
        ok := ExecInsert(RunningRow(pool, job, runner, startedAt, queued, meta));
      }
      if !ok { rows := saved; }
    }

    // RecordWebhookCompleted: by job id, else by runner, else upgrade a closed row.
    method RecordWebhookCompleted(pool: int, job: int, runner: string, status: Status, completedAt: int)
      returns (ok: bool)
      requires Valid(T())
      modifies this`rows
      ensures Outcome(ok, T()) == Do(old(T()), WebhookCompleted(pool, job, runner, status, completedAt))
    {
      if job == 0 && runner == "" { return true; }
      var saved, at := rows, NullTime(completedAt);
      ok := true;
      var found := false;
      if i :| i in rows && job != 0 && rows[i].jobId == Some(job) && Open(rows[i]) {
        OneJobRow(rows, i, job);
        found := true;
        ok := Put(i, ConcludeAs(rows[i], runner, status, at));
        if ok && runner != "" {
          DropUnique(rows, WithoutDuplicates(rows, pool, runner));
          ok := Exec(WithoutDuplicates(rows, pool, runner));
          assert ok;
        }
        if !ok { rows := saved; }
      }
      if !found {
        ok := CompleteWithoutOpenRow(pool, job, runner, status, at);
      }
    }

    // The branch of RecordWebhookCompleted taken when no open row carries the id.
    method CompleteWithoutOpenRow(pool: int, job: int, runner: string, status: Status, at: Option<int>)
      returns (ok: bool)
      requires Valid(T()) && (job == 0 || !HasOpenJob(rows, job))
      modifies this`rows
      ensures Outcome(ok, T()) == DoCompleted(old(T()), pool, job, runner, status, at)
    {
      var matched: bool;
      ok, matched := CloseOpenRowByRunnerEnrichJobID(pool, job, runner, status, at);
      if !matched {
        ok, matched := UpgradeClosedJobRowConclusion(job, status, at);
        if !matched && runner != "" {
          ok := UpgradeLatest(pool, job, runner, status, at);
        }
      }
    }

    method CloseOpenRowByRunnerEnrichJobID(pool: int, job: int, runner: string, status: Status, at: Option<int>)
      returns (ok: bool, matched: bool)
      requires Valid(T())
      modifies this`rows
      ensures matched == HasBareSlot(old(rows), pool, runner)
      ensures Outcome(ok, T()) ==
        if matched then StampRow(old(T()), SlotOf(old(rows), pool, runner), status, at, job) else Outcome(true, old(T()))
    {
      ok, matched := true, false;
      if i :| i in rows && runner != "" && OpenFor(rows[i], pool, runner) && NoJobId(rows[i]) {
        assert IsSlot(rows, i, pool, runner);
        OneSlot(rows, i, pool, runner);
        matched := true;
        StampFree(T(), i, status, at, job);
        ok := Put(i, Stamp(rows[i], status, at, NullId(job)));
      }
    }

    method UpgradeClosedJobRowConclusion(job: int, status: Status, at: Option<int>) returns (ok: bool, matched: bool)
      requires Valid(T())
      modifies this`rows
      ensures matched == HasUpgradableJob(old(rows), job)
      ensures Outcome(ok, T()) ==
        if matched then ReopenGuard(old(T()), JobRowOf(old(rows), job), Conclude(old(rows)[JobRowOf(old(rows), job)], status, at))
        else Outcome(true, old(T()))
    {
      ok, matched := true, false;
      if i :| i in rows && job != 0 && rows[i].jobId == Some(job) && !Open(rows[i]) && rows[i].status == Completed {
        assert IsJob(rows, i, job);
        OneJobRow(rows, i, job);
        matched := true;
        ok := Put(i, Conclude(rows[i], status, at));
      }
    }

    // UpgradeLatestNullJobRowConclusion
    method UpgradeLatest(pool: int, job: int, runner: string, status: Status, at: Option<int>) returns (ok: bool)
      requires Valid(T())
      modifies this`rows
      ensures Outcome(ok, T()) ==
        if HasLatest(old(rows), pool, runner) then StampRow(old(T()), LatestOf(old(rows), pool, runner), status, at, job)
        else Outcome(true, old(T()))
    {
      var candidates := set i | i in rows && Upgradable(rows[i], pool, runner);
      if candidates == {} {
        assert HasLatest(rows, pool, runner) ==> LatestOf(rows, pool, runner) in candidates;
        return true;
      }
      ghost var w := LatestExists(rows, candidates, pool, runner);
      assert IsLatest(rows, w, pool, runner);
      var i :| i in rows && IsLatest(rows, i, pool, runner);
      OneLatest(rows, i, pool, runner);
      StampFree(T(), i, status, at, job);
      ok := Put(i, Stamp(rows[i], status, at, NullId(job)));
    }
  }
}
