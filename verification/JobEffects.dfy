// What each recorder call writes, column by column, and what it leaves alone.
module JobEffects {
  import opened Basics
  import opened JobTable
  import opened JobRecorder
  import opened JobMerge

  // ---- Columns -------------------------------------------------------------

  // r is what was known before, or else what the event says (0: nothing).
  predicate FirstKnown(r: Option<int>, before: Option<int>, said: int) {
    if before.Some? then r == before else if said != 0 then r == Some(said) else r == None
  }

  predicate NewestField<T(==)>(r: Option<T>, before: Option<T>, said: Option<T>) {
    r == if said.Some? then said else before
  }

  // Every field is the event's where it has one, and the old one elsewhere.
  predicate NewestMeta(r: Meta, before: Meta, said: Meta) {
    && NewestField(r.runId, before.runId, said.runId) && NewestField(r.workflow, before.workflow, said.workflow)
    && NewestField(r.branch, before.branch, said.branch) && NewestField(r.sha, before.sha, said.sha)
  }

  // a has every field that b has.
  predicate Covers(a: Meta, b: Meta) {
    && (b.runId.Some? ==> a.runId.Some?) && (b.workflow.Some? ==> a.workflow.Some?)
    && (b.branch.Some? ==> a.branch.Some?) && (b.sha.Some? ==> a.sha.Some?)
  }

  // Row i is the only one that was written.
  ghost predicate OnlyRow(a: Rows, b: Rows, i: nat) {
    i in b && (forall k :: k in b && k != i ==> k in a && b[k] == a[k]) && (forall k :: k in a ==> k in b)
  }

  // ---- Busy and idle -------------------------------------------------------

  // Busy observed: the runner has an open row; a new one is running, has no job yet
  // and starts at the given instant.
  lemma OpenWrites(t: Table, pool: int, runner: string, startedAt: int) returns (i: nat)
    requires Valid(t)
    ensures var o := Do(t, OpenTransition(pool, runner, startedAt));
      o.ok && OnlyRow(t.rows, o.table.rows, i) && IsSlot(o.table.rows, i, pool, runner) &&
      if i in t.rows then o.table == t
      else
        var r := o.table.rows[i];
        r.status == Running && r.jobId == None && FirstKnown(r.startedAt, None, startedAt)
  {
    i := if HasSlot(t.rows, pool, runner) then SlotOf(t.rows, pool, runner) else t.nextId;
  }

  // Idle observed: if the close is accepted, the runner's open rows take the status, the
  // log path and a positive job id; nothing else is written.
  lemma CloseWrites(t: Table, pool: int, runner: string, status: Status, job: int, log: string, at: int, i: nat)
    requires Valid(t) && at != 0 && i in t.rows
    ensures var o := Do(t, CloseTransition(pool, runner, status, job, log, at));
      o.ok ==>
        (o.table.rows.Keys == t.rows.Keys &&
         var was, r := t.rows[i], o.table.rows[i];
         if was.completedAt.None? && was.pool == pool && was.runner == runner then
           r.status == status && r.completedAt == Some(at) && r.logPath == (if log == "" then None else Some(log)) &&
           r.jobId == (if job > 0 then Some(job) else was.jobId) && r.pool == pool && r.runner == runner &&
           r.startedAt == was.startedAt && r.queuedAt == was.queuedAt && r.meta == was.meta
         else r == was)
  {
  }

  // The timed-out runner's open row is closed as timeout.
  lemma TimeoutWrites(t: Table, pool: int, runner: string, log: string, at: int, i: nat)
    requires Valid(t) && i in t.rows
    ensures var o := Do(t, JobTimeout(pool, runner, log, at));
      o.ok && o.table.rows.Keys == t.rows.Keys &&
        var was, r := t.rows[i], o.table.rows[i];
        if was.completedAt.None? && was.pool == pool && was.runner == runner then
          r.status == Timeout && r.completedAt == Some(at) && r.jobId == was.jobId && r.logPath == if log == "" then None else Some(log)
        else r == was
  {
  }

  // Boot recovery closes exactly the open rows of runners that are not kept, and the
  // stale check exactly the pool's open rows that started before the cutoff.
  lemma InterruptWrites(t: Table, at: int, keep: set<RunnerKey>, i: nat)
    requires i in t.rows
    ensures var was, r := t.rows[i], Do(t, CloseInterrupted(at, keep)).table.rows[i];
      if was.completedAt.None? && RunnerKey(was.pool, was.runner) !in keep then
        r.status == Interrupted && r.completedAt == Some(at) && r.jobId == was.jobId && r.runner == was.runner
      else r == was
  {
  }

  lemma StaleWrites(t: Table, pool: int, cutoff: int, at: int, i: nat)
    requires i in t.rows
    ensures var was, r := t.rows[i], Do(t, CloseStale(pool, cutoff, at)).table.rows[i];
      if was.completedAt.None? && was.pool == pool && was.startedAt.Some? && was.startedAt.value < cutoff then
        r.status == Interrupted && r.completedAt == Some(at) && r.jobId == was.jobId && r.runner == was.runner
      else r == was
  {
  }

  // ---- The queued event ----------------------------------------------------

  // Accepted, it leaves the job one open row: a queued stub without a runner, or the
  // row that was there with the gaps in its metadata filled.
  lemma QueuedWrites(t: Table, pool: int, job: int, meta: Meta, queuedAt: int) returns (i: nat)
    requires Valid(t) && job != 0
    ensures var o := Do(t, WebhookQueued(pool, job, meta, queuedAt));
      o.ok ==>
        (OnlyRow(t.rows, o.table.rows, i) && IsJob(o.table.rows, i, job) && Open(o.table.rows[i]) &&
         var r := o.table.rows[i];
         if i in t.rows then
           var was := t.rows[i];
           r.status == was.status && r.runner == was.runner && r.pool == was.pool && r.startedAt == was.startedAt &&
           FirstKnown(r.queuedAt, was.queuedAt, queuedAt) && NewestMeta(r.meta, was.meta, meta)
         else r.status == Queued && r.runner == "" && r.pool == pool && FirstKnown(r.queuedAt, None, queuedAt) && r.meta == meta)
  {
    i := if HasJob(t.rows, job) then JobRowOf(t.rows, job) else t.nextId;
  }

  // ---- The in_progress event -----------------------------------------------

  // The row after an accepted in_progress.
  ghost predicate StartedRow(t: Table, r: JobRow, pool: int, job: int, runner: string, startedAt: int, queuedAt: int, meta: Meta) {
    && r.completedAt.None? && r.status == Running && r.runner == runner && r.jobId == Some(job)
    && if HasSlot(t.rows, pool, runner) then
         // The runner's open row, with the queue time of the absorbed stub if there was one.
         var was := t.rows[SlotOf(t.rows, pool, runner)];
         r.pool == pool && FirstKnown(r.startedAt, was.startedAt, startedAt) && NewestMeta(r.meta, was.meta, meta) &&
         if HasOpenJob(t.rows, job) && was.queuedAt.None? then
           var stub := t.rows[JobRowOf(t.rows, job)];
           if stub.queuedAt.Some? && stub.queuedAt.value != 0 then r.queuedAt == stub.queuedAt
           else FirstKnown(r.queuedAt, None, queuedAt)
         else FirstKnown(r.queuedAt, was.queuedAt, queuedAt)
       else if HasOpenJob(t.rows, job) then
         // The stub as it was, but for its runner.
         var was := t.rows[JobRowOf(t.rows, job)];
         r.pool == was.pool && FirstKnown(r.startedAt, was.startedAt, startedAt) && r.queuedAt == was.queuedAt && r.meta == was.meta
       else
         r.pool == pool && FirstKnown(r.startedAt, None, startedAt) && FirstKnown(r.queuedAt, None, queuedAt) && r.meta == meta
  }

  // Accepted and no redelivery, it leaves the job one open row, running on that runner;
  // the only row that goes is the absorbed stub, and no other row is written.
  lemma StartedWrites(t: Table, pool: int, job: int, runner: string, startedAt: int, queuedAt: int, meta: Meta) returns (i: nat)
    requires Valid(t) && job != 0 && runner != "" && !Redelivered(t, pool, job, runner)
    requires DoStarted(t, pool, job, runner, startedAt, queuedAt, meta).ok
    ensures var rows := Do(t, WebhookStarted(pool, job, runner, startedAt, queuedAt, meta)).table.rows;
      IsJob(rows, i, job) && StartedRow(t, rows[i], pool, job, runner, startedAt, queuedAt, meta) &&
      (forall k :: IsJob(rows, k, job) ==> k == i) &&
      (forall k :: k in rows && k != i ==> k in t.rows && rows[k] == t.rows[k]) &&
      (forall k :: k in t.rows && k !in rows ==> HasSlot(t.rows, pool, runner) && IsJob(t.rows, k, job) && Open(t.rows[k]))
  {
    KeepsIndexes(t, WebhookStarted(pool, job, runner, startedAt, queuedAt, meta));
    i := if HasSlot(t.rows, pool, runner) then SlotOf(t.rows, pool, runner)
         else if HasOpenJob(t.rows, job) then JobRowOf(t.rows, job) else t.nextId;
    if HasSlot(t.rows, pool, runner) && HasOpenJob(t.rows, job) { assert JobRowOf(t.rows, job) != i; }
    var rows := Do(t, WebhookStarted(pool, job, runner, startedAt, queuedAt, meta)).table.rows;
    assert IsJob(rows, i, job) && OneRowPerJob(rows);
  }

  // What the stub, the runner's row or the event knew is known afterwards.
  ghost predicate NothingForgotten(t: Table, r: JobRow, pool: int, job: int, runner: string, queuedAt: int, meta: Meta) {
    && Covers(r.meta, meta) && (queuedAt != 0 ==> r.queuedAt.Some?)
    && (HasOpenJob(t.rows, job) ==> Covers(r.meta, t.rows[JobRowOf(t.rows, job)].meta))
    && (HasSlot(t.rows, pool, runner) ==> Covers(r.meta, t.rows[SlotOf(t.rows, pool, runner)].meta))
  }

  // Absorbing, the event or the runner's row repeats what the stub knew; promoting, the
  // stub knew all that the event says.
  ghost predicate Repeated(t: Table, pool: int, job: int, runner: string, queuedAt: int, meta: Meta) {
    HasOpenJob(t.rows, job) ==>
      var stub := t.rows[JobRowOf(t.rows, job)];
      if HasSlot(t.rows, pool, runner) then
        var was := t.rows[SlotOf(t.rows, pool, runner)].meta;
        && (stub.meta.runId.Some? ==> was.runId.Some? || meta.runId.Some?)
        && (stub.meta.workflow.Some? ==> was.workflow.Some? || meta.workflow.Some?)
        && (stub.meta.branch.Some? ==> was.branch.Some? || meta.branch.Some?)
        && (stub.meta.sha.Some? ==> was.sha.Some? || meta.sha.Some?)
      else Covers(stub.meta, meta) && (queuedAt != 0 ==> stub.queuedAt.Some?)
  }

  // An accepted in_progress forgets nothing exactly under that condition.
  lemma StartedForgets(t: Table, pool: int, job: int, runner: string, startedAt: int, queuedAt: int, meta: Meta) returns (i: nat)
    requires Valid(t) && job != 0 && runner != "" && !Redelivered(t, pool, job, runner)
    requires DoStarted(t, pool, job, runner, startedAt, queuedAt, meta).ok
    ensures var rows := Do(t, WebhookStarted(pool, job, runner, startedAt, queuedAt, meta)).table.rows;
      IsJob(rows, i, job) &&
      (NothingForgotten(t, rows[i], pool, job, runner, queuedAt, meta) <==> Repeated(t, pool, job, runner, queuedAt, meta))
  {
    i := StartedWrites(t, pool, job, runner, startedAt, queuedAt, meta);
  }

  // A concrete loss: busy observed, a queued event that names its workflow, and an
  // in_progress event that does not.
  lemma WorkflowForgotten(t: Table, pool: int, job: int, runner: string, at: int, name: string) returns (i: nat)
    requires Valid(t) && job != 0 && runner != "" && !HasJob(t.rows, job) && !HasSlot(t.rows, pool, runner)
    ensures var evs := [OpenTransition(pool, runner, at), WebhookQueued(pool, job, NO_META.(workflow := Some(name)), at)];
      var done := WebhookStarted(pool, job, runner, at, at, NO_META);
      IsJob(Run(t, evs + [done]).rows, i, job) && Run(t, evs + [done]).rows[i].meta.workflow == None
  {
    var open, queued := OpenTransition(pool, runner, at), WebhookQueued(pool, job, NO_META.(workflow := Some(name)), at);
    var done := WebhookStarted(pool, job, runner, at, at, NO_META);
    KeepsIndexes(t, open);
    var t1 := Do(t, open).table;
    assert IsSlot(t1.rows, t.nextId, pool, runner);
    OneSlot(t1.rows, t.nextId, pool, runner);
    assert forall k :: IsJob(t1.rows, k, job) ==> IsJob(t.rows, k, job);
    KeepsIndexes(t1, queued);
    var t2 := Do(t1, queued).table;
    assert IsJob(t2.rows, t1.nextId, job) && IsSlot(t2.rows, t.nextId, pool, runner);
    OneJobRow(t2.rows, t1.nextId, job);
    OneSlot(t2.rows, t.nextId, pool, runner);
    RunTwo(t, open, queued);
    RunSnoc(t, [open, queued], done);
    i := StartedWrites(t2, pool, job, runner, at, at, NO_META);
  }

  // ---- The completed event -------------------------------------------------

  // The row that takes the conclusion, if any: the job's open row, else the runner's open
  // row without a job, else the job's row closed as completed, else the runner's latest.
  ghost function Concluding(t: Table, pool: int, job: int, runner: string): Option<nat> {
    if job != 0 && HasOpenJob(t.rows, job) then Some(JobRowOf(t.rows, job))
    else if HasBareSlot(t.rows, pool, runner) then Some(SlotOf(t.rows, pool, runner))
    else if HasUpgradableJob(t.rows, job) then Some(JobRowOf(t.rows, job))
    else if runner != "" && HasLatest(t.rows, pool, runner) then Some(LatestOf(t.rows, pool, runner))
    else None
  }

  // Unless the job's own row is open, no row goes.
  lemma OthersDeleteNothing(t: Table, pool: int, job: int, runner: string, status: Status, at: int)
    requires Valid(t) && at != 0 && !(job != 0 && HasOpenJob(t.rows, job))
    ensures t.rows.Keys <= Do(t, WebhookCompleted(pool, job, runner, status, at)).table.rows.Keys
  {
  }

  // A completed event deletes only the runner's open rows without a job, and those only
  // when the job's own row was open.
  lemma CompletedDeletes(t: Table, pool: int, job: int, runner: string, status: Status, at: int, k: nat)
    requires Valid(t) && k in t.rows && at != 0
    ensures k !in Do(t, WebhookCompleted(pool, job, runner, status, at)).table.rows <==>
      job != 0 && HasOpenJob(t.rows, job) && k != JobRowOf(t.rows, job) && runner != "" &&
      t.rows[k].completedAt.None? && t.rows[k].pool == pool && t.rows[k].runner == runner &&
      (t.rows[k].jobId.None? || t.rows[k].jobId == Some(0))
  {
    if !(job != 0 && HasOpenJob(t.rows, job)) { OthersDeleteNothing(t, pool, job, runner, status, at); }
  }

  // The row with the conclusion: an id is stamped on a row without one, and the runner is
  // filled in on an open stub.
  predicate ConcludedRow(was: JobRow, r: JobRow, job: int, runner: string, status: Status, at: int) {
    && r.status == status && r.completedAt == Some(at) && r.pool == was.pool
    && r.startedAt == was.startedAt && r.queuedAt == was.queuedAt && r.meta == was.meta && r.logPath == was.logPath
    && r.jobId == (if job == 0 then None else if was.jobId.None? || was.jobId == Some(0) then Some(job) else was.jobId)
    && r.runner == if was.runner == "" && was.completedAt.None? then runner else was.runner
  }

  lemma StampWrites(t: Table, i: nat, job: int, status: Status, at: int)
    requires Valid(t) && at != 0 && i in t.rows && NoJobId(t.rows[i]) && t.rows[i].runner != ""
    ensures var o := StampRow(t, i, status, Some(at), job);
      if o.ok then o.table.rows == t.rows[i := o.table.rows[i]] && ConcludedRow(t.rows[i], o.table.rows[i], job, t.rows[i].runner, status, at)
      else o.table == t
  {
  }

  lemma IdWrites(t: Table, pool: int, job: int, runner: string, status: Status, at: int)
    requires Valid(t) && at != 0 && job != 0 && HasOpenJob(t.rows, job)
    ensures var o, i := Do(t, WebhookCompleted(pool, job, runner, status, at)), JobRowOf(t.rows, job);
      o.ok && i in o.table.rows && ConcludedRow(t.rows[i], o.table.rows[i], job, runner, status, at) &&
      forall k :: k in o.table.rows && k != i ==> k in t.rows && o.table.rows[k] == t.rows[k]
  {
  }

  // A completed event writes at most the row that takes the conclusion.
  lemma CompletedWrites(t: Table, pool: int, job: int, runner: string, status: Status, at: int, k: nat)
    requires Valid(t) && at != 0 && k in Do(t, WebhookCompleted(pool, job, runner, status, at)).table.rows
    ensures var o := Do(t, WebhookCompleted(pool, job, runner, status, at));
      k in t.rows &&
      if o.ok && Concluding(t, pool, job, runner) == Some(k) then ConcludedRow(t.rows[k], o.table.rows[k], job, runner, status, at)
      else o.table.rows[k] == t.rows[k]
  {
    if job != 0 && HasOpenJob(t.rows, job) {
      IdWrites(t, pool, job, runner, status, at);
    } else if HasBareSlot(t.rows, pool, runner) {
      StampWrites(t, SlotOf(t.rows, pool, runner), job, status, at);
    } else if !HasUpgradableJob(t.rows, job) && runner != "" && HasLatest(t.rows, pool, runner) {
      StampWrites(t, LatestOf(t.rows, pool, runner), job, status, at);
    }
  }

  // Among several closed rows of the runner without a job the newest takes it.
  lemma UpgradesNewest(t: Table, pool: int, job: int, runner: string, status: Status, at: int, k: nat, other: nat)
    requires Valid(t) && at != 0 && job != 0 && k in t.rows && other in t.rows && !Open(t.rows[k]) && !HasJob(t.rows, job)
    requires var o := Do(t, WebhookCompleted(pool, job, runner, status, at)); k in o.table.rows && o.table.rows[k] != t.rows[k]
    requires var c := t.rows[other];
      c.pool == pool && c.runner == runner && c.status == Completed && c.completedAt.Some? && c.jobId.None?
    ensures t.rows[other].completedAt.value <= t.rows[k].completedAt.value
  {
    CompletedWrites(t, pool, job, runner, status, at, k);
  }
}
