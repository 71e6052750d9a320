// The job_history table, its two unique indexes, and one declarative
// specification per recorder operation of internal/db/db.go.  Each
// specification says in one step which row changes and when the engine refuses
// the change; the transactions that issue the SQL statements one at a time are
// in JobRecorder.dfy.
module JobTable {
  import opened Basics

  datatype Status = Queued | Running | Success | Failure | Cancelled | Timeout | Completed | Interrupted
  datatype Source = FromTransition | FromWebhook

  // Forge metadata; None is SQL NULL.
  datatype Meta = Meta(runId: Option<int>, workflow: Option<string>, branch: Option<string>, sha: Option<string>)

  datatype JobRow = JobRow(pool: int, runner: string, status: Status,
                           queuedAt: Option<int>, startedAt: Option<int>, completedAt: Option<int>,
                           logPath: Option<string>, jobId: Option<int>, meta: Meta, source: Source)

  type Rows = map<nat, JobRow>

  // nextId is the AUTOINCREMENT counter.
  datatype Table = Table(rows: Rows, nextId: nat)

  // A call either commits (ok) or rolls back with an error (!ok).
  datatype Outcome = Outcome(ok: bool, table: Table)

  const NO_META := Meta(None, None, None, None)

  // sql.NullTime{Valid: !t.IsZero()}
  function NullTime(t: int): Option<int> {
    if t == 0 then None else Some(t)
  }

  // sql.NullInt64{Valid: id != 0}
  function NullId(id: int): Option<int> {
    if id == 0 then None else Some(id)
  }

  // COALESCE(a, b)
  function Coalesce<T>(a: Option<T>, b: Option<T>): Option<T> {
    if a.Some? then a else b
  }

  function MergeMeta(old_: Meta, new_: Meta): Meta {
    Meta(Coalesce(new_.runId, old_.runId), Coalesce(new_.workflow, old_.workflow),
         Coalesce(new_.branch, old_.branch), Coalesce(new_.sha, old_.sha))
  }

  predicate Open(r: JobRow) {
    r.completedAt.None?
  }

  predicate OpenFor(r: JobRow, pool: int, runner: string) {
    Open(r) && r.pool == pool && r.runner == runner
  }

  // job_id IS NULL OR job_id = 0
  predicate NoJobId(r: JobRow) {
    r.jobId.None? || r.jobId == Some(0)
  }

  // The row an external job id denotes.
  predicate IsJob(rows: Rows, i: nat, job: int) {
    i in rows && rows[i].jobId == Some(job)
  }

  // An open row of a runner.
  predicate IsSlot(rows: Rows, i: nat, pool: int, runner: string) {
    i in rows && OpenFor(rows[i], pool, runner)
  }

  // Migration 005: one row per external job id, NULLs exempt.
  ghost predicate OneRowPerJob(rows: Rows) {
    forall i, j, job :: IsJob(rows, i, job) && IsJob(rows, j, job) ==> i == j
  }

  // Migration 004: one open row per (pool, runner), unassigned rows exempt.
  ghost predicate OneOpenRowPerRunner(rows: Rows) {
    forall i, j, pool, runner :: runner != "" && IsSlot(rows, i, pool, runner) && IsSlot(rows, j, pool, runner) ==> i == j
  }

  ghost predicate Unique(rows: Rows) {
    OneRowPerJob(rows) && OneOpenRowPerRunner(rows)
  }

  // The same two conditions as the engine can evaluate them.
  predicate IndexesHold(rows: Rows) {
    && (forall i, j :: i in rows && j in rows && i != j && rows[i].jobId.Some? ==> !IsJob(rows, j, rows[i].jobId.value))
    && (forall i, j :: i in rows && j in rows && i != j && Open(rows[i]) && rows[i].runner != "" ==>
          !IsSlot(rows, j, rows[i].pool, rows[i].runner))
  }

  lemma IndexesAreUnique(rows: Rows)
    ensures IndexesHold(rows) <==> Unique(rows)
  {
    if IndexesHold(rows) {
      forall i, j, job | IsJob(rows, i, job) && IsJob(rows, j, job) ensures i == j { }
      forall i, j, pool, runner | runner != "" && IsSlot(rows, i, pool, runner) && IsSlot(rows, j, pool, runner)
        ensures i == j
      { }
    }
    if Unique(rows) {
      forall i, j | i in rows && j in rows && i != j && rows[i].jobId.Some?
        ensures !IsJob(rows, j, rows[i].jobId.value)
      {
        assert IsJob(rows, i, rows[i].jobId.value);
      }
      forall i, j | i in rows && j in rows && i != j && Open(rows[i]) && rows[i].runner != ""
        ensures !IsSlot(rows, j, rows[i].pool, rows[i].runner)
      {
        assert IsSlot(rows, i, rows[i].pool, rows[i].runner);
      }
    }
  }

  ghost predicate Valid(t: Table) {
    Unique(t.rows) && forall i :: i in t.rows ==> i < t.nextId
  }

  // ---- Lookups -------------------------------------------------------------

  ghost predicate HasJob(rows: Rows, job: int) {
    exists i :: IsJob(rows, i, job)
  }

  ghost function JobRowOf(rows: Rows, job: int): (i: nat)
    requires HasJob(rows, job)
    ensures IsJob(rows, i, job)
  {
    var i :| IsJob(rows, i, job); i
  }

  // GetOpenWebhookJobByID
  ghost predicate HasOpenJob(rows: Rows, job: int) {
    HasJob(rows, job) && Open(rows[JobRowOf(rows, job)])
  }

  // GetOpenJobRow
  ghost predicate HasSlot(rows: Rows, pool: int, runner: string) {
    exists i :: IsSlot(rows, i, pool, runner)
  }

  ghost function SlotOf(rows: Rows, pool: int, runner: string): (i: nat)
    requires HasSlot(rows, pool, runner)
    ensures IsSlot(rows, i, pool, runner)
  {
    var i :| IsSlot(rows, i, pool, runner); i
  }

  // Candidates of UpgradeLatestNullJobRowConclusion's subquery.
  predicate Upgradable(r: JobRow, pool: int, runner: string) {
    r.pool == pool && r.runner == runner && r.status == Completed && !Open(r) && NoJobId(r)
  }

  predicate Newer(a: JobRow, b: JobRow) {
    a.completedAt.Some? && b.completedAt.Some? && b.completedAt.value < a.completedAt.value
  }

  // ORDER BY completed_at DESC LIMIT 1; equal instants go to the smaller id.
  predicate IsLatest(rows: Rows, i: nat, pool: int, runner: string) {
    && i in rows && Upgradable(rows[i], pool, runner)
    && forall j :: j in rows && j != i && Upgradable(rows[j], pool, runner) ==>
      Newer(rows[i], rows[j]) || (rows[j].completedAt == rows[i].completedAt && i < j)
  }

  ghost predicate HasLatest(rows: Rows, pool: int, runner: string) {
    exists i :: IsLatest(rows, i, pool, runner)
  }

  ghost function LatestOf(rows: Rows, pool: int, runner: string): (i: nat)
    requires HasLatest(rows, pool, runner)
    ensures IsLatest(rows, i, pool, runner)
  {
    var i :| IsLatest(rows, i, pool, runner); i
  }

  // ---- Specifications ------------------------------------------------------

  function Commit(t: Table, rows: Rows): Outcome {
    Outcome(true, t.(rows := rows))
  }

  function Rollback(t: Table): Outcome {
    Outcome(false, t)
  }

  function Append(t: Table, r: JobRow): Outcome {
    Outcome(true, Table(t.rows[t.nextId := r], t.nextId + 1))
  }

  function TransitionRow(pool: int, runner: string, startedAt: int): JobRow {
    JobRow(pool, runner, Running, None, NullTime(startedAt), None, None, None, NO_META, FromTransition)
  }

  function StubRow(pool: int, job: int, meta: Meta, queuedAt: int): JobRow {
    JobRow(pool, "", Queued, NullTime(queuedAt), None, None, None, Some(job), meta, FromWebhook)
  }

  // OpenTransitionJob
  ghost function DoOpen(t: Table, pool: int, runner: string, startedAt: int): Outcome {
    if HasSlot(t.rows, pool, runner) then Outcome(true, t)
    else Append(t, TransitionRow(pool, runner, startedAt))
  }

  function CloseRow(r: JobRow, status: Status, job: Option<int>, log: Option<string>, at: Option<int>): JobRow {
    r.(completedAt := at, status := status, logPath := log, jobId := Coalesce(job, r.jobId))
  }

  // The rows CloseOpenJobRow leaves behind.
  function ClosedRows(rows: Rows, pool: int, runner: string, status: Status, job: Option<int>,
                      log: Option<string>, at: Option<int>): Rows
  {
    map i | i in rows :: if OpenFor(rows[i], pool, runner) then CloseRow(rows[i], status, job, log, at) else rows[i]
  }

  // Closing slot i with the job id leaves a second row j with that id.
  ghost predicate StampClash(rows: Rows, i: nat, j: nat, pool: int, runner: string, job: Option<int>) {
    && IsSlot(rows, i, pool, runner) && j in rows && j != i
    && job.Some? && (IsJob(rows, j, job.value) || IsSlot(rows, j, pool, runner))
  }

  // CloseTransitionJob and RecordJobTimeout: the close is refused when another
  // row already owns the job id it would stamp.
  ghost function DoClose(t: Table, pool: int, runner: string, status: Status, job: Option<int>,
                         log: Option<string>, at: Option<int>): Outcome
  {
    if exists i, j :: StampClash(t.rows, i, j, pool, runner, job) then Rollback(t)
    else Commit(t, ClosedRows(t.rows, pool, runner, status, job, log, at))
  }

  datatype RunnerKey = RunnerKey(pool: int, runner: string)

  function KeyOf(r: JobRow): RunnerKey {
    RunnerKey(r.pool, r.runner)
  }

  function Interrupt(r: JobRow, at: int): JobRow {
    r.(completedAt := Some(at), status := Interrupted)
  }

  // CloseInterruptedOpenJobs
  function InterruptedRows(rows: Rows, at: int, keep: set<RunnerKey>): Rows {
    map i | i in rows :: if Open(rows[i]) && KeyOf(rows[i]) !in keep then Interrupt(rows[i], at) else rows[i]
  }

  // CloseStaleOpenJobs
  predicate Stale(r: JobRow, pool: int, cutoff: int) {
    Open(r) && r.pool == pool && r.startedAt.Some? && r.startedAt.value < cutoff
  }

  function StaleRows(rows: Rows, pool: int, cutoff: int, at: int): Rows {
    map i | i in rows ::
      if Stale(rows[i], pool, cutoff) then rows[i].(completedAt := Some(at), status := Interrupted) else rows[i]
  }

  function Requeue(r: JobRow, meta: Meta, queuedAt: int): JobRow {
    r.(queuedAt := Coalesce(r.queuedAt, NullTime(queuedAt)), meta := MergeMeta(r.meta, meta))
  }

  // RecordWebhookQueued: a closed row makes the upsert return no row, which
  // the caller reports as an error.
  ghost function DoQueued(t: Table, pool: int, job: int, meta: Meta, queuedAt: int): Outcome {
    if job == 0 then Outcome(true, t)
    else if !HasJob(t.rows, job) then Append(t, StubRow(pool, job, meta, queuedAt))
    else var i := JobRowOf(t.rows, job);
      if Open(t.rows[i]) then Commit(t, t.rows[i := Requeue(t.rows[i], meta, queuedAt)]) else Rollback(t)
  }

  function Attach(r: JobRow, job: int, startedAt: int, queued: Option<int>, meta: Meta): JobRow {
    r.(jobId := Some(job), status := Running, queuedAt := Coalesce(r.queuedAt, queued),
       startedAt := Coalesce(r.startedAt, NullTime(startedAt)), meta := MergeMeta(r.meta, meta))
  }

  function Promote(r: JobRow, runner: string, startedAt: int): JobRow {
    r.(runner := runner, status := Running, startedAt := Coalesce(r.startedAt, NullTime(startedAt)))
  }

  function RunningRow(pool: int, job: int, runner: string, startedAt: int, queued: Option<int>, meta: Meta): JobRow {
    JobRow(pool, runner, Running, queued, NullTime(startedAt), None, None, Some(job), meta, FromWebhook)
  }

  function EffectiveQueued(stub: JobRow, queuedAt: int): Option<int> {
    if stub.queuedAt.Some? && stub.queuedAt.value != 0 then stub.queuedAt else NullTime(queuedAt)
  }

  // RecordWebhookStarted, for a non-zero job id and a non-empty runner name.
  ghost function DoStarted(t: Table, pool: int, job: int, runner: string, startedAt: int, queuedAt: int, meta: Meta): Outcome
  {
    if job == 0 || runner == "" then Outcome(true, t)
    else if HasOpenJob(t.rows, job) then
      var s := JobRowOf(t.rows, job);
      if !HasSlot(t.rows, pool, runner) then
        // Promote in place; the stub keeps its own pool, whose slot may be taken.
        if exists j :: j != s && IsSlot(t.rows, j, t.rows[s].pool, runner) then Rollback(t)
        else Commit(t, t.rows[s := Promote(t.rows[s], runner, startedAt)])
      else
        // Absorb: the stub goes, the runner's row takes its identity.
        var k := SlotOf(t.rows, pool, runner);
        if k == s then Commit(t, t.rows - {s})
        else Commit(t, (t.rows - {s})[k := Attach(t.rows[k], job, startedAt, EffectiveQueued(t.rows[s], queuedAt), meta)])
    else if HasJob(t.rows, job) then Rollback(t)
    else if HasSlot(t.rows, pool, runner) then
      var k := SlotOf(t.rows, pool, runner);
      Commit(t, t.rows[k := Attach(t.rows[k], job, startedAt, NullTime(queuedAt), meta)])
    else Append(t, RunningRow(pool, job, runner, startedAt, NullTime(queuedAt), meta))
  }

  function Conclude(r: JobRow, status: Status, at: Option<int>): JobRow {
    r.(completedAt := at, status := status)
  }

  function ConcludeAs(r: JobRow, runner: string, status: Status, at: Option<int>): JobRow {
    r.(completedAt := at, status := status, runner := if r.runner == "" then runner else r.runner)
  }

  function Stamp(r: JobRow, status: Status, at: Option<int>, job: Option<int>): JobRow {
    r.(completedAt := at, status := status, jobId := job)
  }

  predicate Duplicate(r: JobRow, pool: int, runner: string) {
    runner != "" && OpenFor(r, pool, runner) && NoJobId(r)
  }

  // The open transition row that the fallback close would take.
  ghost predicate HasBareSlot(rows: Rows, pool: int, runner: string) {
    runner != "" && HasSlot(rows, pool, runner) && NoJobId(rows[SlotOf(rows, pool, runner)])
  }

  ghost predicate HasUpgradableJob(rows: Rows, job: int) {
    job != 0 && HasJob(rows, job) && var r := rows[JobRowOf(rows, job)]; !Open(r) && r.status == Completed
  }

  // The duplicate transition rows swept after a close by job id.
  function WithoutDuplicates(rows: Rows, pool: int, runner: string): Rows {
    map i | i in rows && !Duplicate(rows[i], pool, runner) :: rows[i]
  }

  // RecordWebhookCompleted with the instant it carries (None when the forge
  // sent no usable completed_at).
  ghost function DoCompleted(t: Table, pool: int, job: int, runner: string, status: Status, at: Option<int>): Outcome
  {
    if job != 0 && HasOpenJob(t.rows, job) then
      CloseById(t, JobRowOf(t.rows, job), pool, runner, status, at)
    else if HasBareSlot(t.rows, pool, runner) then
      StampRow(t, SlotOf(t.rows, pool, runner), status, at, job)
    else if HasUpgradableJob(t.rows, job) then
      var i := JobRowOf(t.rows, job);
      ReopenGuard(t, i, Conclude(t.rows[i], status, at))
    else if runner != "" && HasLatest(t.rows, pool, runner) then
      StampRow(t, LatestOf(t.rows, pool, runner), status, at, job)
    else Outcome(true, t)
  }

  // Writing row i is refused exactly when it would take a second open slot.
  ghost function ReopenGuard(t: Table, i: nat, r: JobRow): Outcome {
    if Open(r) && r.runner != "" && exists j :: j != i && IsSlot(t.rows, j, r.pool, r.runner) then Rollback(t)
    else Commit(t, t.rows[i := r])
  }

  ghost function CloseById(t: Table, i: nat, pool: int, runner: string, status: Status, at: Option<int>): Outcome
    requires i in t.rows
  {
    var o := ReopenGuard(t, i, ConcludeAs(t.rows[i], runner, status, at));
    if o.ok then Commit(t, WithoutDuplicates(o.table.rows, pool, runner)) else o
  }

  ghost function StampRow(t: Table, i: nat, status: Status, at: Option<int>, job: int): Outcome
    requires i in t.rows
  {
    if job != 0 && HasJob(t.rows, job) then Rollback(t)
    else ReopenGuard(t, i, Stamp(t.rows[i], status, at, NullId(job)))
  }

  // ---- Operations as data --------------------------------------------------

  datatype Op =
    | OpenTransition(pool: int, runner: string, startedAt: int)
    | CloseTransition(pool: int, runner: string, status: Status, job: int, log: string, at: int)
    | JobTimeout(pool: int, runner: string, log: string, at: int)
    | CloseInterrupted(at: int, keep: set<RunnerKey>)
    | CloseStale(pool: int, cutoff: int, at: int)
    | WebhookQueued(pool: int, job: int, meta: Meta, queuedAt: int)
    | WebhookStarted(pool: int, job: int, runner: string, startedAt: int, queuedAt: int, meta: Meta)
    | WebhookCompleted(pool: int, job: int, runner: string, status: Status, at: int)

  function NullPath(p: string): Option<string> {
    if p == "" then None else Some(p)
  }

  ghost function Do(t: Table, op: Op): Outcome {
    match op
    case OpenTransition(pool, runner, at) => DoOpen(t, pool, runner, at)
    case CloseTransition(pool, runner, status, job, log, at) =>
      DoClose(t, pool, runner, status, if job > 0 then Some(job) else None, NullPath(log), NullTime(at))
    case JobTimeout(pool, runner, log, at) => DoClose(t, pool, runner, Timeout, None, NullPath(log), Some(at))
    case CloseInterrupted(at, keep) => Commit(t, InterruptedRows(t.rows, at, keep))
    case CloseStale(pool, cutoff, at) => Commit(t, StaleRows(t.rows, pool, cutoff, at))
    case WebhookQueued(pool, job, meta, at) => DoQueued(t, pool, job, meta, at)
    case WebhookStarted(pool, job, runner, started, queued, meta) => DoStarted(t, pool, job, runner, started, queued, meta)
    case WebhookCompleted(pool, job, runner, status, at) => DoCompleted(t, pool, job, runner, status, NullTime(at))
  }

  ghost function Run(t: Table, ops: seq<Op>): Table {
    if ops == [] then t else Do(Run(t, ops[..|ops| - 1]), ops[|ops| - 1]).table
  }
}
