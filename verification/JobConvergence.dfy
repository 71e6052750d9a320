// The recordings of one job (poll-open, queued, in_progress) reach the table in
// any order and with redeliveries; this module follows the shape they leave and
// shows what the final completed event makes of it.
module JobConvergence {
  import opened Basics
  import opened JobTable
  import opened JobRecorder
  import opened JobMerge

  // Identity of the job whose events are followed.
  datatype Job = Job(pool: int, id: int, runner: string)

  // The rows of the job in the table, by id: the queued stub, the runner's
  // poll-opened row, both of them, or the one row they were merged into.
  datatype Shape = Nothing | Stub(s: nat) | Busy(k: nat) | Both(s: nat, k: nat) | Merged(k: nat)

  predicate IsStub(r: JobRow, j: Job) {
    Open(r) && r.pool == j.pool && r.runner == "" && r.jobId == Some(j.id) && r.status == Queued
  }

  predicate IsBusy(r: JobRow, j: Job) {
    OpenFor(r, j.pool, j.runner) && r.jobId == None && r.status == Running
  }

  predicate IsMerged(r: JobRow, j: Job) {
    OpenFor(r, j.pool, j.runner) && r.jobId == Some(j.id) && r.status == Running
  }

  // The table is base plus exactly the rows of the shape.
  ghost predicate At(base: Rows, rows: Rows, j: Job, sh: Shape) {
    match sh
    case Nothing => rows == base
    case Stub(s) => s !in base && s in rows && rows == base[s := rows[s]] && IsStub(rows[s], j)
    case Busy(k) => k !in base && k in rows && rows == base[k := rows[k]] && IsBusy(rows[k], j)
    case Both(s, k) =>
      && s != k && s !in base && k !in base && s in rows && k in rows
      && rows == base[s := rows[s]][k := rows[k]] && IsStub(rows[s], j) && IsBusy(rows[k], j)
    case Merged(k) => k !in base && k in rows && rows == base[k := rows[k]] && IsMerged(rows[k], j)
  }

  ghost predicate Fresh(base: Rows, j: Job) {
    j.id != 0 && j.runner != "" && forall i :: i in base ==> base[i].runner != j.runner && base[i].jobId != Some(j.id)
  }

  predicate IsEvent(ev: Op, j: Job) {
    || (ev.OpenTransition? && ev.pool == j.pool && ev.runner == j.runner)
    || (ev.WebhookQueued? && ev.pool == j.pool && ev.job == j.id)
    || (ev.WebhookStarted? && ev.pool == j.pool && ev.job == j.id && ev.runner == j.runner)
  }

  // in_progress at most once; poll-open and queued may repeat freely.
  predicate StartedOnce(evs: seq<Op>) {
    forall a, b :: 0 <= a < b < |evs| ==> !(evs[a].WebhookStarted? && evs[b].WebhookStarted?)
  }

  function Next(sh: Shape, ev: Op, id: nat): Shape {
    match sh
    case Nothing => if ev.OpenTransition? then Busy(id) else if ev.WebhookQueued? then Stub(id) else Merged(id)
    case Stub(s) => if ev.OpenTransition? then Both(s, id) else if ev.WebhookQueued? then sh else Merged(s)
    case Busy(k) => if ev.OpenTransition? then sh else if ev.WebhookQueued? then Both(id, k) else Merged(k)
    case Both(s, k) => if ev.WebhookStarted? then Merged(k) else sh
    case Merged(k) => sh
  }

  // The lookups of the recorder, decided by the shape.
  lemma Lookups(base: Rows, rows: Rows, j: Job, sh: Shape)
    requires Fresh(base, j) && At(base, rows, j, sh)
    ensures HasJob(rows, j.id) <==> sh.Stub? || sh.Both? || sh.Merged?
    ensures HasSlot(rows, j.pool, j.runner) <==> sh.Busy? || sh.Both? || sh.Merged?
    ensures HasJob(rows, j.id) ==> JobRowOf(rows, j.id) == if sh.Merged? then sh.k else sh.s
    ensures HasSlot(rows, j.pool, j.runner) ==> SlotOf(rows, j.pool, j.runner) == sh.k
    ensures forall i :: i in rows && i !in base ==> 
      ((sh.Stub? || sh.Both?) && i == sh.s) || ((sh.Busy? || sh.Both? || sh.Merged?) && i == sh.k)
  {
    match sh
    case Nothing =>
    case Stub(s) => assert IsJob(rows, s, j.id);
    case Busy(k) => assert IsSlot(rows, k, j.pool, j.runner);
    case Both(s, k) => assert IsJob(rows, s, j.id) && IsSlot(rows, k, j.pool, j.runner);
    case Merged(k) => assert IsJob(rows, k, j.id) && IsSlot(rows, k, j.pool, j.runner);
  }

  lemma EventStep(base: Rows, t: Table, j: Job, sh: Shape, ev: Op)
    requires Valid(t) && Fresh(base, j) && base.Keys <= t.rows.Keys && At(base, t.rows, j, sh)
    requires IsEvent(ev, j) && !(sh.Merged? && ev.WebhookStarted?)
    ensures Do(t, ev).ok && At(base, Do(t, ev).table.rows, j, Next(sh, ev, t.nextId))
  {
    Lookups(base, t.rows, j, sh);
    assert t.nextId !in t.rows;
    var t1 := Do(t, ev).table;
    if sh.Both? && ev.WebhookStarted? {
      var r := Attach(t.rows[sh.k], j.id, ev.startedAt, EffectiveQueued(t.rows[sh.s], ev.queuedAt), ev.meta);
      assert t1.rows == base[sh.k := r];
    }
  }

  ghost predicate Recorded(evs: seq<Op>, kind: Op -> bool) {
    exists a :: 0 <= a < |evs| && kind(evs[a])
  }

  ghost predicate SawOpen(evs: seq<Op>) { Recorded(evs, (e: Op) => e.OpenTransition?) }
  ghost predicate SawQueued(evs: seq<Op>) { Recorded(evs, (e: Op) => e.WebhookQueued?) }
  ghost predicate SawStarted(evs: seq<Op>) { Recorded(evs, (e: Op) => e.WebhookStarted?) }

  // Any sequence of the job's events leaves the shape decided by which kinds
  // were recorded, not by their order.
  lemma {:induction false} EventsShape(t: Table, j: Job, evs: seq<Op>) returns (sh: Shape)
    requires Valid(t) && Fresh(t.rows, j)
    requires (forall a :: 0 <= a < |evs| ==> IsEvent(evs[a], j)) && StartedOnce(evs)
    ensures Valid(Run(t, evs)) && t.rows.Keys <= Run(t, evs).rows.Keys && At(t.rows, Run(t, evs).rows, j, sh)
    ensures sh.Merged? <==> SawStarted(evs)
    ensures sh.Both? <==> !SawStarted(evs) && SawOpen(evs) && SawQueued(evs)
    ensures sh.Busy? <==> !SawStarted(evs) && SawOpen(evs) && !SawQueued(evs)
    ensures sh.Stub? <==> !SawStarted(evs) && !SawOpen(evs) && SawQueued(evs)
  {
    if evs == [] {
      sh := Nothing;
    } else {
      var before, ev := evs[..|evs| - 1], evs[|evs| - 1];
      var sh0 := EventsShape(t, j, before);
      assert evs == before + [ev];
      assert SawStarted(before) ==> !ev.WebhookStarted?;
      EventStep(t.rows, Run(t, before), j, sh0, ev);
      KeepsIndexes(Run(t, before), ev);
      sh := Next(sh0, ev, Run(t, before).nextId);
      AppendSaw(before, ev);
    }
  }

  lemma AppendSaw(before: seq<Op>, ev: Op)
    ensures SawStarted(before + [ev]) <==> SawStarted(before) || ev.WebhookStarted?
    ensures SawOpen(before + [ev]) <==> SawOpen(before) || ev.OpenTransition?
    ensures SawQueued(before + [ev]) <==> SawQueued(before) || ev.WebhookQueued?
  {
    var evs := before + [ev];
    assert evs[|before|] == ev;
    assert forall a :: 0 <= a < |before| ==> evs[a] == before[a];
  }

  // The row a job is supposed to end as.
  predicate IsFinal(r: JobRow, j: Job, status: Status, at: int) {
    r.pool == j.pool && r.runner == j.runner && r.jobId == Some(j.id) && r.status == status && r.completedAt == Some(at)
  }

  lemma CompletedStep(base: Rows, t: Table, j: Job, sh: Shape, status: Status, at: int) returns (i: nat)
    requires Valid(t) && Fresh(base, j) && base.Keys <= t.rows.Keys && At(base, t.rows, j, sh) && at != 0
    requires !sh.Nothing?
    ensures var o := Do(t, WebhookCompleted(j.pool, j.id, j.runner, status, at));
      o.ok && i !in base && i in o.table.rows && o.table.rows == base[i := o.table.rows[i]] &&
      IsFinal(o.table.rows[i], j, status, at)
  {
    Lookups(base, t.rows, j, sh);
    var o := Do(t, WebhookCompleted(j.pool, j.id, j.runner, status, at));
    i := if sh.Stub? || sh.Both? then sh.s else sh.k;
    if sh.Both? {
      assert o.table.rows == base[i := ConcludeAs(t.rows[i], j.runner, status, Some(at))];
    }
  }

  // Whatever the order of the events, and however often poll-open and queued
  // repeat, completion leaves exactly one row of the job: right pool, runner,
  // job id, conclusion and instant.  Every other row is untouched.
  lemma EventsConverge(t: Table, j: Job, evs: seq<Op>, status: Status, at: int)
    requires Valid(t) && Fresh(t.rows, j) && at != 0
    requires evs != [] && (forall a :: 0 <= a < |evs| ==> IsEvent(evs[a], j)) && StartedOnce(evs)
    ensures var rows := Run(t, evs + [WebhookCompleted(j.pool, j.id, j.runner, status, at)]).rows;
      exists i :: i !in t.rows && i in rows && rows == t.rows[i := rows[i]] && IsFinal(rows[i], j, status, at)
  {
    var done := WebhookCompleted(j.pool, j.id, j.runner, status, at);
    var sh := EventsShape(t, j, evs);
    SomeKind(evs, j);
    var i := CompletedStep(t.rows, Run(t, evs), j, sh, status, at);
    assert (evs + [done])[..|evs|] == evs;
  }

  lemma SomeKind(evs: seq<Op>, j: Job)
    requires evs != [] && forall a :: 0 <= a < |evs| ==> IsEvent(evs[a], j)
    ensures SawOpen(evs) || SawQueued(evs) || SawStarted(evs)
  {
    assert IsEvent(evs[0], j);
  }

  // ---- Death before the webhook --------------------------------------------

  function NewRows(base: Rows, rows: Rows): set<nat> {
    set i | i in rows && i !in base
  }

  // The runner's container dies first: the reap path closes its open row, then
  // the completed event arrives.  A crash closes as interrupted and a clean exit
  // as completed, both without a job id; an enriched clean exit closes with the
  // forge's conclusion and the job's id.
  datatype Death = Death(status: Status, job: int, log: string, at: int)

  ghost predicate IsDeath(d: Death, j: Job) {
    d.at != 0 && (d.job == 0 || (d.job == j.id && j.id > 0))
  }

  function DeathOp(j: Job, d: Death): Op {
    CloseTransition(j.pool, j.runner, d.status, d.job, d.log, d.at)
  }

  function DeathId(d: Death): Option<int> {
    if d.job > 0 then Some(d.job) else None
  }

  // An enriched close clashes with an unmerged stub and is refused; otherwise the
  // reap path closes the runner's row and nothing else.
  lemma DeathCloses(base: Rows, t: Table, j: Job, sh: Shape, d: Death)
    requires Valid(t) && Fresh(base, j) && At(base, t.rows, j, sh) && IsDeath(d, j)
    ensures var t1 := Do(t, DeathOp(j, d)).table;
      Valid(t1) &&
      (sh.Both? && d.job != 0 ==> t1 == t) &&
      (!(sh.Both? && d.job != 0) ==>
        t1.rows == if sh.Busy? || sh.Both? || sh.Merged?
                   then t.rows[sh.k := CloseRow(t.rows[sh.k], d.status, DeathId(d), NullPath(d.log), Some(d.at))] else t.rows)
  {
    Lookups(base, t.rows, j, sh);
    KeepsIndexes(t, DeathOp(j, d));
    assert forall i :: IsSlot(t.rows, i, j.pool, j.runner) ==> (sh.Busy? || sh.Both? || sh.Merged?) && i == sh.k;
    assert forall i :: i in t.rows && OpenFor(t.rows[i], j.pool, j.runner) ==> IsSlot(t.rows, i, j.pool, j.runner);
    if sh.Both? && d.job != 0 {
      assert IsSlot(t.rows, sh.k, j.pool, j.runner) && IsJob(t.rows, sh.s, j.id);
      assert StampClash(t.rows, sh.k, sh.s, j.pool, j.runner, Some(d.job));
    } else {
      NoClash(base, t, j, sh, d);
    }
  }

  lemma NoClash(base: Rows, t: Table, j: Job, sh: Shape, d: Death)
    requires Valid(t) && Fresh(base, j) && At(base, t.rows, j, sh) && IsDeath(d, j) && !(sh.Both? && d.job != 0)
    ensures forall i, k :: !StampClash(t.rows, i, k, j.pool, j.runner, DeathId(d))
  {
    if d.job != 0 {
      forall i, k | IsSlot(t.rows, i, j.pool, j.runner) && k != i ensures !IsJob(t.rows, k, j.id) {
        Lookups(base, t.rows, j, sh);
      }
    }
  }

  // After the death: an unmerged stub is still open, and the completed event
  // closes it whatever became of the runner's row.
  lemma StubAfterDeath(t1: Table, j: Job, s: nat, status: Status, at: int)
    requires Valid(t1) && s in t1.rows && IsStub(t1.rows[s], j) && j.id != 0 && at != 0
    requires forall i :: !IsSlot(t1.rows, i, j.pool, j.runner)
    ensures Do(t1, WebhookCompleted(j.pool, j.id, j.runner, status, at)).table.rows ==
      t1.rows[s := ConcludeAs(t1.rows[s], j.runner, status, Some(at))]
  {
    assert IsJob(t1.rows, s, j.id);
    OneJobRow(t1.rows, s, j.id);
    var after := t1.rows[s := ConcludeAs(t1.rows[s], j.runner, status, Some(at))];
    forall i | i in after ensures !Duplicate(after[i], j.pool, j.runner) {
      assert i != s ==> !IsSlot(t1.rows, i, j.pool, j.runner);
    }
    assert WithoutDuplicates(after, j.pool, j.runner) == after;
  }

  // A closed row that carries the job's id takes the conclusion if it was closed
  // as completed, and keeps its own otherwise.
  lemma ClosedWithId(t1: Table, j: Job, k: nat, status: Status, at: int)
    requires Valid(t1) && IsJob(t1.rows, k, j.id) && !Open(t1.rows[k])
    requires forall i :: i in t1.rows && i != k ==> t1.rows[i].runner != j.runner
    requires j.id != 0 && j.runner != "" && at != 0
    ensures Do(t1, WebhookCompleted(j.pool, j.id, j.runner, status, at)).table.rows ==
      if t1.rows[k].status == Completed then t1.rows[k := Conclude(t1.rows[k], status, Some(at))] else t1.rows
  {
    OneJobRow(t1.rows, k, j.id);
    assert forall i :: !IsSlot(t1.rows, i, j.pool, j.runner);
    assert forall i :: i in t1.rows && Upgradable(t1.rows[i], j.pool, j.runner) ==> i == k;
  }

  // ... and one without an id is stamped under the same condition.
  lemma ClosedWithoutId(t1: Table, j: Job, k: nat, status: Status, at: int)
    requires Valid(t1) && k in t1.rows && t1.rows[k].pool == j.pool && t1.rows[k].runner == j.runner
    requires !Open(t1.rows[k]) && t1.rows[k].jobId == None
    requires forall i :: i in t1.rows && i != k ==> t1.rows[i].runner != j.runner && t1.rows[i].jobId != Some(j.id)
    requires j.id != 0 && j.runner != "" && at != 0
    ensures Do(t1, WebhookCompleted(j.pool, j.id, j.runner, status, at)).table.rows ==
      if t1.rows[k].status == Completed then t1.rows[k := Stamp(t1.rows[k], status, Some(at), Some(j.id))] else t1.rows
  {
    assert forall i :: !IsJob(t1.rows, i, j.id) && !IsSlot(t1.rows, i, j.pool, j.runner);
    if t1.rows[k].status == Completed {
      assert IsLatest(t1.rows, k, j.pool, j.runner);
      OneLatest(t1.rows, k, j.pool, j.runner);
    }
  }

  // The row as the death left it.
  predicate IsDead(r: JobRow, j: Job, d: Death, id: Option<int>) {
    r.pool == j.pool && r.runner == j.runner && r.status == d.status && r.completedAt == Some(d.at) && r.jobId == id
  }

  // What a job of the given shape ends as.
  ghost predicate EndsAs(base: Rows, rows: Rows, j: Job, sh: Shape, d: Death, status: Status, at: int) {
    match sh
    case Nothing => false
    case Stub(s) => NewRows(base, rows) == {s} && IsFinal(rows[s], j, status, at)
    case Both(s, k) =>
      if d.job != 0 then NewRows(base, rows) == {s} && IsFinal(rows[s], j, status, at)
      else NewRows(base, rows) == {s, k} && s != k && IsFinal(rows[s], j, status, at) && IsDead(rows[k], j, d, None)
    case Busy(k) =>
      NewRows(base, rows) == {k} &&
      if d.status == Completed then IsFinal(rows[k], j, status, at) else IsDead(rows[k], j, d, DeathId(d))
    case Merged(k) =>
      NewRows(base, rows) == {k} &&
      if d.status == Completed then IsFinal(rows[k], j, status, at) else IsDead(rows[k], j, d, Some(j.id))
  }

  lemma DeathStub(base: Rows, t: Table, j: Job, sh: Shape, d: Death, status: Status, at: int)
    requires Valid(t) && Fresh(base, j) && base.Keys <= t.rows.Keys && At(base, t.rows, j, sh)
    requires (sh.Stub? || (sh.Both? && d.job == 0)) && IsDeath(d, j) && at != 0
    ensures EndsAs(base, Do(Do(t, DeathOp(j, d)).table, WebhookCompleted(j.pool, j.id, j.runner, status, at)).table.rows,
                   j, sh, d, status, at)
  {
    DeathCloses(base, t, j, sh, d);
    Lookups(base, t.rows, j, sh);
    var t1 := Do(t, DeathOp(j, d)).table;
    assert forall i :: IsSlot(t1.rows, i, j.pool, j.runner) ==> IsSlot(t.rows, i, j.pool, j.runner);
    StubAfterDeath(t1, j, sh.s, status, at);
  }

  lemma DeathClosed(base: Rows, t: Table, j: Job, sh: Shape, d: Death, status: Status, at: int)
    requires Valid(t) && Fresh(base, j) && base.Keys <= t.rows.Keys && At(base, t.rows, j, sh)
    requires (sh.Busy? || sh.Merged?) && IsDeath(d, j) && at != 0
    ensures EndsAs(base, Do(Do(t, DeathOp(j, d)).table, WebhookCompleted(j.pool, j.id, j.runner, status, at)).table.rows,
                   j, sh, d, status, at)
  {
    DeathCloses(base, t, j, sh, d);
    var t1 := Do(t, DeathOp(j, d)).table;
    if sh.Merged? || d.job != 0 {
      ClosedWithId(t1, j, sh.k, status, at);
    } else {
      ClosedWithoutId(t1, j, sh.k, status, at);
    }
  }

  lemma DeathStep(base: Rows, t: Table, j: Job, sh: Shape, d: Death, status: Status, at: int)
    requires Valid(t) && Fresh(base, j) && base.Keys <= t.rows.Keys && At(base, t.rows, j, sh)
    requires !sh.Nothing? && IsDeath(d, j) && at != 0
    ensures EndsAs(base, Do(Do(t, DeathOp(j, d)).table, WebhookCompleted(j.pool, j.id, j.runner, status, at)).table.rows,
                   j, sh, d, status, at)
  {
    if sh.Both? && d.job != 0 {
      DeathCloses(base, t, j, sh, d);
      var i := CompletedStep(base, t, j, sh, status, at);
      Lookups(base, t.rows, j, sh);
    } else if sh.Stub? || sh.Both? {
      DeathStub(base, t, j, sh, d, status, at);
    } else {
      DeathClosed(base, t, j, sh, d, status, at);
    }
  }

  lemma DeathRun(t: Table, j: Job, evs: seq<Op>, d: Death, status: Status, at: int) returns (sh: Shape)
    requires Valid(t) && Fresh(t.rows, j) && IsDeath(d, j) && at != 0
    requires evs != [] && (forall a :: 0 <= a < |evs| ==> IsEvent(evs[a], j)) && StartedOnce(evs)
    ensures EndsAs(t.rows, Run(t, evs + [DeathOp(j, d), WebhookCompleted(j.pool, j.id, j.runner, status, at)]).rows,
                   j, sh, d, status, at)
    ensures sh.Merged? <==> SawStarted(evs)
    ensures sh.Both? <==> !SawStarted(evs) && SawOpen(evs) && SawQueued(evs)
    ensures sh.Stub? <==> !SawStarted(evs) && !SawOpen(evs) && SawQueued(evs)
  {
    var death, done := DeathOp(j, d), WebhookCompleted(j.pool, j.id, j.runner, status, at);
    sh := EventsShape(t, j, evs);
    SomeKind(evs, j);
    DeathStep(t.rows, Run(t, evs), j, sh, d, status, at);
    RunThenTwo(t, evs, death, done);
  }

  // The job ends as one row unless the poll path and the queued webhook had both
  // recorded it, no in_progress had merged them and the death was recorded
  // without the job's id: then it is counted twice.
  lemma DeathRace(t: Table, j: Job, evs: seq<Op>, d: Death, status: Status, at: int)
    requires Valid(t) && Fresh(t.rows, j) && IsDeath(d, j) && at != 0
    requires evs != [] && (forall a :: 0 <= a < |evs| ==> IsEvent(evs[a], j)) && StartedOnce(evs)
    ensures var rows := Run(t, evs + [DeathOp(j, d), WebhookCompleted(j.pool, j.id, j.runner, status, at)]).rows;
      |NewRows(t.rows, rows)| == 1 <==> !(SawOpen(evs) && SawQueued(evs) && !SawStarted(evs) && d.job == 0)
  {
    var sh := DeathRun(t, j, evs, d, status, at);
    if sh.Both? && d.job == 0 { assert |{sh.s, sh.k}| == 2; }
  }

  // A concrete case: the runner was seen busy, the queued event came, and the
  // container crashed before in_progress.
  lemma CrashCountsTwice(t: Table, j: Job, meta: Meta, from: int, queuedAt: int, crashed: int, status: Status, at: int)
    requires Valid(t) && Fresh(t.rows, j) && crashed != 0 && at != 0
    ensures var evs := [OpenTransition(j.pool, j.runner, from), WebhookQueued(j.pool, j.id, meta, queuedAt)];
      var d := Death(Interrupted, 0, "", crashed);
      |NewRows(t.rows, Run(t, evs + [DeathOp(j, d), WebhookCompleted(j.pool, j.id, j.runner, status, at)]).rows)| != 1
  {
    var evs := [OpenTransition(j.pool, j.runner, from), WebhookQueued(j.pool, j.id, meta, queuedAt)];
    assert evs[0].OpenTransition? && evs[1].WebhookQueued?;
    DeathRace(t, j, evs, Death(Interrupted, 0, "", crashed), status, at);
  }

  // The forge's conclusion reaches a row of the job when the death was
  // recorded as completed or a queued stub was still unmerged; otherwise the one
  // row keeps what the death wrote, without the job id if nothing had recorded it.
  lemma DeathKeepsConclusion(t: Table, j: Job, evs: seq<Op>, d: Death, status: Status, at: int) returns (i: nat)
    requires Valid(t) && Fresh(t.rows, j) && IsDeath(d, j) && at != 0
    requires evs != [] && (forall a :: 0 <= a < |evs| ==> IsEvent(evs[a], j)) && StartedOnce(evs)
    ensures var rows := Run(t, evs + [DeathOp(j, d), WebhookCompleted(j.pool, j.id, j.runner, status, at)]).rows;
      d.status == Completed || (SawQueued(evs) && !SawStarted(evs)) ==>
        i in NewRows(t.rows, rows) && IsFinal(rows[i], j, status, at)
    ensures var rows := Run(t, evs + [DeathOp(j, d), WebhookCompleted(j.pool, j.id, j.runner, status, at)]).rows;
      d.status != Completed && (SawQueued(evs) ==> SawStarted(evs)) ==>
        NewRows(t.rows, rows) == {i} && IsDead(rows[i], j, d, if SawStarted(evs) || d.job != 0 then Some(j.id) else None)
  {
    var sh := DeathRun(t, j, evs, d, status, at);
    i := if sh.Stub? || sh.Both? then sh.s else sh.k;
  }
}
