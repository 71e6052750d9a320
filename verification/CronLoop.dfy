// The cron engine of internal/cron/scheduler.go: registrations change the job
// table and drop a token into a one-slot wakeup channel, while the loop reads
// the earliest deadline, arms a timer and waits.  Every section under the
// scheduler's lock is one step; the loop's read, its wait and its firing are
// separate steps, so registrations fall anywhere between them.
module CronLoop {
  import opened Basics

  // next(schedule, t) is the first fire of a cron expression after t, or 0 when
  // there is none.
  type Clockwork = (int, int) -> int

  ghost predicate Sound(next: Clockwork) {
    forall sched, t :: next(sched, t) == 0 || next(sched, t) > t
  }

  // serial tells one registration's entry from the next one for the same pool.
  datatype Entry = Entry(sched: int, nextRun: int, lastRun: int, running: bool, pending: bool, serial: nat)

  // Reading: about to take the read lock.  Waiting: in the select, with the
  // armed deadline if any.  Firing: fireDueJobs has read the clock but not yet
  // taken the lock.
  datatype Loop = Idle | Reading | Waiting(armed: Option<int>) | Firing(now: int)

  datatype Task = Task(pool: nat, serial: nat)

  // tasks are the task goroutines in flight; owner[n] is the pool of the n-th
  // registration.
  datatype State = State(jobs: map<nat, Entry>, wakeup: bool, started: bool, stopped: bool, loop: Loop,
                         tasks: set<Task>, owner: seq<nat>)

  const INITIAL := State(map[], false, false, false, Idle, {}, [])

  datatype Policy = RunImmediately | Skip

  // valid: the expression parses and a task is given.
  datatype Config = Config(pool: nat, sched: int, lastRun: int, policy: Policy, valid: bool)

  // ---- Earliest deadline ---------------------------------------------------

  predicate HasDeadline(jobs: map<nat, Entry>, t: int) {
    exists p :: p in jobs && jobs[p].nextRun == t && t != 0
  }

  // The deadline the loop should be armed with.
  predicate IsEarliest(jobs: map<nat, Entry>, d: Option<int>) {
    match d
    case None => forall p :: p in jobs ==> jobs[p].nextRun == 0
    case Some(t) => HasDeadline(jobs, t) && forall p :: p in jobs && jobs[p].nextRun != 0 ==> t <= jobs[p].nextRun
  }

  predicate Due(e: Entry, now: int) {
    e.nextRun != 0 && e.nextRun <= now
  }

  // ---- Steps ---------------------------------------------------------------

  // A missed fire: the one expected after lastRun is already past (a zero
  // expectation counts as past).
  predicate Missed(next: Clockwork, c: Config, now: int) {
    c.lastRun != 0 && next(c.sched, c.lastRun) < now
  }

  function FreshEntry(next: Clockwork, c: Config, now: int, serial: nat): Entry {
    Entry(c.sched,
          if c.lastRun != 0 && !Missed(next, c, now) then next(c.sched, c.lastRun) else next(c.sched, now),
          c.lastRun, false, Missed(next, c, now) && c.policy == RunImmediately, serial)
  }

  function Dispatched(e: Entry, now: int): Entry {
    e.(pending := false, running := true, lastRun := now)
  }

  function Registered(next: Clockwork, s: State, c: Config, now: int): State {
    var e := FreshEntry(next, c, now, |s.owner|);
    if s.started && e.pending then
      s.(jobs := s.jobs[c.pool := Dispatched(e, now)], tasks := s.tasks + {Task(c.pool, |s.owner|)},
         owner := s.owner + [c.pool], wakeup := true)
    else s.(jobs := s.jobs[c.pool := e], owner := s.owner + [c.pool], wakeup := true)
  }

  // fireDueJobs under the lock.
  function Fired(next: Clockwork, e: Entry, now: int): Entry {
    if !Due(e, now) then e
    else if e.running then e.(nextRun := next(e.sched, now))
    else e.(lastRun := now, nextRun := next(e.sched, now), running := true)
  }

  function FiredJobs(next: Clockwork, jobs: map<nat, Entry>, now: int): map<nat, Entry> {
    map p | p in jobs :: Fired(next, jobs[p], now)
  }

  function TasksFor(jobs: map<nat, Entry>, launched: set<nat>): set<Task>
    requires launched <= jobs.Keys
  {
    set p | p in launched :: Task(p, jobs[p].serial)
  }

  function DuePools(jobs: map<nat, Entry>, now: int): set<nat> {
    set p | p in jobs && Due(jobs[p], now) && !jobs[p].running
  }

  function PendingPools(jobs: map<nat, Entry>): set<nat> {
    set p | p in jobs && jobs[p].pending
  }

  datatype Action =
    | Register(c: Config, now: int)
    | Unregister(pool: nat)
    | Retain(keep: set<nat>)          // the deletion half of SyncJobs
    | Start(now: int)
    | Stop
    | Read(d: Option<int>)            // the loop reads the earliest deadline and arms
    | Wake                            // ... takes the wakeup token
    | Alarm(now: int)                 // ... its timer fires
    | Fire                            // ... fireDueJobs takes the lock
    | Exit                            // ... returns once the scheduler is stopped
    | Finish(t: Task)

  predicate Enabled(s: State, a: Action) {
    match a
    case Register(_, _) => true
    case Unregister(_) => true
    case Retain(_) => true
    case Start(_) => !s.started && !s.stopped
    case Stop => s.started && !s.stopped
    case Read(d) => s.loop.Reading? && IsEarliest(s.jobs, d)
    case Wake => s.loop.Waiting? && s.wakeup
    case Alarm(now) => s.loop.Waiting? && s.loop.armed.Some? && s.loop.armed.value <= now
    case Fire => s.loop.Firing?
    case Exit => s.loop.Waiting? && s.stopped
    case Finish(t) => t in s.tasks
  }

  function StartedJobs(jobs: map<nat, Entry>, now: int): map<nat, Entry> {
    map p | p in jobs :: if jobs[p].pending then Dispatched(jobs[p], now) else jobs[p]
  }

  function Step(next: Clockwork, s: State, a: Action): State
    requires Enabled(s, a)
  {
    match a
    case Register(c, now) => if s.stopped || !c.valid then s else Registered(next, s, c, now)
    case Unregister(pool) => if pool in s.jobs then s.(jobs := s.jobs - {pool}, wakeup := true) else s
    case Retain(keep) => s.(jobs := map p | p in s.jobs && p in keep :: s.jobs[p], wakeup := true)
    case Start(now) =>
      s.(started := true, loop := Reading, jobs := StartedJobs(s.jobs, now),
         tasks := s.tasks + TasksFor(s.jobs, PendingPools(s.jobs)))
    case Stop => s.(started := false, stopped := true)
    case Read(d) => s.(loop := Waiting(d))
    case Wake => s.(wakeup := false, loop := Reading)
    case Alarm(now) => s.(loop := Firing(now))
    case Fire =>
      s.(loop := Reading, jobs := FiredJobs(next, s.jobs, s.loop.now),
         tasks := s.tasks + TasksFor(s.jobs, DuePools(s.jobs, s.loop.now)))
    case Exit => s.(loop := Idle)
    case Finish(t) =>
      s.(tasks := s.tasks - {t},
         jobs := if t.pool in s.jobs && s.jobs[t.pool].serial == t.serial
                 then s.jobs[t.pool := s.jobs[t.pool].(running := false)] else s.jobs)
  }

  // ---- Invariant -----------------------------------------------------------

  // While the loop waits, its deadline is the earliest one or a token is there.
  ghost predicate Armed(s: State) {
    s.loop.Waiting? ==> s.wakeup || IsEarliest(s.jobs, s.loop.armed)
  }

  ghost predicate Owns(s: State, pool: nat, serial: nat) {
    serial < |s.owner| && s.owner[serial] == pool
  }

  // Entries and tasks belong to registrations; running says whether the entry's
  // own task is in flight; only entries registered before Start are pending.
  ghost predicate Tracked(s: State) {
    && (forall p :: p in s.jobs ==> Owns(s, p, s.jobs[p].serial))
    && (forall t :: t in s.tasks ==> Owns(s, t.pool, t.serial))
    && (forall p :: p in s.jobs ==> (s.jobs[p].running <==> Task(p, s.jobs[p].serial) in s.tasks))
    && (forall p :: p in s.jobs && s.jobs[p].pending ==> !s.jobs[p].running && s.loop.Idle?)
  }

  ghost predicate Phased(s: State) {
    (s.stopped ==> !s.started) && (!s.stopped ==> (s.started <==> !s.loop.Idle?))
  }

  ghost predicate Inv(s: State) {
    Armed(s) && Tracked(s) && Phased(s)
  }

  // Reassigning only run bookkeeping moves no deadline.
  lemma SameDeadlines(a: map<nat, Entry>, b: map<nat, Entry>, d: Option<int>)
    requires a.Keys == b.Keys && (forall p :: p in a ==> a[p].nextRun == b[p].nextRun)
    requires IsEarliest(a, d)
    ensures IsEarliest(b, d)
  {
    if d.Some? {
      var p :| p in a && a[p].nextRun == d.value;
      assert b[p].nextRun == d.value;
    }
  }

  lemma StepKeepsArmed(next: Clockwork, s: State, a: Action)
    requires Inv(s) && Enabled(s, a)
    ensures Armed(Step(next, s, a))
  {
    var s1 := Step(next, s, a);
    if a.Finish? && s.loop.Waiting? && !s.wakeup {
      SameDeadlines(s.jobs, s1.jobs, s.loop.armed);
    }
  }

  lemma StepKeepsTracked(next: Clockwork, s: State, a: Action)
    requires Tracked(s) && Phased(s) && Enabled(s, a)
    ensures Tracked(Step(next, s, a))
  {
    match a
    case Register(c, now) => if !s.stopped && c.valid { RegisterTracked(next, s, c, now); }
    case Start(now) => LaunchTracked(s, Step(next, s, a), PendingPools(s.jobs));
    case Fire => LaunchTracked(s, Step(next, s, a), DuePools(s.jobs, s.loop.now));
    case Finish(t) => FinishTracked(next, s, t);
    case Unregister(_) => SubsetTracked(s, Step(next, s, a));
    case Retain(_) => SubsetTracked(s, Step(next, s, a));
    case _ => SubsetTracked(s, Step(next, s, a));
  }

  // Dropping entries, or changing neither entries nor tasks.
  lemma SubsetTracked(s: State, s1: State)
    requires Tracked(s) && s1.tasks == s.tasks && s1.owner == s.owner
    requires forall p :: p in s1.jobs ==> p in s.jobs && s1.jobs[p] == s.jobs[p]
    requires (exists p :: p in s1.jobs && s1.jobs[p].pending) ==> s.loop.Idle? ==> s1.loop.Idle?
    ensures Tracked(s1)
  {
    assert forall p, n :: Owns(s, p, n) ==> Owns(s1, p, n);
  }

  lemma FinishTracked(next: Clockwork, s: State, t: Task)
    requires Tracked(s) && t in s.tasks
    ensures Tracked(Step(next, s, Finish(t)))
  {
    var s1 := Step(next, s, Finish(t));
    assert forall p, n :: Owns(s, p, n) ==> Owns(s1, p, n);
    assert forall p :: p in s1.jobs ==> s1.jobs[p].serial == s.jobs[p].serial;
  }

  lemma RegisterTracked(next: Clockwork, s: State, c: Config, now: int)
    requires Tracked(s) && Phased(s) && !s.stopped
    ensures Tracked(Registered(next, s, c, now))
  {
    var s1 := Registered(next, s, c, now);
    assert forall p, n :: Owns(s, p, n) ==> Owns(s1, p, n);
    assert Owns(s1, c.pool, |s.owner|);
    assert forall t :: t in s.tasks ==> t.serial < |s.owner|;
  }

  // Starting the tasks of some idle entries.
  lemma LaunchTracked(s: State, s1: State, launched: set<nat>)
    requires Tracked(s) && s1.jobs.Keys == s.jobs.Keys && s1.owner == s.owner
    requires forall p :: p in launched ==> p in s.jobs && !s.jobs[p].running
    requires forall p :: p in s.jobs ==>
      s1.jobs[p].serial == s.jobs[p].serial && s1.jobs[p].running == (s.jobs[p].running || p in launched) &&
      (s1.jobs[p].pending ==> s.jobs[p].pending && p !in launched && s1.loop.Idle?)
    requires launched <= s.jobs.Keys && s1.tasks == s.tasks + TasksFor(s.jobs, launched)
    ensures Tracked(s1)
  {
    assert forall p, n :: Owns(s, p, n) ==> Owns(s1, p, n);
    forall t | t in s1.tasks && t !in s.tasks ensures t.pool in launched && t == Task(t.pool, s.jobs[t.pool].serial) { }
  }

  lemma StepKeepsInv(next: Clockwork, s: State, a: Action)
    requires Inv(s) && Enabled(s, a)
    ensures Inv(Step(next, s, a))
  {
    StepKeepsArmed(next, s, a);
    StepKeepsTracked(next, s, a);
  }

  ghost predicate IsRun(next: Clockwork, s: State, as_: seq<Action>)
    decreases |as_|, 0
  {
    as_ != [] ==> IsRun(next, s, as_[..|as_| - 1]) && Enabled(After(next, s, as_[..|as_| - 1]), as_[|as_| - 1])
  }

  ghost function After(next: Clockwork, s: State, as_: seq<Action>): State
    requires IsRun(next, s, as_)
    decreases |as_|, 1
  {
    if as_ == [] then s else Step(next, After(next, s, as_[..|as_| - 1]), as_[|as_| - 1])
  }

  // In every interleaving: whenever the loop waits, its armed deadline is the
  // minimum next run over all jobs, or a wakeup is pending.
  lemma {:induction false} NoWakeupLost(next: Clockwork, as_: seq<Action>)
    requires IsRun(next, INITIAL, as_)
    ensures Inv(After(next, INITIAL, as_))
  {
    if as_ != [] {
      NoWakeupLost(next, as_[..|as_| - 1]);
      StepKeepsInv(next, After(next, INITIAL, as_[..|as_| - 1]), as_[|as_| - 1]);
    }
  }

  // fireDueJobs leaves every remaining next run strictly after the instant it
  // read (or none), and starts exactly the due jobs that were not running.
  lemma FireClearsDue(next: Clockwork, s: State)
    requires Sound(next) && Tracked(s) && s.loop.Firing?
    ensures var s1 := Step(next, s, Fire);
      (forall p :: p in s1.jobs ==> s1.jobs[p].nextRun == 0 || s1.jobs[p].nextRun > s.loop.now) &&
      (forall p :: p in s.jobs ==>
        (Task(p, s.jobs[p].serial) in s1.tasks - s.tasks <==> Due(s.jobs[p], s.loop.now) && !s.jobs[p].running)) &&
      s1.jobs.Keys == s.jobs.Keys &&
      (forall p :: p in s.jobs ==>
        s1.jobs[p].lastRun ==
        if 0 != s.jobs[p].nextRun <= s.loop.now && !s.jobs[p].running then s.loop.now else s.jobs[p].lastRun)
  {
  }

  // Starting runs exactly the jobs that a missed fire left pending.
  lemma StartRunsPending(next: Clockwork, s: State, now: int, p: nat)
    requires Tracked(s) && Enabled(s, Start(now)) && p in s.jobs
    ensures var s1 := Step(next, s, Start(now));
      p in s1.jobs && s1.jobs[p].nextRun == s.jobs[p].nextRun &&
      (Task(p, s.jobs[p].serial) in s1.tasks <==> s.jobs[p].pending || s.jobs[p].running) &&
      if s.jobs[p].pending then !s1.jobs[p].pending && s1.jobs[p].running && s1.jobs[p].lastRun == now else s1.jobs[p] == s.jobs[p]
  {
  }

  // ---- A due job is reached ------------------------------------------------

  ghost predicate StillDue(s: State, pool: nat, serial: nat, at: int) {
    pool in s.jobs && s.jobs[pool].serial == serial && Due(s.jobs[pool], at)
  }

  // Loop steps left before an entry due at the instant is handled, while nobody
  // else signals.
  ghost function Distance(s: State, pool: nat, serial: nat, at: int): nat {
    if !StillDue(s, pool, serial, at) then 0
    else (match s.loop
          case Idle => 7
          case Reading => 3
          case Waiting(_) => 2
          case Firing(now) => if now >= at then 1 else 4) + (if s.wakeup then 2 else 0)
  }

  predicate LoopStep(a: Action) {
    a.Read? || a.Wake? || a.Alarm? || a.Fire?
  }

  // Steps that neither signal nor stop the loop nor read a clock before the instant.
  predicate Calm(a: Action, at: int) {
    !a.Register? && !a.Unregister? && !a.Retain? && !a.Start? && !a.Stop? && (a.Alarm? ==> a.now >= at)
  }

  lemma DistanceStep(next: Clockwork, s: State, a: Action, pool: nat, serial: nat, at: int)
    requires Sound(next) && Inv(s) && Enabled(s, a) && Calm(a, at) && !s.loop.Idle? && !s.stopped
    ensures Distance(Step(next, s, a), pool, serial, at) <= Distance(s, pool, serial, at)
    ensures LoopStep(a) && Distance(s, pool, serial, at) > 0 ==>
      Distance(Step(next, s, a), pool, serial, at) < Distance(s, pool, serial, at)
  {
  }

  // The loop can always move while a job is due: it never sleeps past it.
  lemma DueLoopCanMove(next: Clockwork, s: State, pool: nat, serial: nat, at: int, now: int)
    requires Inv(s) && !s.loop.Idle? && StillDue(s, pool, serial, at) && now >= at
    ensures s.loop.Reading? ==> exists d :: Enabled(s, Read(d))
    ensures s.loop.Waiting? ==> Enabled(s, Wake) || Enabled(s, Alarm(now))
    ensures s.loop.Firing? ==> Enabled(s, Fire)
  {
    if s.loop.Reading? {
      var t := MinDeadline(s.jobs, s.jobs.Keys);
      assert Enabled(s, Read(t));
    }
  }

  // earliestNextRunLocked always has an answer.
  lemma {:induction false} MinDeadline(jobs: map<nat, Entry>, keys: set<nat>) returns (d: Option<int>)
    requires keys <= jobs.Keys
    ensures d.None? ==> forall p :: p in keys ==> jobs[p].nextRun == 0
    ensures d.Some? ==> (exists p :: p in keys && jobs[p].nextRun == d.value && d.value != 0) &&
                        forall p :: p in keys && jobs[p].nextRun != 0 ==> d.value <= jobs[p].nextRun
    decreases keys
  {
    if p :| p in keys {
      var rest := MinDeadline(jobs, keys - {p});
      d := if jobs[p].nextRun != 0 && (rest.None? || jobs[p].nextRun < rest.value) then Some(jobs[p].nextRun) else rest;
      if d == rest && d.Some? {
        var q :| q in keys - {p} && jobs[q].nextRun == d.value;
        assert q in keys;
      }
    } else {
      d := None;
    }
  }

  ghost function LoopSteps(as_: seq<Action>): nat {
    if as_ == [] then 0 else LoopSteps(as_[..|as_| - 1]) + if LoopStep(as_[|as_| - 1]) then 1 else 0
  }

  lemma {:induction false} DistanceRun(next: Clockwork, s: State, as_: seq<Action>, pool: nat, serial: nat, at: int)
    requires Sound(next) && Inv(s) && !s.loop.Idle? && !s.stopped && IsRun(next, s, as_)
    requires forall i :: 0 <= i < |as_| ==> Calm(as_[i], at)
    ensures Inv(After(next, s, as_)) && !After(next, s, as_).loop.Idle? && !After(next, s, as_).stopped
    ensures Distance(After(next, s, as_), pool, serial, at) +
      Min(LoopSteps(as_), Distance(s, pool, serial, at)) <= Distance(s, pool, serial, at)
  {
    if as_ != [] {
      var before, a := as_[..|as_| - 1], as_[|as_| - 1];
      DistanceRun(next, s, before, pool, serial, at);
      StepKeepsInv(next, After(next, s, before), a);
      DistanceStep(next, After(next, s, before), a, pool, serial, at);
    }
  }

  // No fire is missed: a job due at the instant is handled (started, or skipped
  // because its previous run is still going) within six loop steps, provided no
  // registration keeps interrupting the loop meanwhile.
  lemma DueJobIsReached(next: Clockwork, past: seq<Action>, as_: seq<Action>, pool: nat, at: int)
    requires Sound(next) && IsRun(next, INITIAL, past)
    requires !After(next, INITIAL, past).loop.Idle? && !After(next, INITIAL, past).stopped
    requires pool in After(next, INITIAL, past).jobs && Due(After(next, INITIAL, past).jobs[pool], at)
    requires IsRun(next, After(next, INITIAL, past), as_) && LoopSteps(as_) >= 6
    requires forall i :: 0 <= i < |as_| ==> Calm(as_[i], at)
    ensures var s := After(next, INITIAL, past);
      !StillDue(After(next, s, as_), pool, s.jobs[pool].serial, at)
  {
    var s := After(next, INITIAL, past);
    NoWakeupLost(next, past);
    DistanceRun(next, s, as_, pool, s.jobs[pool].serial, at);
  }

  // ---- When a registered job is due ----------------------------------------

  // Whether an expression fires at an instant.
  type Fires = (int, int) -> bool

  // n is the first fire after t, or 0 when there is none.
  ghost predicate FirstAfter(fires: Fires, sched: int, t: int, n: int) {
    if n == 0 then forall u :: u > t ==> !fires(sched, u)
    else n > t && fires(sched, n) && forall u :: t < u < n ==> !fires(sched, u)
  }

  // The clockwork finds the first fires; nothing fires at the zero instant.
  ghost predicate FindsFires(next: Clockwork, fires: Fires) {
    forall sched, t :: FirstAfter(fires, sched, t, next(sched, t)) && !fires(sched, 0)
  }

  // What counts as missed: a fire strictly between the last run and now, or no fire
  // after the last run at all.
  ghost predicate Passed(fires: Fires, c: Config, now: int) {
    c.lastRun != 0 &&
    ((exists u :: c.lastRun < u < now && fires(c.sched, u)) || (now > 0 && forall u :: u > c.lastRun ==> !fires(c.sched, u)))
  }

  // The instant after which the new entry's first fire is sought.
  ghost function From(fires: Fires, c: Config, now: int): int {
    if c.lastRun == 0 || Passed(fires, c, now) then now else Max(c.lastRun, now - 1)
  }

  lemma MissedIsPassed(next: Clockwork, fires: Fires, c: Config, now: int)
    requires FindsFires(next, fires)
    ensures Missed(next, c, now) <==> Passed(fires, c, now)
    ensures FirstAfter(fires, c.sched, From(fires, c, now), FreshEntry(next, c, now, 0).nextRun)
  {
    var n := next(c.sched, c.lastRun);
    assert FirstAfter(fires, c.sched, c.lastRun, n) && FirstAfter(fires, c.sched, now, next(c.sched, now));
    if n != 0 && n < now { assert fires(c.sched, n); }
  }

  // The registration starts a run, or leaves one pending for Start.
  ghost predicate Runs(next: Clockwork, s: State, c: Config, now: int) {
    var s1 := Step(next, s, Register(c, now));
    (c.pool in s1.jobs && s1.jobs[c.pool].pending) || Task(c.pool, |s.owner|) in s1.tasks
  }

  // An accepted registration leaves the first fire not before now, and strictly after
  // now if the job has not run yet or missed a fire; it runs the job exactly if one was
  // missed and the policy says so.
  lemma RegistrationDue(next: Clockwork, fires: Fires, s: State, c: Config, now: int)
    requires FindsFires(next, fires) && Tracked(s) && !s.stopped && c.valid
    ensures var jobs := Step(next, s, Register(c, now)).jobs;
      c.pool in jobs && jobs[c.pool].sched == c.sched &&
      FirstAfter(fires, c.sched, From(fires, c, now), jobs[c.pool].nextRun) && From(fires, c, now) >= now - 1
    ensures Runs(next, s, c, now) <==> Passed(fires, c, now) && c.policy == RunImmediately
  {
    MissedIsPassed(next, fires, c, now);
    assert forall t :: t in s.tasks ==> t.serial < |s.owner|;
  }

  // Which fires it passes over: those the new entry neither waits for nor makes up for.
  lemma FirePassedOver(next: Clockwork, fires: Fires, s: State, c: Config, now: int, f: int)
    requires FindsFires(next, fires) && Tracked(s) && !s.stopped && c.valid && fires(c.sched, f)
    ensures var n := Step(next, s, Register(c, now)).jobs[c.pool].nextRun;
      !(n != 0 && n <= f) && !Runs(next, s, c, now) <==>
      if c.lastRun == 0 then f <= now else if Passed(fires, c, now) then c.policy == Skip && f <= now else f <= c.lastRun
  {
    RegistrationDue(next, fires, s, c, now);
  }

  // A concrete case: a job that has never run is due now; registering it again drops the
  // fire, although it was not missed.
  lemma NeverRunLosesFire(s: State, c: Config, now: int)
    requires Tracked(s) && !s.stopped && c.valid && c.lastRun == 0
    requires c.pool in s.jobs && s.jobs[c.pool].nextRun == now
    ensures var s1 := Step(EVERY_INSTANT, s, Register(c, now));
      s1.jobs[c.pool].nextRun == now + 1 && s1.tasks == s.tasks && !s1.jobs[c.pool].pending
  {
  }

  // The instant up to which the fires of the pool's entry have been dealt with: by its
  // registration, and by every firing of the loop that found it due.
  ghost function DealtWith(next: Clockwork, fires: Fires, as_: seq<Action>, pool: nat): int
    requires IsRun(next, INITIAL, as_)
  {
    if as_ == [] then 0
    else
      var before, a := as_[..|as_| - 1], as_[|as_| - 1];
      var s := After(next, INITIAL, before);
      if a.Register? && a.c.pool == pool && a.c.valid && !s.stopped then From(fires, a.c, a.now)
      else if a.Fire? && pool in s.jobs && 0 != s.jobs[pool].nextRun <= s.loop.now then s.loop.now
      else DealtWith(next, fires, before, pool)
  }

  lemma StepKeepsDue(next: Clockwork, fires: Fires, s: State, a: Action, pool: nat, t: int)
    requires FindsFires(next, fires) && Tracked(s) && Enabled(s, a) && pool in Step(next, s, a).jobs
    requires pool in s.jobs ==> FirstAfter(fires, s.jobs[pool].sched, t, s.jobs[pool].nextRun)
    ensures var e := Step(next, s, a).jobs[pool];
      FirstAfter(fires, e.sched,
                 if a.Register? && a.c.pool == pool && a.c.valid && !s.stopped then From(fires, a.c, a.now)
                 else if a.Fire? && pool in s.jobs && 0 != s.jobs[pool].nextRun <= s.loop.now then s.loop.now else t, e.nextRun)
  {
    if a.Register? && a.c.pool == pool && a.c.valid && !s.stopped { RegistrationDue(next, fires, s, a.c, a.now); }
    if a.Fire? { assert FirstAfter(fires, s.jobs[pool].sched, s.loop.now, next(s.jobs[pool].sched, s.loop.now)); }
  }

  // Over every run no fire is passed over: the entry's next run is the first fire after
  // what has been dealt with.
  lemma {:induction false} NoFirePassedOver(next: Clockwork, fires: Fires, as_: seq<Action>, pool: nat)
    requires FindsFires(next, fires) && IsRun(next, INITIAL, as_) && pool in After(next, INITIAL, as_).jobs
    ensures var e := After(next, INITIAL, as_).jobs[pool];
      FirstAfter(fires, e.sched, DealtWith(next, fires, as_, pool), e.nextRun)
  {
    if as_ != [] {
      var before := as_[..|as_| - 1];
      NoWakeupLost(next, before);
      if pool in After(next, INITIAL, before).jobs { NoFirePassedOver(next, fires, before, pool); }
      StepKeepsDue(next, fires, After(next, INITIAL, before), as_[|as_| - 1], pool, DealtWith(next, fires, before, pool));
    }
  }

  // ---- Overlap -------------------------------------------------------------

  predicate InFlight(s: State, pool: nat) {
    exists t :: t in s.tasks && t.pool == pool
  }

  ghost predicate AtMostOneTask(s: State, pool: nat) {
    forall t, u :: t in s.tasks && u in s.tasks && t.pool == pool && u.pool == pool ==> t == u
  }

  // The step starts a task of the pool.
  ghost predicate Launches(next: Clockwork, s: State, a: Action, pool: nat)
    requires Enabled(s, a)
  {
    match a
    case Register(c, now) =>
      c.pool == pool && c.valid && !s.stopped && s.started && Missed(next, c, now) && c.policy == RunImmediately
    case Start(_) => pool in s.jobs && s.jobs[pool].pending
    case Fire => pool in s.jobs && Due(s.jobs[pool], s.loop.now) && !s.jobs[pool].running
    case _ => false
  }

  // A step makes two tasks of a pool overlap exactly when it starts one while
  // another is in flight.
  lemma OverlapStep(next: Clockwork, s: State, a: Action, pool: nat)
    requires Tracked(s) && Enabled(s, a) && AtMostOneTask(s, pool)
    ensures !AtMostOneTask(Step(next, s, a), pool) <==> InFlight(s, pool) && Launches(next, s, a, pool)
  {
    var s1 := Step(next, s, a);
    if InFlight(s, pool) && Launches(next, s, a, pool) {
      var t :| t in s.tasks && t.pool == pool;
      var mine := Task(pool, if a.Register? then |s.owner| else s.jobs[pool].serial);
      assert t in s1.tasks && mine in s1.tasks && mine !in s.tasks;
    }
  }

  // An accepted registration of the pool while one of its tasks is in flight.
  predicate Reregisters(s: State, a: Action, pool: nat) {
    a.Register? && a.c.pool == pool && a.c.valid && !s.stopped && InFlight(s, pool)
  }

  ghost predicate NeverReregistered(next: Clockwork, s: State, as_: seq<Action>, pool: nat)
    requires IsRun(next, s, as_)
  {
    as_ != [] ==>
      && NeverReregistered(next, s, as_[..|as_| - 1], pool)
      && !Reregisters(After(next, s, as_[..|as_| - 1]), as_[|as_| - 1], pool)
  }

  // The pool's one task, if any, belongs to its current entry, whose flag then
  // keeps every later fire from starting another.
  ghost predicate Guarded(s: State, pool: nat) {
    && AtMostOneTask(s, pool)
    && (pool in s.jobs ==> forall t :: t in s.tasks && t.pool == pool ==> t.serial == s.jobs[pool].serial)
  }

  lemma StepKeepsGuarded(next: Clockwork, s: State, a: Action, pool: nat)
    requires Tracked(s) && Enabled(s, a) && Guarded(s, pool) && !Reregisters(s, a, pool)
    ensures Guarded(Step(next, s, a), pool)
  {
    OverlapStep(next, s, a, pool);
  }

  // Over every run: as long as no registration of the pool is accepted while one
  // of its tasks is in flight, its tasks never overlap.
  lemma {:induction false} OneTaskUnlessReregistered(next: Clockwork, as_: seq<Action>, pool: nat)
    requires IsRun(next, INITIAL, as_) && NeverReregistered(next, INITIAL, as_, pool)
    ensures Guarded(After(next, INITIAL, as_), pool)
  {
    if as_ != [] {
      var before := as_[..|as_| - 1];
      OneTaskUnlessReregistered(next, before, pool);
      NoWakeupLost(next, before);
      StepKeepsGuarded(next, After(next, INITIAL, before), as_[|as_| - 1], pool);
    }
  }

  // A concrete overlap without any missed fire: pool 1 fires every instant and is
  // registered again while its first task runs; the next fire starts a second.
  const EVERY_INSTANT: Clockwork := (sched, t) => t + 1

  const SKIPPING := Config(1, 0, 0, Skip, true)

  predicate OnlySkipping(as_: seq<Action>) {
    forall i :: 0 <= i < |as_| && as_[i].Register? ==> as_[i].c == SKIPPING
  }

  lemma RunSnoc(next: Clockwork, s: State, as_: seq<Action>, a: Action)
    requires IsRun(next, s, as_) && Enabled(After(next, s, as_), a)
    ensures IsRun(next, s, as_ + [a]) && After(next, s, as_ + [a]) == Step(next, After(next, s, as_), a)
  {
    assert (as_ + [a])[..|as_|] == as_;
  }

  // The loop is about to read, and pool 1 is next due at t.
  predicate DueAt(s: State, t: int, serial: nat) {
    s.loop.Reading? && !s.stopped && s.started && t != 0 && |s.owner| == serial + 1 &&
    s.jobs.Keys == {1} && s.jobs[1].nextRun == t && !s.jobs[1].running && s.jobs[1].serial == serial
  }

  // One round of the loop then starts a task of the entry.
  lemma Round(as_: seq<Action>, t: int, serial: nat) returns (longer: seq<Action>)
    requires IsRun(EVERY_INSTANT, INITIAL, as_) && DueAt(After(EVERY_INSTANT, INITIAL, as_), t, serial) && OnlySkipping(as_)
    ensures IsRun(EVERY_INSTANT, INITIAL, longer) && OnlySkipping(longer)
    ensures var s, s1 := After(EVERY_INSTANT, INITIAL, as_), After(EVERY_INSTANT, INITIAL, longer);
      s1.loop.Reading? && !s1.stopped && s1.started && s1.owner == s.owner && s1.jobs.Keys == {1} &&
      s1.tasks == s.tasks + {Task(1, serial)}
  {
    var s := After(EVERY_INSTANT, INITIAL, as_);
    assert HasDeadline(s.jobs, t) by { assert 1 in s.jobs; }
    RunSnoc(EVERY_INSTANT, INITIAL, as_, Read(Some(t)));
    var reading := as_ + [Read(Some(t))];
    RunSnoc(EVERY_INSTANT, INITIAL, reading, Alarm(t));
    var firing := reading + [Alarm(t)];
    RunSnoc(EVERY_INSTANT, INITIAL, firing, Fire);
    longer := firing + [Fire];
    assert DuePools(s.jobs, t) == {1};
    assert TasksFor(s.jobs, {1}) == {Task(1, serial)};
  }

  lemma FirstRegistration()
    ensures var s := Step(EVERY_INSTANT, INITIAL, Register(SKIPPING, 1));
      s.jobs.Keys == {1} && s.jobs[1] == Entry(0, 2, 0, false, false, 0) && s.tasks == {} && |s.owner| == 1 &&
      !s.started && !s.stopped
  {
  }

  lemma CleanStart(s: State)
    requires s.jobs.Keys == {1} && s.jobs[1] == Entry(0, 2, 0, false, false, 0) && s.tasks == {} && |s.owner| == 1
    requires !s.started && !s.stopped
    ensures DueAt(Step(EVERY_INSTANT, s, Start(1)), 2, 0) && Step(EVERY_INSTANT, s, Start(1)).tasks == {}
  {
    assert PendingPools(s.jobs) == {};
  }

  lemma RegisteredAndStarted() returns (as_: seq<Action>)
    ensures IsRun(EVERY_INSTANT, INITIAL, as_) && DueAt(After(EVERY_INSTANT, INITIAL, as_), 2, 0) && OnlySkipping(as_)
    ensures After(EVERY_INSTANT, INITIAL, as_).tasks == {}
  {
    RunSnoc(EVERY_INSTANT, INITIAL, [], Register(SKIPPING, 1));
    FirstRegistration();
    as_ := [] + [Register(SKIPPING, 1)];
    CleanStart(After(EVERY_INSTANT, INITIAL, as_));
    RunSnoc(EVERY_INSTANT, INITIAL, as_, Start(1));
    as_ := as_ + [Start(1)];
  }

  lemma RegisteredAgain(as_: seq<Action>, t: int) returns (longer: seq<Action>)
    requires IsRun(EVERY_INSTANT, INITIAL, as_) && OnlySkipping(as_) && t > 0
    requires var s := After(EVERY_INSTANT, INITIAL, as_);
      s.loop.Reading? && !s.stopped && s.started && |s.owner| == 1 && s.jobs.Keys == {1}
    ensures IsRun(EVERY_INSTANT, INITIAL, longer) && OnlySkipping(longer)
    ensures DueAt(After(EVERY_INSTANT, INITIAL, longer), t + 1, 1)
    ensures After(EVERY_INSTANT, INITIAL, longer).tasks == After(EVERY_INSTANT, INITIAL, as_).tasks
  {
    RunSnoc(EVERY_INSTANT, INITIAL, as_, Register(SKIPPING, t));
    longer := as_ + [Register(SKIPPING, t)];
  }

  // All registrations skip missed fires, and none had missed one.
  lemma SkippingOverlaps() returns (as_: seq<Action>)
    ensures IsRun(EVERY_INSTANT, INITIAL, as_) && OnlySkipping(as_)
    ensures !AtMostOneTask(After(EVERY_INSTANT, INITIAL, as_), 1)
  {
    as_ := RegisteredAndStarted();
    as_ := Round(as_, 2, 0);
    as_ := RegisteredAgain(as_, 2);
    as_ := Round(as_, 3, 1);
    assert {Task(1, 0), Task(1, 1)} <= After(EVERY_INSTANT, INITIAL, as_).tasks;
  }

  // ---- The scheduler object ------------------------------------------------

  function Registrations(configs: seq<Config>, nows: seq<int>): seq<Action>
    requires |configs| == |nows|
  {
    seq(|configs|, i requires 0 <= i < |configs| => Register(configs[i], nows[i]))
  }

  // Registration is always possible, so a list of registrations always runs.
  lemma {:induction false} RegistrationsRun(next: Clockwork, s: State, configs: seq<Config>, nows: seq<int>)
    requires |configs| == |nows|
    ensures IsRun(next, s, Registrations(configs, nows))
  {
    if configs != [] {
      var n := |configs| - 1;
      RegistrationsRun(next, s, configs[..n], nows[..n]);
      assert Registrations(configs, nows)[..n] == Registrations(configs[..n], nows[..n]);
    }
  }

  ghost function RegisteredAll(next: Clockwork, s: State, configs: seq<Config>, nows: seq<int>): State
    requires |configs| == |nows|
  {
    RegistrationsRun(next, s, configs, nows);
    After(next, s, Registrations(configs, nows))
  }

  lemma RegisteredSnoc(next: Clockwork, s: State, configs: seq<Config>, nows: seq<int>, c: Config, now: int)
    requires |configs| == |nows|
    ensures RegisteredAll(next, s, configs + [c], nows + [now]) ==
            Step(next, RegisteredAll(next, s, configs, nows), Register(c, now))
  {
    var longer := Registrations(configs + [c], nows + [now]);
    RegistrationsRun(next, s, configs + [c], nows + [now]);
    assert longer[..|longer| - 1] == Registrations(configs, nows);
  }

  lemma TasksLess(jobs: map<nat, Entry>, launched: set<nat>, todo: set<nat>, p: int)
    requires launched <= jobs.Keys && p in todo
    ensures TasksFor(jobs, launched - (todo - {p})) ==
      TasksFor(jobs, launched - todo) + if p in launched then {Task(p, jobs[p].serial)} else {}
  {
    if p in launched {
      assert launched - (todo - {p}) == (launched - todo) + {p};
    } else {
      assert launched - (todo - {p}) == launched - todo;
    }
  }

  class Scheduler {
    const next: Clockwork
    var jobs: map<nat, Entry>
    var wakeup: bool
    var running: bool
    var stopped: bool
    // Task goroutines in flight, and the pool of every entry ever registered.
    var tasks: set<Task>
    var owner: seq<nat>
    ghost var loop: Loop

    ghost function S(): State reads this {
      State(jobs, wakeup, running, stopped, loop, tasks, owner)
    }

    constructor (next: Clockwork)
      ensures this.next == next && S() == INITIAL
    {
      this.next := next;
      jobs, wakeup, running, stopped := map[], false, false, false;
      tasks, owner, loop := {}, [], Idle;
    }

    method SignalWakeupLocked()
      modifies this`wakeup
      ensures wakeup
    {
      if !wakeup { wakeup := true; }
    }

    // An entry whose task is already running is left alone.
    method DispatchJobLocked(pool: nat, now: int)
      requires pool in jobs
      modifies this`jobs, this`tasks
      ensures jobs == old(if jobs[pool].running then jobs
                          else jobs[pool := jobs[pool].(running := true, lastRun := now)])
      ensures tasks == old(if jobs[pool].running then tasks else tasks + {Task(pool, jobs[pool].serial)})
    {
      if jobs[pool].running { return; }
      jobs := jobs[pool := jobs[pool].(running := true, lastRun := now)];
      tasks := tasks + {Task(pool, jobs[pool].serial)};
    }

    method RegisterJob(c: Config, now: int) returns (ok: bool)
      modifies this`jobs, this`wakeup, this`tasks, this`owner
      ensures ok <==> c.valid && !stopped
      ensures S() == Step(next, old(S()), Register(c, now))
    {
      if !c.valid { return false; }
      if stopped { return false; }
      var pending, nextRun := false, 0;
      if c.lastRun != 0 {
        var expected := next(c.sched, c.lastRun);
        if expected < now {
          pending := c.policy == RunImmediately;
          nextRun := next(c.sched, now);
        } else {
          nextRun := expected;
        }
      } else {
        nextRun := next(c.sched, now);
      }
      jobs := jobs[c.pool := Entry(c.sched, nextRun, c.lastRun, false, pending, |owner|)];
      owner := owner + [c.pool];
      if running && pending {
        jobs := jobs[c.pool := jobs[c.pool].(pending := false)];
        DispatchJobLocked(c.pool, now);
      }
      SignalWakeupLocked();
      return true;
    }

    method UnregisterJob(pool: nat) returns (found: bool)
      modifies this`jobs, this`wakeup
      ensures found <==> pool in old(jobs)
      ensures S() == Step(next, old(S()), Unregister(pool))
    {
      if pool !in jobs { return false; }
      jobs := jobs - {pool};
      SignalWakeupLocked();
      return true;
    }

    // nows are the clock readings of the registrations.  The first refused
    // configuration ends the synchronization and leaves the absent jobs in place.
    method SyncJobs(configs: seq<Config>, nows: seq<int>) returns (ok: bool)
      requires |configs| == |nows|
      modifies this`jobs, this`wakeup, this`tasks, this`owner
      ensures ok <==> (configs == [] || !stopped) && forall i :: 0 <= i < |configs| ==> configs[i].valid
      ensures ok ==> wakeup && jobs.Keys == set c | c in configs :: c.pool
      ensures ok ==> S() == Step(next, RegisteredAll(next, old(S()), configs, nows), Retain(jobs.Keys))
      ensures !ok ==> exists k | 0 <= k < |configs| ::
        (stopped || !configs[k].valid) && S() == RegisteredAll(next, old(S()), configs[..k], nows[..k])
    {
      var desired: set<nat> := {};
      for i := 0 to |configs|
        invariant stopped == old(stopped) && running == old(running) && loop == old(loop)
        invariant forall j :: 0 <= j < i ==> configs[j].valid && !stopped
        invariant S() == RegisteredAll(next, old(S()), configs[..i], nows[..i])
        invariant desired == set c | c in configs[..i] :: c.pool
        invariant desired <= jobs.Keys
      {
        desired := desired + {configs[i].pool};
        assert configs[..i + 1] == configs[..i] + [configs[i]];
        RegisteredSnoc(next, old(S()), configs[..i], nows[..i], configs[i], nows[i]);
        assert nows[..i + 1] == nows[..i] + [nows[i]];
        var registered := RegisterJob(configs[i], nows[i]);
        if !registered { return false; }
      }
      assert configs[..|configs|] == configs && nows[..|configs|] == nows;
      jobs := map p | p in jobs && p in desired :: jobs[p];
      SignalWakeupLocked();
      return true;
    }

    // The goroutine of the loop is about to take its first reading.  The
    // precondition is a part of Tracked.
    method Start(now: int) returns (ok: bool)
      requires forall p :: p in jobs && jobs[p].pending ==> !jobs[p].running
      modifies this`jobs, this`running, this`tasks, this`loop
      ensures ok <==> old(!running && !stopped)
      ensures ok ==> S() == Step(next, old(S()), Action.Start(now))
      ensures !ok ==> S() == old(S())
    {
      if running || stopped { return false; }
      running, loop := true, Reading;
      var todo := jobs.Keys;
      ghost var was := old(jobs);
      while todo != {}
        invariant todo <= was.Keys == jobs.Keys && running && loop == Reading
        invariant forall p :: p in todo ==> jobs[p] == was[p]
        invariant forall p :: p in was && p !in todo ==> jobs[p] == StartedJobs(was, now)[p]
        invariant tasks == old(tasks) + TasksFor(was, PendingPools(was) - todo)
      {
        var p := Pick(todo);
        TasksLess(was, PendingPools(was), todo, p);
        todo := todo - {p};
        if jobs[p].pending {
          jobs := jobs[p := jobs[p].(pending := false)];
          DispatchJobLocked(p, now);
        }
      }
      assert PendingPools(was) - todo == PendingPools(was);
      assert jobs.Keys == StartedJobs(was, now).Keys;
      SameMap(jobs, StartedJobs(was, now));
      return true;
    }

    method Stop()
      modifies this`running, this`stopped
      ensures S() == if old(running && !stopped) then Step(next, old(S()), Action.Stop) else old(S())
    {
      if !running || stopped { return; }
      stopped, running := true, false;
    }

    // The deadline the loop arms next.
    method EarliestNextRunLocked() returns (d: Option<int>)
      ensures IsEarliest(jobs, d)
    {
      var todo, earliest := jobs.Keys, 0;
      while todo != {}
        invariant todo <= jobs.Keys
        invariant earliest == 0 ==> forall p :: p in jobs && p !in todo ==> jobs[p].nextRun == 0
        invariant earliest != 0 ==> HasDeadline(jobs, earliest)
        invariant earliest != 0 ==>
          forall p :: p in jobs && p !in todo && jobs[p].nextRun != 0 ==> earliest <= jobs[p].nextRun
      {
        var p := Pick(todo);
        todo := todo - {p};
        if jobs[p].nextRun != 0 && (earliest == 0 || jobs[p].nextRun < earliest) {
          earliest := jobs[p].nextRun;
        }
      }
      return if earliest == 0 then None else Some(earliest);
    }

    // The loop's treatment of one entry: a due one starts unless it is running, and
    // moves on in any case.
    method FirePool(p: nat, now: int)
      requires p in jobs
      modifies this`jobs, this`tasks
      ensures jobs == old(jobs)[p := Fired(next, old(jobs)[p], now)]
      ensures tasks == old(tasks) +
        if Due(old(jobs)[p], now) && !old(jobs)[p].running then {Task(p, old(jobs)[p].serial)} else {}
    {
      var e := jobs[p];
      if e.nextRun != 0 && e.nextRun <= now {
        if !e.running {
          jobs := jobs[p := e.(lastRun := now, nextRun := next(e.sched, now), running := true)];
          tasks := tasks + {Task(p, e.serial)};
        } else {
          jobs := jobs[p := e.(nextRun := next(e.sched, now))];
        }
      } else {
        assert jobs[p := e] == jobs;
      }
    }

    // now was read before the lock was taken.
    method FireDueJobs(now: int)
      requires loop == Firing(now)
      modifies this`jobs, this`tasks, this`loop
      ensures S() == Step(next, old(S()), Fire)
    {
      var todo := jobs.Keys;
      ghost var was := jobs;
      while todo != {}
        invariant todo <= was.Keys == jobs.Keys && loop == old(loop)
        invariant forall p :: p in todo ==> jobs[p] == was[p]
        invariant forall p :: p in was && p !in todo ==> jobs[p] == Fired(next, was[p], now)
        invariant tasks == old(tasks) + TasksFor(was, DuePools(was, now) - todo)
      {
        var p := Pick(todo);
        TasksLess(was, DuePools(was, now), todo, p);
        todo := todo - {p};
        FirePool(p, now);
      }
      assert DuePools(was, now) - todo == DuePools(was, now);
      assert jobs.Keys == FiredJobs(next, was, now).Keys;
      SameMap(jobs, FiredJobs(next, was, now));
      loop := Reading;
    }
  }
}
