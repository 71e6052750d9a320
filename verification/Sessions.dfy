// The two-clock login sessions of internal/server/auth.go: a sliding idle
// deadline, renewed only past half of its window, under a fixed absolute cap.
module Sessions {
  import opened Basics

  datatype Config = Config(idle: int, absolute: int)

  // What configuration validation enforces at boot.
  predicate ValidConfig(c: Config) {
    0 < c.idle <= c.absolute
  }

  datatype Session = Session(user: int, expiresAt: int, absoluteExpiresAt: int)

  // Sessions by token hash.
  type Table = map<string, Session>

  function Fresh(c: Config, user: int, now: int): Session {
    Session(user, now + c.idle, now + c.absolute)
  }

  // Neither clock has run out (time.After is strict).
  predicate Live(s: Session, now: int) {
    now <= s.absoluteExpiresAt && now <= s.expiresAt
  }

  // The sliding renewal, clamped at the cap.
  function Renewed(c: Config, s: Session, now: int): Session {
    if now > s.expiresAt - c.idle / 2 then s.(expiresAt := Min(now + c.idle, s.absoluteExpiresAt)) else s
  }

  // ---- One session as a value ----------------------------------------------

  // A request presents the token; the user lookup, the touch of a renewed row and
  // the delete of an expired one may fail.
  // Purge is the hourly maintenance.
  datatype Event =
    | Request(at: int, userKnown: bool, touchOk: bool, deleteOk: bool)
    | Purge(at: int)

  predicate Accepts(row: Option<Session>, ev: Event) {
    ev.Request? && row.Some? && Live(row.value, ev.at) && ev.userKnown
  }

  function Step(c: Config, row: Option<Session>, ev: Event): Option<Session> {
    if row.None? then None
    else match ev
      case Request(at, userKnown, touchOk, deleteOk) =>
        if !Live(row.value, at) then (if deleteOk then None else row)
        else if userKnown && touchOk then Some(Renewed(c, row.value, at))
        else row
      case Purge(at) => if row.value.expiresAt < at || row.value.absoluteExpiresAt < at then None else row
  }

  function Run(c: Config, row: Option<Session>, evs: seq<Event>): Option<Session> {
    if evs == [] then row else Step(c, Run(c, row, evs[..|evs| - 1]), evs[|evs| - 1])
  }

  // The answer to the last event of a run.
  predicate AnsweredYes(c: Config, row: Option<Session>, evs: seq<Event>)
    requires evs != []
  {
    Accepts(Run(c, row, evs[..|evs| - 1]), evs[|evs| - 1])
  }

  lemma StepClocks(c: Config, s: Session, ev: Event)
    requires ValidConfig(c) && s.expiresAt <= s.absoluteExpiresAt
    ensures var r := Step(c, Some(s), ev);
      r.Some? ==> r.value.absoluteExpiresAt == s.absoluteExpiresAt && r.value.user == s.user &&
                  s.expiresAt <= r.value.expiresAt <= r.value.absoluteExpiresAt
  {
  }

  // Over every run, whatever the clock does: the cap never moves, the idle
  // deadline never goes back and never passes the cap.
  lemma {:induction false} RunClocks(c: Config, s: Session, evs: seq<Event>, k: nat)
    requires ValidConfig(c) && s.expiresAt <= s.absoluteExpiresAt && k <= |evs|
    ensures var late := Run(c, Some(s), evs);
      late.Some? ==>
        Run(c, Some(s), evs[..k]).Some? && var early := Run(c, Some(s), evs[..k]).value;
        late.value.absoluteExpiresAt == s.absoluteExpiresAt &&
        s.expiresAt <= early.expiresAt <= late.value.expiresAt <= s.absoluteExpiresAt
  {
    if k == |evs| {
      assert evs[..k] == evs;
      if evs != [] && Run(c, Some(s), evs).Some? {
        var before := evs[..|evs| - 1];
        RunClocks(c, s, before, |before|);
        assert before[..|before|] == before;
        StepClocks(c, Run(c, Some(s), before).value, evs[|evs| - 1]);
      }
    } else {
      var before := evs[..|evs| - 1];
      RunClocks(c, s, before, k);
      assert before[..k] == evs[..k];
      if Run(c, Some(s), evs).Some? {
        StepClocks(c, Run(c, Some(s), before).value, evs[|evs| - 1]);
      }
    }
  }

  // A request past either clock is refused, and so is every later one if the row
  // was deleted or the clock reading does not go back behind the refusal.
  lemma {:induction false} ExpiryIsFinal(c: Config, s: Session, ev: Event, after: seq<Event>)
    requires ev.Request? && !Live(s, ev.at)
    requires ev.deleteOk || forall k :: 0 <= k < |after| ==> ev.at <= after[k].at
    ensures !AnsweredYes(c, Some(s), [ev] + after)
  {
    if after == [] {
      assert [ev] + after == [ev];
    } else {
      var before := after[..|after| - 1];
      ExpiredRow(c, s, ev, before);
      assert ([ev] + after)[..|after|] == [ev] + before;
    }
  }

  // The row is gone or as it was.
  lemma {:induction false} ExpiredRow(c: Config, s: Session, ev: Event, after: seq<Event>)
    requires ev.Request? && !Live(s, ev.at)
    requires ev.deleteOk || forall k :: 0 <= k < |after| ==> ev.at <= after[k].at
    ensures Run(c, Some(s), [ev] + after) == None || (!ev.deleteOk && Run(c, Some(s), [ev] + after) == Some(s))
  {
    if after == [] {
      assert [ev] + after == [ev];
      assert [ev][..0] == [];
    } else {
      ExpiredRow(c, s, ev, after[..|after| - 1]);
      assert ([ev] + after)[..|after|] == [ev] + after[..|after| - 1];
    }
  }

  // Otherwise it comes back: the request after the refusal is accepted exactly
  // when the delete failed and the clock reading fell back into the session.
  lemma RefusalRevoked(c: Config, s: Session, ev: Event, next: Event)
    requires ev.Request? && !Live(s, ev.at)
    ensures AnsweredYes(c, Some(s), [ev, next]) <==> !ev.deleteOk && next.Request? && Live(s, next.at) && next.userKnown
  {
    ExpiredRow(c, s, ev, []);
    assert [ev, next][..1] == [ev] == [ev] + [];
    assert [ev][..0] == [];
  }

  // A concrete case: ten units of idling, refused at 11 and accepted at 10.
  lemma RefusedThenAccepted()
    ensures var late, back := Request(11, true, true, false), Request(10, true, true, true);
      var s := Fresh(Config(10, 20), 1, 0);
      !AnsweredYes(Config(10, 20), Some(s), [late]) && AnsweredYes(Config(10, 20), Some(s), [late, back])
  {
    var late, back := Request(11, true, true, false), Request(10, true, true, true);
    RefusalRevoked(Config(10, 20), Fresh(Config(10, 20), 1, 0), late, back);
  }

  // ---- Survival ------------------------------------------------------------

  // Requests by a known user with working touches, the first within half the
  // idle window of start and each next within half of the previous one.
  predicate Steady(c: Config, start: int, evs: seq<Event>) {
    evs != [] ==>
      var before, ev := evs[..|evs| - 1], evs[|evs| - 1];
      Steady(c, start, before) && ev.Request? && ev.userKnown && ev.touchOk &&
      LastAt(start, before) <= ev.at <= LastAt(start, before) + c.idle / 2
  }

  function LastAt(start: int, evs: seq<Event>): int {
    if evs == [] then start else evs[|evs| - 1].at
  }

  // After an accepted request the idle deadline covers the next half window or
  // already stands at the cap.
  predicate Covers(c: Config, s: Session, at: int) {
    Min(at + c.idle / 2, s.absoluteExpiresAt) <= s.expiresAt <= s.absoluteExpiresAt
  }

  lemma {:induction false} SteadyRun(c: Config, user: int, start: int, evs: seq<Event>)
    requires ValidConfig(c) && Steady(c, start, evs)
    ensures var row := Run(c, Some(Fresh(c, user, start)), evs);
      start <= LastAt(start, evs) &&
      (LastAt(start, evs) <= start + c.absolute ==> row.Some? && Covers(c, row.value, LastAt(start, evs))) &&
      (row.Some? ==> row.value.absoluteExpiresAt == start + c.absolute)
  {
    if evs != [] {
      var before, ev := evs[..|evs| - 1], evs[|evs| - 1];
      SteadyRun(c, user, start, before);
    }
  }

  // A session used with gaps of at most half the idle window is accepted by
  // every request up to the absolute cap, and by none after it.
  lemma SteadyUseSurvivesToCap(c: Config, user: int, start: int, evs: seq<Event>)
    requires ValidConfig(c) && evs != [] && Steady(c, start, evs)
    ensures AnsweredYes(c, Some(Fresh(c, user, start)), evs) <==> evs[|evs| - 1].at <= start + c.absolute
  {
    SteadyRun(c, user, start, evs[..|evs| - 1]);
  }

  // The idle deadline lies at most one idle window behind the latest event.
  lemma {:induction false} IdleBound(c: Config, user: int, start: int, evs: seq<Event>, latest: int)
    requires ValidConfig(c) && start <= latest && forall k :: 0 <= k < |evs| ==> evs[k].at <= latest
    ensures var row := Run(c, Some(Fresh(c, user, start)), evs);
      row.Some? ==> row.value.expiresAt <= latest + c.idle && row.value.absoluteExpiresAt == start + c.absolute
  {
    if evs != [] { IdleBound(c, user, start, evs[..|evs| - 1], latest); }
  }

  // However it was used before, a session left unused for longer than the idle window is
  // refused, and so is any session past its cap.
  lemma UnusedIsRefused(c: Config, user: int, start: int, evs: seq<Event>, latest: int, ev: Event)
    requires ValidConfig(c) && start <= latest && forall k :: 0 <= k < |evs| ==> evs[k].at <= latest
    requires ev.at > latest + c.idle || ev.at > start + c.absolute
    ensures !AnsweredYes(c, Some(Fresh(c, user, start)), evs + [ev])
  {
    IdleBound(c, user, start, evs, latest);
    assert (evs + [ev])[..|evs|] == evs;
  }

  // ---- Maintenance is invisible --------------------------------------------

  function WithoutPurges(evs: seq<Event>): seq<Event> {
    if evs == [] then []
    else WithoutPurges(evs[..|evs| - 1]) + if evs[|evs| - 1].Purge? then [] else [evs[|evs| - 1]]
  }

  predicate NonDecreasing(evs: seq<Event>) {
    forall i, j :: 0 <= i < j < |evs| ==> evs[i].at <= evs[j].at
  }

  // From the instant on, both rows answer alike: they are the same, or only the
  // second still exists and has expired.
  predicate SameAnswers(a: Option<Session>, b: Option<Session>, at: int) {
    && (a == b || (a.None? && b.Some? && b.value.expiresAt < at))
    && (b.Some? ==> b.value.expiresAt <= b.value.absoluteExpiresAt)
  }

  lemma PurgeStep(c: Config, a: Option<Session>, b: Option<Session>, ev: Event)
    requires ValidConfig(c) && SameAnswers(a, b, ev.at)
    ensures SameAnswers(Step(c, a, ev), if ev.Purge? then b else Step(c, b, ev), ev.at)
  {
  }

  lemma {:induction false} PurgeRun(c: Config, s: Session, evs: seq<Event>, at: int)
    requires ValidConfig(c) && s.expiresAt <= s.absoluteExpiresAt && NonDecreasing(evs)
    requires evs != [] ==> evs[|evs| - 1].at <= at
    ensures SameAnswers(Run(c, Some(s), evs), Run(c, Some(s), WithoutPurges(evs)), at)
  {
    if evs != [] {
      var before, ev := evs[..|evs| - 1], evs[|evs| - 1];
      if before != [] { assert before[|before| - 1].at <= ev.at; }
      PurgeRun(c, s, before, ev.at);
      var kept := WithoutPurges(before);
      PurgeStep(c, Run(c, Some(s), before), Run(c, Some(s), kept), ev);
      if ev.Request? { assert (kept + [ev])[..|kept|] == kept; } else { assert kept + [] == kept; }
    }
  }

  // Under a non-decreasing clock the hourly purge changes no answer.
  lemma PurgeChangesNoAnswer(c: Config, s: Session, evs: seq<Event>, ev: Event)
    requires ValidConfig(c) && s.expiresAt <= s.absoluteExpiresAt && NonDecreasing(evs + [ev]) && ev.Request?
    ensures Accepts(Run(c, Some(s), evs), ev) <==> Accepts(Run(c, Some(s), WithoutPurges(evs)), ev)
  {
    assert forall i :: 0 <= i < |evs| ==> (evs + [ev])[i] == evs[i];
    assert (evs + [ev])[|evs|] == ev;
    PurgeRun(c, s, evs, ev.at);
  }

  // ---- The session store ---------------------------------------------------

  function RowOf(t: Table, token: string): Option<Session> {
    if token in t then Some(t[token]) else None
  }

  function SetRow(t: Table, token: string, row: Option<Session>): Table {
    if row.Some? then t[token := row.value] else t - {token}
  }

  class SessionStore {
    const config: Config
    var sessions: Table

    constructor (config: Config)
      requires ValidConfig(config)
      ensures this.config == config && sessions == map[]
    {
      this.config := config;
      sessions := map[];
    }

    // The token hash is unique by construction (32 random bytes).
    method IssueSession(token: string, user: int, now: int)
      requires token !in sessions
      modifies this
      ensures sessions == old(sessions)[token := Fresh(config, user, now)]
    {
      sessions := sessions[token := Session(user, now + config.idle, now + config.absolute)];
    }

    method ValidateSession(token: string, now: int, userKnown: bool, touchOk: bool, deleteOk: bool)
      returns (accepted: bool, renewed: bool)
      modifies this
      ensures accepted == Accepts(RowOf(old(sessions), token), Request(now, userKnown, touchOk, deleteOk))
      ensures sessions == SetRow(old(sessions), token, Step(config, RowOf(old(sessions), token), Request(now, userKnown, touchOk, deleteOk)))
      ensures accepted <==>
        token in old(sessions) && userKnown && now <= old(sessions)[token].expiresAt && now <= old(sessions)[token].absoluteExpiresAt
      // Only past half of the idle window is the row written.
      ensures renewed <==> accepted && touchOk && now > old(sessions)[token].expiresAt - config.idle / 2
      ensures renewed ==> var s := old(sessions)[token];
        sessions == old(sessions)[token := s.(expiresAt := Min(now + config.idle, s.absoluteExpiresAt))]
      ensures accepted && !renewed ==> sessions == old(sessions)
    {
      renewed := false;
      if token !in sessions { return false, false; }
      var sess := sessions[token];
      assert SetRow(sessions, token, Some(sess)) == sessions;
      if now > sess.absoluteExpiresAt {
        if deleteOk { sessions := sessions - {token}; }
        return false, false;
      }
      if now > sess.expiresAt {
        if deleteOk { sessions := sessions - {token}; }
        return false, false;
      }
      if !userKnown { return false, false; }
      var half := config.idle / 2;
      if now > sess.expiresAt - half {
        var newIdle := now + config.idle;
        if newIdle > sess.absoluteExpiresAt { newIdle := sess.absoluteExpiresAt; }
        if touchOk {
          sessions := sessions[token := sess.(expiresAt := newIdle)];
          renewed := true;
        }
      }
      accepted := true;
    }

    method PurgeExpired(now: int)
      modifies this
      ensures forall token :: RowOf(sessions, token) == Step(config, RowOf(old(sessions), token), Purge(now))
      ensures forall token :: token in sessions <==>
        token in old(sessions) && now <= old(sessions)[token].expiresAt && now <= old(sessions)[token].absoluteExpiresAt
    {
      sessions := map token | token in sessions &&
        !(sessions[token].expiresAt < now || sessions[token].absoluteExpiresAt < now) :: sessions[token];
    }
  }
}
