// The login brute-force guard of internal/server/ratelimit.go: a sliding window
// of failures per key, an exponential backoff computed with a wrapping 64-bit
// shift, and a durable write-through copy that a restart reloads.
module LoginLimiter {
  import opened Basics

  const MINUTE: int := 60_000_000_000
  const RATE_WINDOW: int := 15 * MINUTE
  const FAILURE_LIMIT: nat := 5
  const BACKOFF_BASE: int := MINUTE
  const BACKOFF_CAP: int := 15 * MINUTE

  // ---- The backoff ---------------------------------------------------------

  const TWO_63: int := 0x8000_0000_0000_0000
  const TWO_64: int := 0x1_0000_0000_0000_0000

  function Pow2(k: nat): (p: nat)
    ensures p >= 1
  {
    if k == 0 then 1 else 2 * Pow2(k - 1)
  }

  // A Go int64: the integer reduced modulo 2^64 into [-2^63, 2^63).
  function Wrap64(x: int): int {
    (x + TWO_63) % TWO_64 - TWO_63
  }

  // x << k on int64: shifts of 64 and more give 0.
  function Shl64(x: int, k: nat): int {
    if k >= 64 then 0 else Wrap64(x * Pow2(k))
  }

  // The code's backoff for n failures: the shifted base with its two guards.
  function Backoff(n: nat): int
    requires n >= FAILURE_LIMIT
  {
    var b := Shl64(BACKOFF_BASE, n - FAILURE_LIMIT);
    if b > BACKOFF_CAP || b <= 0 then BACKOFF_CAP else b
  }

  // The intended backoff: min(15 min, 2^(n-5) min).
  function Wait(n: nat): int
    requires n >= FAILURE_LIMIT
  {
    Min(BACKOFF_CAP, Pow2(n - FAILURE_LIMIT) * MINUTE)
  }

  lemma MulAssoc(x: int, y: int, z: int)
    ensures x * (y * z) == (x * y) * z
  {
  }

  lemma {:induction false} Pow2Add(a: nat, b: nat)
    ensures Pow2(a + b) == Pow2(a) * Pow2(b)
  {
    if a > 0 {
      Pow2Add(a - 1, b);
      MulAssoc(2, Pow2(a - 1), Pow2(b));
    }
  }

  lemma {:induction false} Pow2Mono(a: nat, b: nat)
    requires a <= b
    ensures Pow2(a) <= Pow2(b)
  {
    Pow2Add(a, b - a);
    assert Pow2(a) * 1 <= Pow2(a) * Pow2(b - a);
  }

  // A wrapped multiple of 2^40 is a multiple of 2^40.
  lemma WrapMultiple(m: int)
    ensures exists q :: Wrap64(0x100_0000_0000 * m) == 0x100_0000_0000 * q
  {
    var x := 0x100_0000_0000 * m + TWO_63;
    var d := x / TWO_64;
    assert x == TWO_64 * d + x % TWO_64;
    var q := m - 0x100_0000 * d;
    assert Wrap64(0x100_0000_0000 * m) == 0x100_0000_0000 * q;
  }

  // For every failure count the wrapping shift and its guards compute it.
  lemma BackoffIsExact(n: nat)
    requires n >= FAILURE_LIMIT
    ensures Backoff(n) == Wait(n)
  {
    var k := n - FAILURE_LIMIT;
    if k < 4 {
      assert Pow2(0) == 1 && Pow2(1) == 2 && Pow2(2) == 4 && Pow2(3) == 8;
    } else {
      Pow2Mono(4, k);
      assert Pow2(4) == 16;
      BackoffCapped(k);
    }
  }

  // From 16 minutes on the shift overshoots the cap, turns negative, or wraps
  // to a multiple of 2^40 ns, which is more than 15 minutes.
  lemma BackoffCapped(k: nat)
    requires k >= 4
    ensures var b := Shl64(BACKOFF_BASE, k); b > BACKOFF_CAP || b <= 0
  {
    if k <= 28 {
      SmallPowers();
      Pow2Mono(4, k);
      if k <= 27 { Pow2Mono(k, 27); }
    } else if k < 64 {
      SmallPowers();
      Pow2Add(29, k - 29);
      var p := Pow2(k - 29);
      assert BACKOFF_BASE * (0x2000_0000 * p) == 0x100_0000_0000 * (29_296_875 * p);
      WrapMultiple(29_296_875 * p);
    }
  }

  lemma SmallPowers()
    ensures Pow2(4) == 16 && Pow2(27) == 0x800_0000 && Pow2(28) == 0x1000_0000 && Pow2(29) == 0x2000_0000
  {
    assert Pow2(4) == 16;
    Pow2Add(4, 4);
    Pow2Add(8, 8);
    Pow2Add(16, 8);
    assert Pow2(24) == 0x100_0000;
  }

  lemma WaitMonotone(n: nat, m: nat)
    requires FAILURE_LIMIT <= n <= m
    ensures 0 < Wait(n) <= Wait(m) <= BACKOFF_CAP
  {
    Pow2Mono(n - FAILURE_LIMIT, m - FAILURE_LIMIT);
  }

  // One minute after five failures, doubled by each further one up to the cap.
  lemma WaitDoubles(n: nat)
    requires n >= FAILURE_LIMIT
    ensures Wait(5) == 60_000_000_000 && Wait(n + 1) == Min(900_000_000_000, 2 * Wait(n))
  {
    assert Pow2(n + 1 - FAILURE_LIMIT) == 2 * Pow2(n - FAILURE_LIMIT);
    assert Pow2(0) == 1;
  }

  lemma BackoffMonotone(n: nat, m: nat)
    requires FAILURE_LIMIT <= n <= m
    ensures 0 < Backoff(n) <= Backoff(m) <= BACKOFF_CAP
  {
    BackoffIsExact(n);
    BackoffIsExact(m);
    WaitMonotone(n, m);
  }

  // ---- The sliding window --------------------------------------------------

  // pruneLocked: the failures still inside the window, in order.
  function InWindow(fails: seq<int>, now: int): (kept: seq<int>)
    ensures |kept| <= |fails|
  {
    if fails == [] then []
    else (if now - fails[0] < RATE_WINDOW then [fails[0]] else []) + InWindow(fails[1..], now)
  }

  // Exactly the failures younger than 15 minutes stay.
  lemma {:induction false} WindowIs(fails: seq<int>, now: int, x: int)
    ensures multiset(InWindow(fails, now))[x] == if now - x < 900_000_000_000 then multiset(fails)[x] else 0
  {
    if fails != [] {
      WindowIs(fails[1..], now, x);
      ConsCount(fails[0], fails[1..], x);
      ConsCount(fails[0], InWindow(fails[1..], now), x);
      assert fails == [fails[0]] + fails[1..];
      assert InWindow(fails, now) == (if now - fails[0] < RATE_WINDOW then [fails[0]] + InWindow(fails[1..], now) else InWindow(fails[1..], now));
    }
  }

  lemma ConsCount(a: int, s: seq<int>, x: int)
    ensures multiset([a] + s)[x] == multiset(s)[x] + if a == x then 1 else 0
  {
  }

  predicate Ordered(fails: seq<int>) {
    forall i, j :: 0 <= i < j < |fails| ==> fails[i] <= fails[j]
  }

  // The instant at which a key with these in-window failures unlocks.
  function LockedUntil(kept: seq<int>): Option<int> {
    if |kept| < FAILURE_LIMIT then None else Some(kept[|kept| - 1] + Wait(|kept|))
  }

  // retryAfter's answer: the remaining lock, or None when login may proceed.
  function Answer(fails: seq<int>, now: int): Option<int> {
    var until := LockedUntil(InWindow(fails, now));
    if until.None? || now >= until.value then None else Some(until.value - now)
  }

  // Pruning earlier does not change what is left later.
  lemma {:induction false} PruneTwice(fails: seq<int>, t: int, now: int)
    requires t <= now
    ensures InWindow(InWindow(fails, t), now) == InWindow(fails, now)
  {
    if fails != [] {
      PruneTwice(fails[1..], t, now);
      var rest := InWindow(fails[1..], t);
      if t - fails[0] < RATE_WINDOW {
        assert InWindow(fails, t) == [fails[0]] + rest;
        assert ([fails[0]] + rest)[1..] == rest;
      } else {
        assert InWindow(fails, t) == rest;
      }
    }
  }

  lemma {:induction false} PruneAppend(a: seq<int>, b: seq<int>, now: int)
    ensures InWindow(a + b, now) == InWindow(a, now) + InWindow(b, now)
  {
    if a == [] {
      assert a + b == b;
    } else {
      PruneAppend(a[1..], b, now);
      ConsTail(a, b);
    }
  }

  lemma WindowSnoc(fails: seq<int>, i: nat, now: int)
    requires i < |fails|
    ensures InWindow(fails[..i + 1], now) == InWindow(fails[..i], now) + if now - fails[i] < RATE_WINDOW then [fails[i]] else []
  {
    TakeNext(fails, i);
    PruneAppend(fails[..i], [fails[i]], now);
  }

  // In an ordered list the window keeps a suffix.
  lemma {:induction false} PruneSuffix(fails: seq<int>, now: int)
    requires Ordered(fails)
    ensures var kept := InWindow(fails, now);
      Ordered(kept) && kept == fails[|fails| - |kept|..]
  {
    if fails != [] {
      PruneSuffix(fails[1..], now);
      if now - fails[0] < RATE_WINDOW {
        KeepAll(fails, now);
      }
    }
  }

  lemma {:induction false} KeepAll(fails: seq<int>, now: int)
    requires forall i :: 0 <= i < |fails| ==> now - fails[i] < RATE_WINDOW
    ensures InWindow(fails, now) == fails
  {
    if fails != [] { KeepAll(fails[1..], now); }
  }

  // Without new failures the lock deadline never moves later.
  lemma DeadlineNeverLater(fails: seq<int>, t: int, now: int)
    requires Ordered(fails) && t <= now
    ensures var late := LockedUntil(InWindow(fails, now));
      late.Some? ==> LockedUntil(InWindow(fails, t)).Some? && late.value <= LockedUntil(InWindow(fails, t)).value
  {
    PruneTwice(fails, t, now);
    PruneSuffix(fails, t);
    var kept := InWindow(fails, t);
    PruneSuffix(kept, now);
    var later := InWindow(kept, now);
    if |later| >= FAILURE_LIMIT {
      WaitMonotone(|later|, |kept|);
      assert later[|later| - 1] == kept[|kept| - 1];
    }
  }

  // The reported retry is honoured: from now + retry on, with no new failure,
  // the key is never locked.
  lemma UnlocksAsReported(fails: seq<int>, now: int, later: int)
    requires Ordered(fails) && Answer(fails, now).Some? && later >= now + Answer(fails, now).value
    ensures Answer(fails, later) == None
  {
    DeadlineNeverLater(fails, now, later);
  }

  // How many ordered failures are still in the window.
  lemma {:induction false} WindowCount(fails: seq<int>, now: int, j: nat)
    requires Ordered(fails) && 1 <= j <= |fails|
    ensures |InWindow(fails, now)| >= j <==> now - fails[|fails| - j] < RATE_WINDOW
  {
    if now - fails[0] < RATE_WINDOW {
      KeepAll(fails, now);
    } else if j < |fails| {
      WindowCount(fails[1..], now, j);
    }
  }

  lemma SameWait(m: nat, n: nat)
    requires FAILURE_LIMIT <= m <= n
    ensures Wait(m) == Wait(n) <==> m == n || m >= 9
  {
    assert Pow2(0) == 1 && Pow2(1) == 2 && Pow2(2) == 4 && Pow2(3) == 8 && Pow2(4) == 16;
    if m >= 9 { Pow2Mono(4, m - FAILURE_LIMIT); Pow2Mono(4, n - FAILURE_LIMIT); }
    if m < 9 && m < n { Pow2Mono(m + 1 - FAILURE_LIMIT, n - FAILURE_LIMIT); }
  }

  // The oldest counted failure is still in the window when the lock ends, or nine
  // of them coincide with the last one.
  predicate WindowOutlasts(kept: seq<int>)
    requires |kept| >= FAILURE_LIMIT
  {
    || LockedUntil(kept).value <= kept[0] + RATE_WINDOW
    || (|kept| >= 9 && kept[|kept| - 9] == kept[|kept| - 1])
  }

  lemma NineCapped(n: nat)
    requires n >= 9
    ensures Wait(n) == BACKOFF_CAP
  {
    Pow2Mono(4, n - FAILURE_LIMIT);
    assert Pow2(4) == 16;
  }

  // What leaves the window leaves at the front.
  lemma LastKept(fails: seq<int>, now: int, t: int)
    requires Ordered(fails) && now <= t
    ensures |InWindow(fails, t)| <= |InWindow(fails, now)|
    ensures InWindow(fails, t) != [] ==>
      InWindow(fails, t)[|InWindow(fails, t)| - 1] == InWindow(fails, now)[|InWindow(fails, now)| - 1]
  {
    PruneSuffix(fails, now);
    PruneSuffix(fails, t);
    PruneTwice(fails, now, t);
  }

  lemma DeadlineOfNine(kept: seq<int>)
    requires |kept| >= 9
    ensures LockedUntil(kept) == Some(kept[|kept| - 1] + RATE_WINDOW)
  {
    NineCapped(|kept|);
  }

  // All failures, or nine of them, still count at the instant before the deadline.
  lemma CountOutlasts(kept: seq<int>, until: int, m: nat)
    requires Ordered(kept) && m == |InWindow(kept, until - 1)| && LockedUntil(kept) == Some(until)
    ensures m == |kept| || m >= 9 <==> WindowOutlasts(kept)
  {
    WindowCount(kept, until - 1, |kept|);
    if |kept| >= 9 {
      DeadlineOfNine(kept);
      WindowCount(kept, until - 1, 9);
    }
  }

  // ... and so the backoff is undiminished.
  lemma SameDeadline(kept: seq<int>, late: seq<int>)
    requires |late| <= |kept| && |kept| >= FAILURE_LIMIT
    requires late != [] ==> late[|late| - 1] == kept[|kept| - 1]
    ensures LockedUntil(late) == LockedUntil(kept) <==> |late| == |kept| || |late| >= 9
  {
    if |late| >= FAILURE_LIMIT { SameWait(|late|, |kept|); }
  }

  // The deadline at the instant before the reported one.
  lemma LastDeadline(fails: seq<int>, now: int, until: int)
    requires Ordered(fails) && now < until && LockedUntil(InWindow(fails, now)) == Some(until)
    ensures LockedUntil(InWindow(fails, until - 1)) == Some(until) <==> WindowOutlasts(InWindow(fails, now))
  {
    PruneSuffix(fails, now);
    PruneTwice(fails, now, until - 1);
    LastKept(fails, now, until - 1);
    CountOutlasts(InWindow(fails, now), until, |InWindow(fails, until - 1)|);
    SameDeadline(InWindow(fails, now), InWindow(fails, until - 1));
  }

  // The lock lasts to that instant exactly if the deadline has not moved.
  lemma LastInstant(fails: seq<int>, now: int, t: int, until: int)
    requires Ordered(fails) && now <= t && t == until - 1 && LockedUntil(InWindow(fails, now)) == Some(until)
    ensures Answer(fails, t) == if LockedUntil(InWindow(fails, t)) == Some(until) then Some(1) else None
  {
    DeadlineNeverLater(fails, now, t);
  }

  lemma LockHolds(fails: seq<int>, now: int, later: int, until: int)
    requires Ordered(fails) && now <= later < until && LockedUntil(InWindow(fails, now)) == Some(until)
    requires LockedUntil(InWindow(fails, until - 1)) == Some(until)
    ensures Answer(fails, later) == Some(until - later)
  {
    DeadlineNeverLater(fails, now, later);
    DeadlineNeverLater(fails, later, until - 1);
  }

  predicate LockedThroughout(fails: seq<int>, from: int, until: int) {
    forall later :: from <= later < until ==> Answer(fails, later) == Some(until - later)
  }

  // With no new failure the key stays locked until the reported instant exactly
  // when the window outlasts the lock; otherwise failures that age out free it
  // earlier.
  lemma StaysLockedUntilReported(fails: seq<int>, now: int)
    requires Ordered(fails) && Answer(fails, now).Some?
    ensures LockedThroughout(fails, now, now + Answer(fails, now).value) <==> WindowOutlasts(InWindow(fails, now))
  {
    var until := now + Answer(fails, now).value;
    LastDeadline(fails, now, until);
    LastInstant(fails, now, until - 1, until);
    if WindowOutlasts(InWindow(fails, now)) {
      forall later | now <= later < until ensures Answer(fails, later) == Some(until - later) {
        LockHolds(fails, now, later, until);
      }
    }
  }

  // A concrete case: one failure and four more after 14.5 minutes report a lock of
  // one minute, which ends half a minute early.
  lemma LockEndsEarly()
    ensures var four := 29 * MINUTE / 2;
      var fails := [0, four, four, four, four];
      Answer(fails, four) == Some(MINUTE) && Answer(fails, 15 * MINUTE) == None
  {
    var four := 29 * MINUTE / 2;
    var fails := [0, four, four, four, four];
    KeepAll(fails, four);
    WindowCount(fails, 15 * MINUTE, 5);
  }

  // ---- The limiter and its store as values ---------------------------------

  datatype StoredFailure = StoredFailure(key: string, failedAt: int)

  // failures is the in-memory map, stored the table in insertion order.
  datatype State = State(failures: map<string, seq<int>>, stored: seq<StoredFailure>)

  function FailsOf(failures: map<string, seq<int>>, key: string): seq<int> {
    if key in failures then failures[key] else []
  }

  // A map entry exists only for a non-empty list.
  function PutFails(failures: map<string, seq<int>>, key: string, fails: seq<int>): map<string, seq<int>> {
    if fails == [] then failures - {key} else failures[key := fails]
  }

  function Prune(failures: map<string, seq<int>>, key: string, now: int): map<string, seq<int>> {
    PutFails(failures, key, InWindow(FailsOf(failures, key), now))
  }

  // DELETE ... WHERE failed_at <= cutoff
  function After(rows: seq<StoredFailure>, cutoff: int): seq<StoredFailure> {
    if rows == [] then []
    else (if rows[0].failedAt > cutoff then [rows[0]] else []) + After(rows[1..], cutoff)
  }

  function Without(rows: seq<StoredFailure>, key: string): seq<StoredFailure> {
    if rows == [] then []
    else (if rows[0].key != key then [rows[0]] else []) + Without(rows[1..], key)
  }

  // The stored instants of one key, in insertion order.
  function InstantsOf(rows: seq<StoredFailure>, key: string): seq<int> {
    if rows == [] then []
    else (if rows[0].key == key then [rows[0].failedAt] else []) + InstantsOf(rows[1..], key)
  }

  // Memory always takes the failure; the insert and the pruning of the store are
  // best effort.
  function Recorded(s: State, key: string, now: int, inserted: bool, pruned: bool): State {
    var failures := Prune(s.failures, key, now);
    var rows := if inserted then s.stored + [StoredFailure(key, now)] else s.stored;
    State(failures[key := FailsOf(failures, key) + [now]], if pruned then After(rows, now - RATE_WINDOW) else rows)
  }

  function Cleared(s: State, key: string, deleted: bool): State {
    State(s.failures - {key}, if deleted then Without(s.stored, key) else s.stored)
  }

  function Asked(s: State, key: string, now: int): State {
    s.(failures := Prune(s.failures, key, now))
  }

  // restore's grouping of the reloaded rows.
  function Group(rows: seq<StoredFailure>): map<string, seq<int>> {
    if rows == [] then map[]
    else
      var before, r := Group(rows[..|rows| - 1]), rows[|rows| - 1];
      before[r.key := FailsOf(before, r.key) + [r.failedAt]]
  }

  // A fresh limiter after restore at now.
  function Restored(stored: seq<StoredFailure>, now: int): State {
    State(Group(After(stored, now - RATE_WINDOW)), After(stored, now - RATE_WINDOW))
  }

  // With the outcomes of the store's statements.
  datatype Event =
    | Fail(key: string, inserted: bool, pruned: bool)
    | Reset(key: string, deleted: bool)
    | Ask(key: string)

  // One event and the instant its clock reading returned.
  datatype Timed = Timed(ev: Event, at: int)

  function Step(s: State, t: Timed): State {
    match t.ev
    case Fail(key, inserted, pruned) => Recorded(s, key, t.at, inserted, pruned)
    case Reset(key, deleted) => Cleared(s, key, deleted)
    case Ask(key) => Asked(s, key, t.at)
  }

  function Run(s: State, evs: seq<Timed>): State {
    if evs == [] then s else Step(Run(s, evs[..|evs| - 1]), evs[|evs| - 1])
  }

  predicate NonDecreasing(evs: seq<Timed>) {
    forall i, j :: 0 <= i < j < |evs| ==> evs[i].at <= evs[j].at
  }

  // The instant of the last event.
  function LastAt(evs: seq<Timed>, start: int): int {
    if evs == [] then start else evs[|evs| - 1].at
  }

  const EMPTY := State(map[], [])

  // ---- Memory and store agree ----------------------------------------------

  // Two limiters that cannot be told apart from instant t on.
  ghost predicate Agree(a: map<string, seq<int>>, b: map<string, seq<int>>, t: int) {
    forall key :: InWindow(FailsOf(a, key), t) == InWindow(FailsOf(b, key), t)
  }

  // The store holds, per key, what memory holds inside the window.
  ghost predicate Mirrored(s: State, t: int) {
    forall key :: InWindow(InstantsOf(s.stored, key), t) == InWindow(FailsOf(s.failures, key), t)
  }

  lemma {:induction false} AfterInstants(rows: seq<StoredFailure>, now: int, key: string)
    ensures InstantsOf(After(rows, now - RATE_WINDOW), key) == InWindow(InstantsOf(rows, key), now)
  {
    if rows != [] {
      var head := if rows[0].failedAt > now - RATE_WINDOW then [rows[0]] else [];
      AfterInstants(rows[1..], now, key);
      InstantsAppend(head, After(rows[1..], now - RATE_WINDOW), key);
      assert rows == [rows[0]] + rows[1..];
      InstantsAppend([rows[0]], rows[1..], key);
      assert InstantsOf(head, key) == InWindow(InstantsOf([rows[0]], key), now);
      PruneAppend(InstantsOf([rows[0]], key), InstantsOf(rows[1..], key), now);
    }
  }

  lemma {:induction false} InstantsAppend(a: seq<StoredFailure>, b: seq<StoredFailure>, key: string)
    ensures InstantsOf(a + b, key) == InstantsOf(a, key) + InstantsOf(b, key)
  {
    if a == [] {
      assert a + b == b;
    } else {
      InstantsAppend(a[1..], b, key);
      ConsTail(a, b);
    }
  }

  lemma {:induction false} WithoutInstants(rows: seq<StoredFailure>, gone: string, key: string)
    ensures InstantsOf(Without(rows, gone), key) == if key == gone then [] else InstantsOf(rows, key)
  {
    if rows != [] {
      var head := if rows[0].key != gone then [rows[0]] else [];
      WithoutInstants(rows[1..], gone, key);
      InstantsAppend(head, Without(rows[1..], gone), key);
    }
  }

  lemma {:induction false} GroupInstants(rows: seq<StoredFailure>, key: string)
    ensures FailsOf(Group(rows), key) == InstantsOf(rows, key)
  {
    if rows != [] {
      var before, r := rows[..|rows| - 1], rows[|rows| - 1];
      GroupInstants(before, key);
      assert rows == before + [r];
      InstantsAppend(before, [r], key);
    }
  }

  lemma AgreeLater(a: map<string, seq<int>>, b: map<string, seq<int>>, t: int, now: int)
    requires t <= now && Agree(a, b, t)
    ensures Agree(a, b, now)
  {
    forall key ensures InWindow(FailsOf(a, key), now) == InWindow(FailsOf(b, key), now) {
      PruneTwice(FailsOf(a, key), t, now);
      PruneTwice(FailsOf(b, key), t, now);
    }
  }

  // What one event leaves in memory for a key.
  lemma StepFails(s: State, t: Timed, key: string)
    ensures var old_ := FailsOf(s.failures, key);
      FailsOf(Step(s, t).failures, key) ==
        if t.ev.key != key then old_
        else if t.ev.Ask? then InWindow(old_, t.at)
        else if t.ev.Reset? then []
        else InWindow(old_, t.at) + [t.at]
  {
  }

  // Pruning the store drops nothing inside the window.
  lemma PrunedInstants(rows: seq<StoredFailure>, at: int, key: string)
    ensures InWindow(InstantsOf(After(rows, at - RATE_WINDOW), key), at) == InWindow(InstantsOf(rows, key), at)
  {
    AfterInstants(rows, at, key);
    PruneTwice(InstantsOf(rows, key), at, at);
  }

  lemma FailInstants(rows: seq<StoredFailure>, k: string, at: int, key: string)
    ensures InWindow(InstantsOf(rows + [StoredFailure(k, at)], key), at) ==
      InWindow(InstantsOf(rows, key), at) + if k == key then [at] else []
  {
    var added := [StoredFailure(k, at)];
    InstantsAppend(rows, added, key);
    PruneAppend(InstantsOf(rows, key), InstantsOf(added, key), at);
    OneInstant(k, at, key);
  }

  lemma OneInstant(k: string, at: int, key: string)
    ensures InWindow(InstantsOf([StoredFailure(k, at)], key), at) == if k == key then [at] else []
  {
    var one := [StoredFailure(k, at)];
    assert one[1..] == [];
    if k == key { assert InstantsOf(one, key) == [at] && [at][1..] == []; }
  }

  // ... and in the store, as seen through the window at its instant.
  lemma StepInstants(s: State, t: Timed, key: string)
    ensures InWindow(InstantsOf(Step(s, t).stored, key), t.at) ==
      if t.ev.key != key || t.ev.Ask? then InWindow(InstantsOf(s.stored, key), t.at)
      else if t.ev.Reset? then (if t.ev.deleted then [] else InWindow(InstantsOf(s.stored, key), t.at))
      else InWindow(InstantsOf(s.stored, key), t.at) + if t.ev.inserted then [t.at] else []
  {
    match t.ev
    case Fail(k, inserted, pruned) =>
      var rows := if inserted then s.stored + [StoredFailure(k, t.at)] else s.stored;
      FailInstants(s.stored, k, t.at, key);
      PrunedInstants(rows, t.at, key);
    case Reset(k, _) => WithoutInstants(s.stored, k, key);
    case Ask(k) =>
  }

  lemma StepWindow(s: State, t: Timed, key: string)
    ensures InWindow(FailsOf(Step(s, t).failures, key), t.at) ==
      if t.ev.key != key || t.ev.Ask? then InWindow(FailsOf(s.failures, key), t.at)
      else if t.ev.Reset? then []
      else InWindow(FailsOf(s.failures, key), t.at) + [t.at]
  {
    StepFails(s, t, key);
    PruneTwice(FailsOf(s.failures, key), t.at, t.at);
    PruneAppend(InWindow(FailsOf(s.failures, key), t.at), [t.at], t.at);
    assert InWindow([t.at], t.at) == [t.at];
  }

  // The store took what memory took: no insert was lost, and no delete of a key
  // with failures in the window.
  predicate Persisted(s: State, t: Timed) {
    && (t.ev.Fail? ==> t.ev.inserted)
    && (t.ev.Reset? ==> t.ev.deleted || InWindow(FailsOf(s.failures, t.ev.key), t.at) == [])
  }

  // Exactly then the store keeps mirroring memory; a failed pruning is harmless.
  lemma MirrorStep(s: State, t0: int, t: Timed)
    requires Mirrored(s, t0) && t0 <= t.at
    ensures Mirrored(Step(s, t), t.at) <==> Persisted(s, t)
  {
    forall key ensures key != t.ev.key || Persisted(s, t) <==>
      InWindow(InstantsOf(Step(s, t).stored, key), t.at) == InWindow(FailsOf(Step(s, t).failures, key), t.at) {
      StepWindow(s, t, key);
      StepInstants(s, t, key);
      PruneTwice(InstantsOf(s.stored, key), t0, t.at);
      PruneTwice(FailsOf(s.failures, key), t0, t.at);
    }
  }

  // ---- The answer as a function of the history ------------------------------

  // The instants of the key's failures since its last reset.
  function Failures(evs: seq<Timed>, key: string): seq<int> {
    if evs == [] then []
    else
      var rest, t := Failures(evs[..|evs| - 1], key), evs[|evs| - 1];
      if t.ev.key != key || t.ev.Ask? then rest else if t.ev.Reset? then [] else rest + [t.at]
  }

  lemma {:induction false} MemoryIsHistory(evs: seq<Timed>, key: string, now: int)
    requires NonDecreasing(evs) && LastAt(evs, now) <= now
    ensures InWindow(FailsOf(Run(EMPTY, evs).failures, key), now) == InWindow(Failures(evs, key), now)
  {
    if evs != [] {
      var before, t := evs[..|evs| - 1], evs[|evs| - 1];
      if before != [] { assert before[|before| - 1].at <= t.at; }
      MemoryIsHistory(before, key, t.at);
      var s := Run(EMPTY, before);
      StepWindow(s, t, key);
      PruneAppend(Failures(before, key), [t.at], t.at);
      assert InWindow([t.at], t.at) == [t.at];
      PruneTwice(FailsOf(Step(s, t).failures, key), t.at, now);
      PruneTwice(Failures(evs, key), t.at, now);
    }
  }

  // At least five recent failures, and the backoff for their number has not passed since
  // the last of them.
  function Verdict(recent: seq<int>, now: int): Option<int> {
    if |recent| >= 5 && now < recent[|recent| - 1] + Wait(|recent|) then Some(recent[|recent| - 1] + Wait(|recent|) - now) else None
  }

  lemma AnswerOf(fails: seq<int>, recent: seq<int>, now: int)
    requires InWindow(fails, now) == recent
    ensures Answer(fails, now) == Verdict(recent, now)
  {
  }

  // Over every run of failures, resets and questions: the answer is the verdict on the
  // failures since the last reset that are younger than 15 minutes.
  lemma RefusedIff(evs: seq<Timed>, key: string, now: int)
    requires NonDecreasing(evs) && LastAt(evs, now) <= now
    ensures Answer(FailsOf(Run(EMPTY, evs).failures, key), now) == Verdict(InWindow(Failures(evs, key), now), now)
  {
    MemoryIsHistory(evs, key, now);
    AnswerOf(FailsOf(Run(EMPTY, evs).failures, key), InWindow(Failures(evs, key), now), now);
  }

  predicate AllPersisted(evs: seq<Timed>) {
    evs != [] ==> AllPersisted(evs[..|evs| - 1]) && Persisted(Run(EMPTY, evs[..|evs| - 1]), evs[|evs| - 1])
  }

  lemma {:induction false} RunMirrored(evs: seq<Timed>)
    requires NonDecreasing(evs) && AllPersisted(evs)
    ensures Mirrored(Run(EMPTY, evs), LastAt(evs, 0))
  {
    if evs != [] {
      var before, last := evs[..|evs| - 1], evs[|evs| - 1];
      RunMirrored(before);
      if before == [] {
        MirrorStep(EMPTY, last.at, last);
      } else {
        MirrorStep(Run(EMPTY, before), before[|before| - 1].at, last);
      }
    }
  }

  lemma AgreeStep(a: State, b: State, t0: int, t: Timed)
    requires Agree(a.failures, b.failures, t0) && t0 <= t.at
    ensures Agree(Step(a, t).failures, Step(b, t).failures, t.at)
  {
    AgreeLater(a.failures, b.failures, t0, t.at);
    forall key ensures InWindow(FailsOf(Step(a, t).failures, key), t.at) == InWindow(FailsOf(Step(b, t).failures, key), t.at) {
      StepWindow(a, t, key);
      StepWindow(b, t, key);
    }
  }

  lemma {:induction false} AgreeRun(a: State, b: State, t0: int, evs: seq<Timed>)
    requires Agree(a.failures, b.failures, t0) && NonDecreasing(evs) && (evs != [] ==> t0 <= evs[0].at)
    ensures Agree(Run(a, evs).failures, Run(b, evs).failures, LastAt(evs, t0))
  {
    if evs != [] {
      var before, last := evs[..|evs| - 1], evs[|evs| - 1];
      AgreeRun(a, b, t0, before);
      AgreeStep(Run(a, before), Run(b, before), LastAt(before, t0), last);
    }
  }

  // Right after restore, memory and the rebuilt limiter agree.
  lemma RestoreAgrees(past: seq<Timed>, boot: int)
    requires NonDecreasing(past) && AllPersisted(past) && LastAt(past, boot) <= boot
    ensures Agree(Restored(Run(EMPTY, past).stored, boot).failures, Run(EMPTY, past).failures, boot)
  {
    var live := Run(EMPTY, past);
    RunMirrored(past);
    forall key ensures InWindow(FailsOf(Restored(live.stored, boot).failures, key), boot) == InWindow(FailsOf(live.failures, key), boot) {
      GroupInstants(After(live.stored, boot - RATE_WINDOW), key);
      AfterInstants(live.stored, boot, key);
      PruneTwice(InstantsOf(live.stored, key), boot, boot);
      if past != [] {
        PruneTwice(InstantsOf(live.stored, key), LastAt(past, 0), boot);
        PruneTwice(FailsOf(live.failures, key), LastAt(past, 0), boot);
      }
    }
  }

  // Restart transparency: after any history in which the store took every failure
  // and every reset that mattered, a limiter rebuilt by restore and then driven by
  // any further events answers retryAfter for every key exactly as the one that
  // kept running.
  lemma RestartTransparent(past: seq<Timed>, boot: int, future: seq<Timed>, key: string, now: int)
    requires NonDecreasing(past) && AllPersisted(past) && LastAt(past, boot) <= boot
    requires NonDecreasing(future) && (future != [] ==> boot <= future[0].at) && LastAt(future, boot) <= now
    ensures Answer(FailsOf(Run(Restored(Run(EMPTY, past).stored, boot), future).failures, key), now) ==
            Answer(FailsOf(Run(Run(EMPTY, past), future).failures, key), now)
  {
    var live := Run(EMPTY, past);
    var reborn := Restored(live.stored, boot);
    RestoreAgrees(past, boot);
    AgreeRun(reborn, live, boot, future);
    AgreeAnswers(Run(reborn, future).failures, Run(live, future).failures, LastAt(future, boot), key, now);
  }

  lemma AgreeAnswers(a: map<string, seq<int>>, b: map<string, seq<int>>, t: int, key: string, now: int)
    requires Agree(a, b, t) && t <= now
    ensures Answer(FailsOf(a, key), now) == Answer(FailsOf(b, key), now)
  {
    PruneTwice(FailsOf(a, key), t, now);
    PruneTwice(FailsOf(b, key), t, now);
    assert InWindow(FailsOf(a, key), t) == InWindow(FailsOf(b, key), t);
  }

  // A reset whose delete is lost: the key is free at once, and locked again as
  // before by the next restart.
  lemma LostResetLocksAgain(past: seq<Timed>, key: string, at: int)
    requires NonDecreasing(past) && AllPersisted(past) && LastAt(past, at) <= at
    ensures var s := Run(EMPTY, past);
      var freed := Step(s, Timed(Reset(key, false), at));
      Answer(FailsOf(freed.failures, key), at) == None &&
      Answer(FailsOf(Restored(freed.stored, at).failures, key), at) == Answer(FailsOf(s.failures, key), at)
  {
    RestoreAgrees(past, at);
    AgreeAnswers(Restored(Run(EMPTY, past).stored, at).failures, Run(EMPTY, past).failures, at, key, at);
  }

  ghost predicate OrderedUpTo(fails: seq<int>, at: int) {
    Ordered(fails) && (fails != [] ==> fails[|fails| - 1] <= at)
  }

  lemma WindowOrdered(fails: seq<int>, at: int)
    requires OrderedUpTo(fails, at)
    ensures OrderedUpTo(InWindow(fails, at), at) && OrderedUpTo(InWindow(fails, at) + [at], at)
  {
    PruneSuffix(fails, at);
  }

  lemma StepOrdered(s: State, t: Timed, key: string)
    requires OrderedUpTo(FailsOf(s.failures, key), t.at)
    ensures OrderedUpTo(FailsOf(Step(s, t).failures, key), t.at)
  {
    StepFails(s, t, key);
    WindowOrdered(FailsOf(s.failures, key), t.at);
  }

  // Under a non-decreasing clock every in-memory list is ordered, so the lock
  // laws above apply to every reachable limiter.
  lemma {:induction false} RunOrdered(evs: seq<Timed>, key: string)
    requires NonDecreasing(evs)
    ensures OrderedUpTo(FailsOf(Run(EMPTY, evs).failures, key), LastAt(evs, 0))
    ensures evs == [] ==> FailsOf(Run(EMPTY, evs).failures, key) == []
  {
    if evs != [] {
      var before, last := evs[..|evs| - 1], evs[|evs| - 1];
      RunOrdered(before, key);
      if before != [] { assert before[|before| - 1].at <= last.at; }
      StepOrdered(Run(EMPTY, before), last, key);
    }
  }

  lemma PrunedFails(failures: map<string, seq<int>>, key: string, now: int)
    ensures FailsOf(Prune(failures, key, now), key) == InWindow(FailsOf(failures, key), now)
  {
  }

  // ---- The limiter object --------------------------------------------------

  class LoginRateLimiter {
    var failures: map<string, seq<int>>
    var stored: seq<StoredFailure>

    ghost function S(): State reads this {
      State(failures, stored)
    }

    constructor ()
      ensures S() == EMPTY
    {
      failures, stored := map[], [];
    }

    method PruneLocked(key: string, now: int)
      modifies this`failures
      ensures failures == Prune(old(failures), key, now)
    {
      var fails := FailsOf(failures, key);
      var kept := [];
      for i := 0 to |fails|
        invariant kept == InWindow(fails[..i], now) && failures == old(failures)
      {
        WindowSnoc(fails, i, now);
        if now - fails[i] < RATE_WINDOW {
          kept := kept + [fails[i]];
        }
      }
      assert fails[..|fails|] == fails;
      if kept == [] {
        failures := failures - {key};
      } else {
        failures := failures[key := kept];
      }
    }

    // The remaining lock and whether the attempt is refused.
    method RetryAfter(key: string, now: int) returns (wait: int, refused: bool)
      modifies this`failures
      ensures S() == Step(old(S()), Timed(Ask(key), now))
      ensures Answer(FailsOf(old(failures), key), now) == if refused then Some(wait) else None
      ensures refused ==> 0 < wait
    {
      PruneLocked(key, now);
      PrunedFails(old(failures), key, now);
      var fails := FailsOf(failures, key);
      if |fails| < FAILURE_LIMIT { return 0, false; }
      BackoffIsExact(|fails|);
      var until := fails[|fails| - 1] + Backoff(|fails|);
      if now >= until { return 0, false; }
      return until - now, true;
    }

    // inserted and pruned say whether the store's statements succeeded.
    method RecordFailure(key: string, now: int, inserted: bool, pruned: bool)
      modifies this
      ensures S() == Step(old(S()), Timed(Fail(key, inserted, pruned), now))
    {
      PruneLocked(key, now);
      failures := failures[key := FailsOf(failures, key) + [now]];
      if inserted { stored := stored + [StoredFailure(key, now)]; }
      if pruned { stored := After(stored, now - RATE_WINDOW); }
    }

    method ResetKey(key: string, deleted: bool)
      modifies this
      ensures forall at :: S() == Step(old(S()), Timed(Reset(key, deleted), at))
    {
      failures := failures - {key};
      if deleted { stored := Without(stored, key); }
    }

    // Reload the in-window rows, then drop the stale ones from the store.
    method Restore(now: int)
      requires failures == map[]
      modifies this
      ensures S() == Restored(old(stored), now)
    {
      var rows := After(stored, now - RATE_WINDOW);
      for i := 0 to |rows|
        invariant failures == Group(rows[..i]) && stored == old(stored)
      {
        failures := failures[rows[i].key := FailsOf(failures, rows[i].key) + [rows[i].failedAt]];
        assert rows[..i + 1][..i] == rows[..i];
      }
      assert rows[..|rows|] == rows;
      stored := After(stored, now - RATE_WINDOW);
    }
  }
}
