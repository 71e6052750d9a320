// The ghost sweep of internal/orchestrator/controller.go: deregistering runner
// registrations whose container died without cleaning up.
module GhostSweep {
  import opened Basics

  // One row of the forge's runner listings; target is where it was listed.
  datatype Remote = Remote(name: string, target: string, online: bool, busy: bool)

  // Offline, idle, one of ours by name, and not tracked.
  predicate Eligible(r: Remote, prefix: string, tracked: set<string>) {
    !r.online && !r.busy && prefix <= r.name && r.name !in tracked
  }

  function Names(rows: seq<Remote>): set<string> {
    set r | r in rows :: r.name
  }

  function EligibleNames(rows: seq<Remote>, prefix: string, tracked: set<string>): set<string> {
    set r | r in rows && Eligible(r, prefix, tracked) :: r.name
  }

  ghost predicate UniqueNames(rows: seq<Remote>) {
    forall i, j :: 0 <= i < j < |rows| ==> rows[i].name != rows[j].name
  }

  // Consecutive sweeps a name has been counted in.
  function Tally(counters: map<string, nat>, name: string): nat {
    if name in counters then counters[name] else 0
  }

  // ---- Runs ----------------------------------------------------------------

  // One executed sweep: the eligible names and those deregistered.
  datatype Sweep = Sweep(eligible: set<string>, done: set<string>)

  function Next(counters: map<string, nat>, s: Sweep): map<string, nat> {
    map n | n in s.eligible && n !in s.done :: Tally(counters, n) + 1
  }

  function Run(sweeps: seq<Sweep>): map<string, nat> {
    if sweeps == [] then map[] else Next(Run(sweeps[..|sweeps| - 1]), sweeps[|sweeps| - 1])
  }

  // Only names that reach the threshold are deregistered.
  ghost predicate Careful(counters: map<string, nat>, s: Sweep, cycles: int) {
    forall n :: n in s.done ==> n in s.eligible && Tally(counters, n) + 1 >= cycles
  }

  ghost predicate IsRun(sweeps: seq<Sweep>, cycles: int) {
    sweeps != [] ==>
      IsRun(sweeps[..|sweeps| - 1], cycles) && Careful(Run(sweeps[..|sweeps| - 1]), sweeps[|sweeps| - 1], cycles)
  }

  // A count of c means: eligible in each of the last c executed sweeps.
  lemma {:induction false} CountsAreStreaks(sweeps: seq<Sweep>, name: string, k: nat)
    requires k < Tally(Run(sweeps), name)
    ensures k < |sweeps| && name in sweeps[|sweeps| - 1 - k].eligible
  {
    if sweeps != [] && k > 0 {
      CountsAreStreaks(sweeps[..|sweeps| - 1], name, k - 1);
    }
  }

  // A name is deregistered only if it was eligible in every one of the last
  // `cycles` executed sweeps, the current one included.
  lemma DeregisteredAfterStreak(sweeps: seq<Sweep>, cycles: int, name: string, k: nat)
    requires sweeps != [] && IsRun(sweeps, cycles) && name in sweeps[|sweeps| - 1].done && k < cycles
    ensures k < |sweeps| && name in sweeps[|sweeps| - 1 - k].eligible
  {
    var before := sweeps[..|sweeps| - 1];
    assert Careful(Run(before), sweeps[|sweeps| - 1], cycles);
    if k > 0 { CountsAreStreaks(before, name, k - 1); }
  }

  // Seen again online, busy or tracked, or missing from the listing, a name starts
  // over: it then survives at least cycles - 1 further sweeps.
  lemma ResetBuysTime(sweeps: seq<Sweep>, cycles: int, name: string, back: nat)
    requires sweeps != [] && IsRun(sweeps, cycles) && back < |sweeps| && name !in sweeps[|sweeps| - 1 - back].eligible
    requires back < cycles
    ensures name !in sweeps[|sweeps| - 1].done
  {
    if name in sweeps[|sweeps| - 1].done { DeregisteredAfterStreak(sweeps, cycles, name, back); }
  }

  // ---- The sweeper ---------------------------------------------------------

  // Where a sweep over the first i rows stands.
  ghost predicate Swept(rows: seq<Remote>, i: nat, prefix: string, tracked: set<string>, cycles: int, old_: map<string, nat>,
                        counters: map<string, nat>, done: set<string>, tried: set<string>)
    requires i <= |rows|
  {
    && (forall j :: 0 <= j < i ==>
          (rows[j].name in counters <==> Eligible(rows[j], prefix, tracked) && rows[j].name !in done) &&
          (rows[j].name in counters ==> counters[rows[j].name] == Tally(old_, rows[j].name) + 1))
    && (forall j :: i <= j < |rows| ==> Tally(counters, rows[j].name) == Tally(old_, rows[j].name) && rows[j].name !in tried)
    && done <= tried
    && (forall n :: n in tried ==> exists j :: 0 <= j < i && rows[j].name == n && Eligible(rows[j], prefix, tracked) && Tally(old_, n) + 1 >= cycles)
  }

  ghost predicate AllTried(rows: seq<Remote>, i: nat, prefix: string, tracked: set<string>, cycles: int, old_: map<string, nat>,
                           tried: set<string>)
    requires i <= |rows|
  {
    forall j :: 0 <= j < i && Eligible(rows[j], prefix, tracked) && Tally(old_, rows[j].name) + 1 >= cycles ==> rows[j].name in tried
  }

  // The end of a sweep, once the unlisted names are dropped.
  lemma SweptAll(rows: seq<Remote>, prefix: string, tracked: set<string>, cycles: int, old_: map<string, nat>,
                 counters: map<string, nat>, done: set<string>, tried: set<string>)
    requires UniqueNames(rows) && Swept(rows, |rows|, prefix, tracked, cycles, old_, counters, done, tried)
    ensures var s := Sweep(EligibleNames(rows, prefix, tracked), done);
      (map n | n in counters && n in Names(rows) :: counters[n]) == Next(old_, s) && Careful(old_, s, cycles)
  {
    var s := Sweep(EligibleNames(rows, prefix, tracked), done);
    var kept := map n | n in counters && n in Names(rows) :: counters[n];
    forall n ensures n in kept <==> n in Next(old_, s) {
      if n in Names(rows) {
        var j :| 0 <= j < |rows| && rows[j].name == n;
        assert n in s.eligible <==> Eligible(rows[j], prefix, tracked);
      }
    }
    forall n | n in kept ensures kept[n] == Next(old_, s)[n] {
      var j :| 0 <= j < |rows| && rows[j].name == n;
    }
    assert kept == Next(old_, s);
  }

  // What became of each listed name.
  lemma SweptRows(rows: seq<Remote>, prefix: string, tracked: set<string>, cycles: int, old_: map<string, nat>,
                  counters: map<string, nat>, done: set<string>, tried: set<string>)
    requires UniqueNames(rows) && Swept(rows, |rows|, prefix, tracked, cycles, old_, counters, done, tried)
    ensures RowsSwept(rows, prefix, tracked, old_, map n | n in counters && n in Names(rows) :: counters[n], done, tried)
  {
    var kept := map n | n in counters && n in Names(rows) :: counters[n];
    forall r | r in rows
      ensures if r.online || r.busy || !(prefix <= r.name) || r.name in tracked then r.name !in kept && r.name !in tried
              else if r.name in done then r.name !in kept
              else r.name in kept && kept[r.name] == Tally(old_, r.name) + 1
    {
      var j :| 0 <= j < |rows| && rows[j] == r;
      assert r.name in Names(rows);
    }
  }

  // A name listed online or busy, not ours or tracked is neither counted nor tried; any
  // other listed name is counted once more, or it is gone.
  ghost predicate RowsSwept(rows: seq<Remote>, prefix: string, tracked: set<string>, old_: map<string, nat>,
                            counters: map<string, nat>, done: set<string>, tried: set<string>)
  {
    forall r :: r in rows ==>
      if r.online || r.busy || !(prefix <= r.name) || r.name in tracked then r.name !in counters && r.name !in tried
      else if r.name in done then r.name !in counters
      else r.name in counters && counters[r.name] == Tally(old_, r.name) + 1
  }

  lemma SweptNext(rows: seq<Remote>, i: nat, prefix: string, tracked: set<string>, cycles: int, old_: map<string, nat>,
                  counters: map<string, nat>, counters1: map<string, nat>, done: set<string>, tried: set<string>,
                  tries: bool, did: bool)
    requires UniqueNames(rows) && i < |rows| && Swept(rows, i, prefix, tracked, cycles, old_, counters, done, tried)
    requires forall n :: n != rows[i].name ==> Tally(counters1, n) == Tally(counters, n) && (n in counters1 <==> n in counters)
    requires rows[i].name in counters1 <==> Eligible(rows[i], prefix, tracked) && !did
    requires rows[i].name in counters1 ==> counters1[rows[i].name] == Tally(counters, rows[i].name) + 1
    requires (did ==> tries) && (tries ==> Eligible(rows[i], prefix, tracked) && Tally(counters, rows[i].name) + 1 >= cycles)
    ensures Swept(rows, i + 1, prefix, tracked, cycles, old_, counters1,
                  if did then done + {rows[i].name} else done, if tries then tried + {rows[i].name} else tried)
  {
  }

  // ... with the successes counted, and everything due tried below the burst guard.
  ghost predicate SweepState(rows: seq<Remote>, i: nat, prefix: string, tracked: set<string>, cycles: int, max: int,
                             old_: map<string, nat>, counters: map<string, nat>, done: set<string>, tried: set<string>, swept: nat)
    requires i <= |rows|
  {
    && |done| == swept
    && Swept(rows, i, prefix, tracked, cycles, old_, counters, done, tried)
    && (swept < max ==> AllTried(rows, i, prefix, tracked, cycles, old_, tried))
  }

  lemma SweepStateNext(rows: seq<Remote>, i: nat, prefix: string, tracked: set<string>, cycles: int, max: int,
                       old_: map<string, nat>, counters: map<string, nat>, counters1: map<string, nat>,
                       done: set<string>, tried: set<string>, swept: nat, tries: bool, did: bool)
    requires UniqueNames(rows) && i < |rows|
    requires SweepState(rows, i, prefix, tracked, cycles, max, old_, counters, done, tried, swept)
    requires forall n :: n != rows[i].name ==> Tally(counters1, n) == Tally(counters, n) && (n in counters1 <==> n in counters)
    requires rows[i].name in counters1 <==> Eligible(rows[i], prefix, tracked) && !did
    requires rows[i].name in counters1 ==> counters1[rows[i].name] == Tally(counters, rows[i].name) + 1
    requires did ==> tries
    requires tries <==> Eligible(rows[i], prefix, tracked) && Tally(counters, rows[i].name) + 1 >= cycles && swept < max
    ensures SweepState(rows, i + 1, prefix, tracked, cycles, max, old_, counters1,
                       if did then done + {rows[i].name} else done, if tries then tried + {rows[i].name} else tried,
                       if did then swept + 1 else swept)
  {
    SweptNext(rows, i, prefix, tracked, cycles, old_, counters, counters1, done, tried, tries, did);
    assert rows[i].name !in tried;
  }

  // The account is kept for listings whose names are unique.
  ghost predicate SweepAccount(rows: seq<Remote>, i: nat, prefix: string, tracked: set<string>, cycles: int, max: int,
                               old_: map<string, nat>, counters: map<string, nat>, done: set<string>, tried: set<string>, swept: nat)
    requires i <= |rows|
  {
    UniqueNames(rows) ==> SweepState(rows, i, prefix, tracked, cycles, max, old_, counters, done, tried, swept)
  }

  lemma SweepAccountNext(rows: seq<Remote>, i: nat, prefix: string, tracked: set<string>, cycles: int, max: int,
                         old_: map<string, nat>, counters: map<string, nat>, counters1: map<string, nat>,
                         done: set<string>, tried: set<string>, swept: nat, tries: bool, did: bool)
    requires i < |rows| && SweepAccount(rows, i, prefix, tracked, cycles, max, old_, counters, done, tried, swept)
    requires forall n :: n != rows[i].name ==> Tally(counters1, n) == Tally(counters, n) && (n in counters1 <==> n in counters)
    requires rows[i].name in counters1 <==> Eligible(rows[i], prefix, tracked) && !did
    requires rows[i].name in counters1 ==> counters1[rows[i].name] == Tally(counters, rows[i].name) + 1
    requires did ==> tries
    requires tries <==> Eligible(rows[i], prefix, tracked) && Tally(counters, rows[i].name) + 1 >= cycles && swept < max
    ensures SweepAccount(rows, i + 1, prefix, tracked, cycles, max, old_, counters1,
                         if did then done + {rows[i].name} else done, if tries then tried + {rows[i].name} else tried,
                         if did then swept + 1 else swept)
  {
    if UniqueNames(rows) {
      SweepStateNext(rows, i, prefix, tracked, cycles, max, old_, counters, counters1, done, tried, swept, tries, did);
    }
  }

  class GhostSweeper {
    const cycles: int
    const maxDeregistrations: int
    var ghostCounters: map<nat, map<string, nat>>

    constructor (cycles: int, maxDeregistrations: int)
      ensures this.cycles == cycles && this.maxDeregistrations == maxDeregistrations && ghostCounters == map[]
    {
      this.cycles, this.maxDeregistrations, ghostCounters := cycles, maxDeregistrations, map[];
    }

    ghost function Counters(pool: nat): map<string, nat> reads this {
      if pool in ghostCounters then ghostCounters[pool] else map[]
    }

    // One row: count it, forget it, or try to deregister it; granted is the forge's
    // answer if it is asked.
    method SweepRow(r: Remote, prefix: string, tracked: set<string>, counters: map<string, nat>, swept: nat, granted: bool)
      returns (counters1: map<string, nat>, tries: bool, done: bool)
      ensures forall n :: n != r.name ==> Tally(counters1, n) == Tally(counters, n) && (n in counters1 <==> n in counters)
      ensures r.name in counters1 <==> Eligible(r, prefix, tracked) && !done
      ensures r.name in counters1 ==> counters1[r.name] == Tally(counters, r.name) + 1
      ensures done <==> tries && granted
      ensures tries <==> Eligible(r, prefix, tracked) && Tally(counters, r.name) + 1 >= cycles && swept < maxDeregistrations
    {
      tries, done := false, false;
      if r.online || r.busy || !(prefix <= r.name) { return counters - {r.name}, tries, done; }
      if r.name in tracked { return counters - {r.name}, tries, done; }
      counters1 := counters[r.name := Tally(counters, r.name) + 1];
      if counters1[r.name] < cycles { return; }
      if swept >= maxDeregistrations { return; }
      tries := true;
      if !granted { return; }
      done, counters1 := true, counters1 - {r.name};
    }

    method SweepRows(prefix: string, tracked: set<string>, rows: seq<Remote>, was: map<string, nat>)
      returns (counters: map<string, nat>, swept: nat, ghost done: set<string>, ghost tried: set<string>)
      ensures |done| <= swept <= Max(maxDeregistrations, 0)
      ensures SweepAccount(rows, |rows|, prefix, tracked, cycles, maxDeregistrations, was, counters, done, tried, swept)
    {
      counters, swept, done, tried := was, 0, {}, {};
      for i := 0 to |rows|
        invariant |done| <= swept <= Max(maxDeregistrations, 0)
        invariant SweepAccount(rows, i, prefix, tracked, cycles, maxDeregistrations, was, counters, done, tried, swept)
      {
        ghost var before := counters;
        var tries, did;
        var granted: bool := *;
        counters, tries, did := SweepRow(rows[i], prefix, tracked, counters, swept, granted);
        SweepAccountNext(rows, i, prefix, tracked, cycles, maxDeregistrations, was, before, counters, done, tried, swept, tries, did);
        tried := if tries then tried + {rows[i].name} else tried;
        done := if did then done + {rows[i].name} else done;
        swept := if did then swept + 1 else swept;
      }
    }

    // One sweep of a pool's listings (listed: at least one target answered).
    method SweepPool(pool: nat, prefix: string, tracked: set<string>, rows: seq<Remote>, listed: bool, registrar: bool)
      returns (ghost done: set<string>, ghost tried: set<string>)
      modifies this
      ensures !listed || cycles <= 0 || !registrar ==> ghostCounters == old(ghostCounters) && done == tried == {}
      ensures |done| <= Max(maxDeregistrations, 0)
      ensures listed && cycles > 0 && registrar && UniqueNames(rows) ==>
        var s := Sweep(EligibleNames(rows, prefix, tracked), done);
        Counters(pool) == Next(old(Counters(pool)), s) && Careful(old(Counters(pool)), s, cycles)
      ensures listed && cycles > 0 && registrar && UniqueNames(rows) ==>
        RowsSwept(rows, prefix, tracked, old(Counters(pool)), Counters(pool), done, tried)
      // Unless the burst guard struck, every name over the threshold was tried.
      ensures listed && cycles > 0 && registrar && UniqueNames(rows) && |done| < maxDeregistrations ==>
        AllTried(rows, |rows|, prefix, tracked, cycles, old(Counters(pool)), tried)
      ensures forall q :: q != pool ==> Counters(q) == old(Counters(q))
    {
      done, tried := {}, {};
      if !listed || cycles <= 0 || !registrar { return; }
      var counters := if pool in ghostCounters then ghostCounters[pool] else map[];
      ghost var was := counters;
      var swept;
      counters, swept, done, tried := SweepRows(prefix, tracked, rows, counters);
      if UniqueNames(rows) {
        SweptAll(rows, prefix, tracked, cycles, was, counters, done, tried);
        SweptRows(rows, prefix, tracked, cycles, was, counters, done, tried);
      }
      counters := map n | n in counters && n in Names(rows) :: counters[n];
      ghostCounters := if counters == map[] then ghostCounters - {pool} else ghostCounters[pool := counters];
    }
  }
}
