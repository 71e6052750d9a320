// The account of the containers: replaying the log event by event gives the
// containers that are tracked now.
module Ledger {
  import opened Basics
  import opened Tracking
  import opened Fleet

  predicate IsEntry(e: Event) {
    e.Spawned? || e.Seen?
  }

  // A removal of a container that is not tracked any more moves nothing.
  predicate IsDeparture(e: Event) {
    (e.Removed? && e.tracked) || e.Lost? || e.Echoed?
  }

  // The tracked containers, the ids that ever entered, and whether every event so
  // far was lawful: nobody enters twice or leaves without being there, and no
  // container is created under an id that had entered before.
  datatype Books = Books(keys: set<Slot>, ids: set<string>, lawful: bool)

  function Replay(log: seq<Event>): Books {
    if log == [] then Books({}, {}, true) else Book(Replay(log[..|log| - 1]), log[|log| - 1])
  }

  function Book(b: Books, e: Event): Books {
    if IsEntry(e) then
      Books(b.keys + {e.slot}, b.ids + {e.slot.id}, b.lawful && e.slot !in b.keys && (e.Spawned? ==> e.slot.id !in b.ids))
    else if IsDeparture(e) then b.(keys := b.keys - {e.slot}, lawful := b.lawful && e.slot in b.keys)
    else b
  }

  // The books are in order: used are the ids that entered so far.
  ghost predicate Balanced(t: Table, log: seq<Event>, used: set<string>) {
    WellKeyed(t) && (forall s :: s in t ==> s.id in used) && Replay(log) == Books(t.Keys, used, true)
  }

  lemma BookOne(log: seq<Event>, e: Event)
    ensures Replay(log + [e]) == Book(Replay(log), e)
  {
    assert (log + [e])[..|log|] == log;
  }

  // What happens to no container.
  lemma BookNothing(t: Table, t1: Table, log: seq<Event>, used: set<string>, e: Event)
    requires Balanced(t, log, used) && !IsEntry(e) && !IsDeparture(e) && t1.Keys == t.Keys && WellKeyed(t1)
    ensures Balanced(t1, log + [e], used)
  {
    BookOne(log, e);
  }

  lemma BookEntry(t: Table, log: seq<Event>, used: set<string>, e: Event, r: Runner)
    requires Balanced(t, log, used) && IsEntry(e) && e.slot !in t && (e.Spawned? ==> e.slot.id !in used) && KeyOf(r) == e.slot
    ensures Balanced(t[e.slot := r], log + [e], used + {e.slot.id})
  {
    BookOne(log, e);
  }

  lemma BookDeparture(t: Table, log: seq<Event>, used: set<string>, e: Event)
    requires Balanced(t, log, used) && IsDeparture(e) && e.slot in t
    ensures Balanced(t - {e.slot}, log + [e], used)
  {
    BookOne(log, e);
  }

  // An audit enters what it finds and strikes what it misses.
  predicate ByAudit(e: Event) {
    e.Seen? || e.Lost?
  }

  lemma {:induction false} BookLost(b: Books, gone: set<Slot>, log: seq<Event>) returns (ev: seq<Event>)
    requires b == Replay(log) && b.lawful && gone <= b.keys
    ensures Replay(log + ev) == b.(keys := b.keys - gone) && forall e :: e in ev ==> ByAudit(e)
    decreases gone
  {
    if s :| s in gone {
      BookOne(log, Lost(s));
      var rest := BookLost(Book(b, Lost(s)), gone - {s}, log + [Lost(s)]);
      assert (b.keys - {s}) - (gone - {s}) == b.keys - gone;
      Assoc(log, [Lost(s)], rest);
      ev := [Lost(s)] + rest;
    } else {
      PlusNothing(log);
      ev := [];
      assert b.keys - gone == b.keys;
    }
  }

  function IdsOf(slots: set<Slot>): set<string> {
    set s | s in slots :: s.id
  }

  lemma {:induction false} BookSeen(b: Books, more: set<Slot>, log: seq<Event>) returns (ev: seq<Event>)
    requires b == Replay(log) && b.lawful && b.keys !! more
    ensures Replay(log + ev) == Books(b.keys + more, b.ids + IdsOf(more), true)
    ensures forall e :: e in ev ==> ByAudit(e)
    decreases more
  {
    if s :| s in more {
      BookOne(log, Seen(s));
      var rest := BookSeen(Book(b, Seen(s)), more - {s}, log + [Seen(s)]);
      assert (b.keys + {s}) + (more - {s}) == b.keys + more;
      assert (b.ids + {s.id}) + IdsOf(more - {s}) == b.ids + IdsOf(more);
      Assoc(log, [Seen(s)], rest);
      ev := [Seen(s)] + rest;
    } else {
      PlusNothing(log);
      ev := [];
      assert b.keys + more == b.keys && b.ids + IdsOf(more) == b.ids;
    }
  }

  lemma BookAudit(t: Table, t1: Table, log: seq<Event>, used: set<string>, used1: set<string>) returns (ev: seq<Event>)
    requires Balanced(t, log, used) && used1 == used + IdsOf(t1.Keys) && WellKeyed(t1)
    ensures Balanced(t1, log + ev, used1) && forall e :: e in ev ==> ByAudit(e)
  {
    var b := Replay(log);
    var lost := BookLost(b, b.keys - t1.Keys, log);
    var seen := BookSeen(Replay(log + lost), t1.Keys - b.keys, log + lost);
    Assoc(log, lost, seen);
    KnownIds(log);
    assert used + IdsOf(t1.Keys - b.keys) == used1;
    assert b.keys - (b.keys - t1.Keys) + (t1.Keys - b.keys) == t1.Keys;
    ev := lost + seen;
  }

  // ---- What balanced books mean --------------------------------------------

  function Entries(ev: seq<Event>, s: Slot): nat {
    if ev == [] then 0
    else Entries(ev[..|ev| - 1], s) + if IsEntry(ev[|ev| - 1]) && ev[|ev| - 1].slot == s then 1 else 0
  }

  function Departures(ev: seq<Event>, s: Slot): nat {
    if ev == [] then 0
    else Departures(ev[..|ev| - 1], s) + if IsDeparture(ev[|ev| - 1]) && ev[|ev| - 1].slot == s then 1 else 0
  }

  // The counts of one more event.
  lemma CountOne(ev: seq<Event>, e: Event, s: Slot)
    ensures Entries(ev + [e], s) == Entries(ev, s) + if IsEntry(e) && e.slot == s then 1 else 0
    ensures Departures(ev + [e], s) == Departures(ev, s) + if IsDeparture(e) && e.slot == s then 1 else 0
  {
    assert (ev + [e])[..|ev|] == ev;
  }

  // Over any stretch of a lawful log.
  lemma {:induction false} Stretch(past: seq<Event>, ev: seq<Event>, s: Slot)
    requires Replay(past + ev).lawful
    ensures Replay(past).lawful && Replay(past).ids <= Replay(past + ev).ids
    ensures Entries(ev, s) + (if s in Replay(past).keys then 1 else 0) ==
      Departures(ev, s) + if s in Replay(past + ev).keys then 1 else 0
    ensures forall e :: e in ev && e.Spawned? ==> e.slot.id !in Replay(past).ids
  {
    if ev == [] {
      PlusNothing(past);
    } else {
      var before, last := ev[..|ev| - 1], ev[|ev| - 1];
      assert ev == before + [last];
      Assoc(past, before, [last]);
      BookOne(past + before, last);
      Stretch(past, before, s);
      CountOne(before, last, s);
      BookMoves(Replay(past + before), last, s);
    }
  }

  // A lawful event moves its own container only.
  lemma BookMoves(b: Books, e: Event, s: Slot)
    requires Book(b, e).lawful
    ensures b.lawful && b.ids <= Book(b, e).ids && (e.Spawned? ==> e.slot.id !in b.ids)
    ensures (if s in Book(b, e).keys then 1 else 0) ==
      (if s in b.keys then 1 else 0) + (if IsEntry(e) && e.slot == s then 1 else 0) - if IsDeparture(e) && e.slot == s then 1 else 0
  {
  }

  // Over the stretch ev every container entered as often as it left, but for what
  // is tracked before or after.
  ghost predicate Accounts(t: Table, t1: Table, ev: seq<Event>) {
    forall s :: Entries(ev, s) + (if s in t then 1 else 0) == Departures(ev, s) + if s in t1 then 1 else 0
  }

  lemma BalancedAccounts(t: Table, t1: Table, past: seq<Event>, ev: seq<Event>, used: set<string>, used1: set<string>)
    requires Balanced(t, past, used) && Balanced(t1, past + ev, used1)
    ensures Accounts(t, t1, ev)
  {
    forall s ensures Entries(ev, s) + (if s in t then 1 else 0) == Departures(ev, s) + if s in t1 then 1 else 0 {
      Stretch(past, ev, s);
    }
  }

  lemma {:induction false} KnownIds(log: seq<Event>)
    ensures forall s :: s in Replay(log).keys ==> s.id in Replay(log).ids
  {
    if log != [] { KnownIds(log[..|log| - 1]); }
  }

  lemma {:induction false} NoEntry(ev: seq<Event>, s: Slot)
    requires forall e :: e in ev ==> !(IsEntry(e) && e.slot == s)
    ensures Entries(ev, s) == 0
  {
    if ev != [] {
      var before := ev[..|ev| - 1];
      assert ev == before + [ev[|ev| - 1]];
      NoEntry(before, s);
    }
  }

  // Between any two moments of a run: what was tracked and was not rediscovered by
  // an audit has exactly one departure on record if it is gone and none if it is
  // still there; what was not tracked has one entry more than departures if it is
  // tracked now, and as many otherwise.
  lemma OneRecordEach(t: Table, t1: Table, past: seq<Event>, ev: seq<Event>, used: set<string>, used1: set<string>, s: Slot)
    requires Balanced(t, past, used) && Balanced(t1, past + ev, used1)
    ensures s in t && Seen(s) !in ev ==> Departures(ev, s) == if s in t1 then 0 else 1
    ensures s !in t ==> Entries(ev, s) == Departures(ev, s) + if s in t1 then 1 else 0
  {
    Stretch(past, ev, s);
    KnownIds(past);
    if s in t && Seen(s) !in ev {
      forall e | e in ev ensures !(IsEntry(e) && e.slot == s) { }
      NoEntry(ev, s);
    }
  }
}
