// A queue drain copies the queue, works through the copy without the queue's lock,
// and then publishes what it kept; a webhook's fast path enqueues whenever it
// likes.  Requests are numbered in the order in which they are enqueued.
module QueueRace {
  import opened Basics

  // copy is the drain's own copy while one is under way; handled are the requests
  // that a drain launched or dropped.
  datatype State = State(queue: seq<nat>, copy: Option<seq<nat>>, handled: set<nat>, next: nat)

  const INITIAL := State([], None, {}, 0)

  datatype Action =
    | Enqueue
    | Copy
    | Publish(kept: set<nat>)
    | GiveUp                   // the pools cannot be loaded

  predicate Enabled(s: State, a: Action) {
    match a
    case Enqueue => true
    case Copy => s.copy.None? && s.queue != []
    case Publish(_) => s.copy.Some?
    case GiveUp => s.copy.Some?
  }

  // The copied requests that a drain keeps, in order.
  function Remaining(copy: seq<nat>, kept: set<nat>): seq<nat> {
    if copy == [] then []
    else Remaining(copy[..|copy| - 1], kept) + if copy[|copy| - 1] in kept then [copy[|copy| - 1]] else []
  }

  function Step(s: State, a: Action): State
    requires Enabled(s, a)
  {
    match a
    case Enqueue => s.(queue := s.queue + [s.next], next := s.next + 1)
    case Copy => s.(copy := Some(s.queue))
    case Publish(kept) =>
      s.(queue := Remaining(s.copy.value, kept), copy := None,
         handled := s.handled + set k | k in s.copy.value && k !in kept)
    case GiveUp => s.(copy := None)
  }

  ghost predicate IsRun(as_: seq<Action>)
    decreases |as_|, 0
  {
    as_ != [] ==> IsRun(as_[..|as_| - 1]) && Enabled(After(as_[..|as_| - 1]), as_[|as_| - 1])
  }

  ghost function After(as_: seq<Action>): State
    requires IsRun(as_)
    decreases |as_|, 1
  {
    if as_ == [] then INITIAL else Step(After(as_[..|as_| - 1]), as_[|as_| - 1])
  }

  // Enqueued, and neither waiting nor handled.
  predicate Lost(s: State, k: nat) {
    k < s.next && k !in s.queue && k !in s.handled
  }

  // The requests enqueued since the drain under way took its copy.
  ghost function Late(as_: seq<Action>): set<nat>
    requires IsRun(as_)
  {
    if as_ == [] then {}
    else
      var before := as_[..|as_| - 1];
      if !as_[|as_| - 1].Enqueue? then {}
      else if After(before).copy.None? then {}
      else Late(before) + {After(before).next}
  }

  // ... and those of them over whose heads a drain published.
  ghost function Overwritten(as_: seq<Action>): set<nat>
    requires IsRun(as_)
  {
    if as_ == [] then {}
    else
      var before := as_[..|as_| - 1];
      Overwritten(before) + if as_[|as_| - 1].Publish? then Late(before) else {}
  }

  lemma {:induction false} RemainingMembers(copy: seq<nat>, kept: set<nat>)
    ensures forall k :: k in Remaining(copy, kept) <==> k in copy && k in kept
  {
    if copy != [] {
      var before := copy[..|copy| - 1];
      RemainingMembers(before, kept);
      assert copy == before + [copy[|copy| - 1]];
    }
  }

  // What is in the queue beyond the drain's copy arrived late.
  ghost predicate Inv(s: State, late: set<nat>, lost: set<nat>) {
    && (forall k :: k in s.queue || k in s.handled || k in lost ==> k < s.next)
    && (forall k :: k in lost ==> k !in s.queue && k !in s.handled && (s.copy.Some? ==> k !in s.copy.value))
    && (forall k: nat :: k < s.next ==> k in s.queue || k in s.handled || k in lost)
    && (forall k :: k in s.queue ==> k !in s.handled)
    && (s.copy.None? ==> late == {})
    && (s.copy.Some? ==> forall k :: k in s.queue <==> k in s.copy.value || k in late)
    && (s.copy.Some? ==> forall k :: k in late ==> k !in s.copy.value)
  }

  lemma StepKeepsInv(s: State, a: Action, late: set<nat>, lost: set<nat>)
    requires Enabled(s, a) && Inv(s, late, lost)
    ensures Inv(Step(s, a), if a.Enqueue? && s.copy.Some? then late + {s.next} else {}, if a.Publish? then lost + late else lost)
  {
    if a.Publish? { RemainingMembers(s.copy.value, a.kept); }
  }

  lemma {:induction false} RunKeepsInv(as_: seq<Action>)
    requires IsRun(as_)
    ensures Inv(After(as_), Late(as_), Overwritten(as_))
  {
    if as_ == [] {
      assert After(as_) == INITIAL;
    } else {
      var before := as_[..|as_| - 1];
      RunKeepsInv(before);
      StepKeepsInv(After(before), as_[|as_| - 1], Late(before), Overwritten(before));
    }
  }

  // Over every run: a request is lost exactly when it was enqueued between a
  // drain's copy and the publication of that drain.
  lemma LostIffOverwritten(as_: seq<Action>, k: nat)
    requires IsRun(as_)
    ensures Lost(After(as_), k) <==> k in Overwritten(as_)
  {
    RunKeepsInv(as_);
  }

  lemma RunSnoc(as_: seq<Action>, a: Action)
    requires IsRun(as_) && Enabled(After(as_), a)
    ensures IsRun(as_ + [a]) && After(as_ + [a]) == Step(After(as_), a)
  {
    assert (as_ + [a])[..|as_|] == as_;
  }

  // A concrete case: the second request arrives while the first is being drained.
  lemma EnqueuedWhileDraining()
    ensures var as_ := [Enqueue, Copy, Enqueue, Publish({})];
      IsRun(as_) && Lost(After(as_), 1)
  {
    var as_ := [] + [Enqueue] + [Copy] + [Enqueue] + [Publish({})];
    RunSnoc([], Enqueue);
    RunSnoc([] + [Enqueue], Copy);
    RunSnoc([] + [Enqueue] + [Copy], Enqueue);
    RunSnoc([] + [Enqueue] + [Copy] + [Enqueue], Publish({}));
    RemainingMembers([0], {});
    assert as_ == [Enqueue, Copy, Enqueue, Publish({})];
  }
}
