/** The shared counter. */
module SentinelCounter {
  // It gives positions to sources without cluster times. Its document may be deleted at any moment, and
  // is then seeded again from the clock.

  import opened Wrappers

  const Word := 0x1_0000_0000

  function Seed(seconds: nat): nat {
    seconds * Word
  }

  /** The counter document; the store belongs to the source database, and others may delete from it. */
  class Counter {
    var i: Option<nat>

    /** Advance the counter, creating it first when it is missing, in at most three attempts.
        `deleted` says before which steps the document is deleted by someone else. */
    method CreateLsn(seconds: nat, deleted: seq<bool>) returns (r: Option<nat>)
      requires |deleted| == 3
      modifies this
      ensures r.Some? ==> i == r
      ensures r.None? ==> deleted[1] && deleted[2] && (old(i).None? || deleted[0])
      ensures r.Some? ==> r == Some((if old(i).Some? && !deleted[0] then old(i).value else Seed(seconds)) + 1)
    {
      for attempt := 0 to 3
        invariant attempt == 0 ==> i == old(i)
        invariant attempt > 0 ==> i == Some(Seed(seconds)) && (old(i).None? || deleted[0])
        invariant (attempt > 1 ==> deleted[1]) && (attempt > 2 ==> deleted[2])
      {
        if deleted[attempt] {
          i := None;
        }
        if i.Some? {
          i := Some(i.value + 1);
          return i;
        }
        i := Some(Seed(seconds));
      }
      return None;
    }
  }

  // ----- every run -----

  /** The document, the clock, and every coordinate handed out so far. */
  datatype State = State(i: Option<nat>, seconds: nat, issued: seq<nat>)

  datatype Action = Tick | Bump | Create | Delete

  predicate Enabled(s: State, a: Action) {
    match a
    case Tick => true
    case Bump => s.i.Some?
    case Create => s.i.None?
    case Delete => true
  }

  function Step(s: State, a: Action): State
    requires Enabled(s, a)
  {
    match a
    case Tick => s.(seconds := s.seconds + 1)
    case Bump => s.(i := Some(s.i.value + 1), issued := s.issued + [s.i.value + 1])
    case Create => s.(i := Some(Seed(s.seconds)))
    case Delete => s.(i := None)
  }

  function Last(s: State): nat {
    if s.issued == [] then 0 else s.issued[|s.issued| - 1]
  }

  ghost predicate Increasing(issued: seq<nat>) {
    forall j, k :: 0 <= j < k < |issued| ==> issued[j] < issued[k]
  }

  /** The counter never falls behind what it has handed out. */
  ghost predicate Ahead(s: State) {
    Increasing(s.issued) && (s.i.Some? ==> Last(s) <= s.i.value)
  }

  /** A new document keeps the counter ahead exactly when the clock, as a coordinate, has reached what was
      handed out last. */
  predicate MayCreate(s: State) {
    Last(s) <= Seed(s.seconds)
  }

  ghost predicate IsRun(s: State, actions: seq<Action>)
    decreases |actions|
  {
    actions == [] || (Enabled(s, actions[0]) && IsRun(Step(s, actions[0]), actions[1..]))
  }

  function Final(s: State, actions: seq<Action>): State
    requires IsRun(s, actions)
    decreases |actions|
  {
    if actions == [] then s else Final(Step(s, actions[0]), actions[1..])
  }

  ghost predicate SeedsLate(s: State, actions: seq<Action>)
    requires IsRun(s, actions)
    decreases |actions|
  {
    actions == [] || ((actions[0] == Create ==> MayCreate(s)) && SeedsLate(Step(s, actions[0]), actions[1..]))
  }

  /** With that, coordinates strictly increase over every run, whatever is deleted whenever. */
  lemma {:induction false} CoordinatesIncrease(s: State, actions: seq<Action>)
    requires Ahead(s) && IsRun(s, actions) && SeedsLate(s, actions)
    ensures Ahead(Final(s, actions))
    decreases |actions|
  {
    if actions != [] { CoordinatesIncrease(Step(s, actions[0]), actions[1..]); }
  }

  /** Creating the document is harmless exactly then: otherwise the next coordinate is not above the last. */
  lemma CreateIsSafeIff(s: State)
    requires Ahead(s) && s.i.None? && s.issued != []
    ensures MayCreate(s) <==> Increasing(Step(Step(s, Create), Bump).issued)
  {
    var t := Step(Step(s, Create), Bump);
    var n := |s.issued|;
    assert t.issued[n] == Seed(s.seconds) + 1 && t.issued[n - 1] == Last(s);
  }

  /** A document created in a later second than the last coordinate was handed out in is safe. */
  lemma LaterSecondIsSafe(s: State, issuedAt: nat)
    requires Last(s) < Seed(issuedAt + 1) && issuedAt < s.seconds
    ensures MayCreate(s)
  {
    assert (issuedAt + 1) * Word <= s.seconds * Word;
  }

  /** Fewer than 2^32 coordinates are handed out in any second, and no document is created in a second in
      which one was. */
  ghost predicate Paced(s: State, bumps: nat, issuedAt: Option<nat>, actions: seq<Action>)
    requires IsRun(s, actions)
    decreases |actions|
  {
    actions == [] ||
    var next := Step(s, actions[0]);
    match actions[0]
    case Tick => Paced(next, 0, issuedAt, actions[1..])
    case Bump => bumps + 1 < Word && Paced(next, bumps + 1, Some(s.seconds), actions[1..])
    case Create => (issuedAt.None? || issuedAt.value < s.seconds) && Paced(next, bumps, issuedAt, actions[1..])
    case Delete => Paced(next, bumps, issuedAt, actions[1..])
  }

  /** At that pace the counter stays within the second, and what was handed out within its own. */
  ghost predicate InPace(s: State, bumps: nat, issuedAt: Option<nat>) {
    && bumps < Word && (s.i.Some? ==> s.i.value <= Seed(s.seconds) + bumps)
    && (if s.issued == [] then issuedAt.None?
        else issuedAt.Some? && issuedAt.value <= s.seconds && Last(s) < Seed(issuedAt.value + 1))
  }

  lemma {:induction false} PacedSeedsLate(s: State, bumps: nat, issuedAt: Option<nat>, actions: seq<Action>)
    requires InPace(s, bumps, issuedAt) && IsRun(s, actions) && Paced(s, bumps, issuedAt, actions)
    ensures SeedsLate(s, actions)
    decreases |actions|
  {
    if actions != [] {
      var next, rest := Step(s, actions[0]), actions[1..];
      match actions[0]
      case Tick => PacedSeedsLate(next, 0, issuedAt, rest);
      case Bump => PacedSeedsLate(next, bumps + 1, Some(s.seconds), rest);
      case Create =>
        if issuedAt.Some? { LaterSecondIsSafe(s, issuedAt.value); }
        PacedSeedsLate(next, bumps, issuedAt, rest);
      case Delete => PacedSeedsLate(next, bumps, issuedAt, rest);
    }
  }

  /** In every run at that pace coordinates strictly increase, whatever is deleted whenever. */
  lemma PacedRunsIncrease(seconds: nat, actions: seq<Action>)
    requires IsRun(State(None, seconds, []), actions) && Paced(State(None, seconds, []), 0, None, actions)
    ensures Increasing(Final(State(None, seconds, []), actions).issued)
  {
    PacedSeedsLate(State(None, seconds, []), 0, None, actions);
    CoordinatesIncrease(State(None, seconds, []), actions);
  }

  /** In the same second it is not: one coordinate is handed out twice. */
  lemma SameSecondRepeats() returns (actions: seq<Action>)
    ensures IsRun(State(None, 1, []), actions) && !Increasing(Final(State(None, 1, []), actions).issued)
  {
    actions := [Create, Bump, Delete, Create, Bump];
    var s0 := State(None, 1, []);
    var s1 := Step(s0, Create);
    var s2 := Step(s1, Bump);
    var s3 := Step(s2, Delete);
    var s4 := Step(s3, Create);
    var s5 := Step(s4, Bump);
    assert actions[1..] == [Bump, Delete, Create, Bump];
    assert actions[1..][1..] == [Delete, Create, Bump];
    assert actions[1..][1..][1..] == [Create, Bump];
    assert actions[1..][1..][1..][1..] == [Bump];
    assert actions[1..][1..][1..][1..][1..] == [];
    assert IsRun(s5, []) && IsRun(s4, [Bump]) && IsRun(s3, [Create, Bump]) && IsRun(s2, [Delete, Create, Bump]);
    assert IsRun(s1, [Bump, Delete, Create, Bump]);
    assert Final(s0, actions) == s5;
    assert s5.issued[0] == s5.issued[1];
  }
}
