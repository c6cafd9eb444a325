/** Lease locks. */
module Leases {
  // One abstract machine, and the two stores that implement it.

  import opened Wrappers

  /** The stored lease. */
  datatype Lease = Lease(owner: nat, ts: int)

  type Row = Option<Lease>

  // ----- what a store does -----

  function Acquire(row: Row, id: nat, now: int, timeout: nat): Row {
    if row.None? || row.value.ts <= now - timeout then Some(Lease(id, now)) else row
  }

  predicate Acquired(row: Row, now: int, timeout: nat) {
    row.None? || row.value.ts <= now - timeout
  }

  predicate Owns(row: Row, id: nat) {
    row.Some? && row.value.owner == id
  }

  function Refresh(row: Row, id: nat, now: int): Row {
    if Owns(row, id) then Some(Lease(id, now)) else row
  }

  function Release(row: Row, id: nat): Row {
    if Owns(row, id) then None else row
  }

  // ----- the MongoDB store -----

  /** The lock document keeps its name when the lease is released. */
  class MongoLock {
    var created: bool
    var activeLock: Row

    ghost function Abs(): Row
      reads this
    {
      if created then activeLock else None
    }

    constructor ()
      ensures Abs() == None && !created
    {
      created := false;
      activeLock := None;
    }

    method GetHandle(id: nat, now: int, timeout: nat) returns (ok: bool)
      requires !Owns(Abs(), id)
      modifies this
      ensures Abs() == Acquire(old(Abs()), id, now, timeout) && ok == Acquired(old(Abs()), now, timeout)
    {
      if !created {
        created := true;
        activeLock := None;
      }
      var expired := now - timeout;
      var modifiedCount := 0;
      if activeLock.None? || activeLock.value.ts <= expired {
        activeLock := Some(Lease(id, now));
        modifiedCount := 1;
      }
      ok := modifiedCount != 0;
    }

    /** An update that changes nothing does not count as one: a refresh within the same millisecond is
        reported as a lost lock, although the lease is still held. */
    method RefreshHandle(id: nat, now: int) returns (ok: bool)
      modifies this
      ensures Abs() == Refresh(old(Abs()), id, now)
      ensures ok <==> Owns(old(Abs()), id) && old(Abs()).value.ts != now
    {
      var modifiedCount := 0;
      if created && activeLock.Some? && activeLock.value.owner == id {
        if activeLock.value.ts != now {
          modifiedCount := 1;
        }
        activeLock := Some(Lease(id, now));
      }
      ok := modifiedCount != 0;
    }

    method ReleaseHandle(id: nat) returns (ok: bool)
      modifies this
      ensures Abs() == Release(old(Abs()), id) && ok == Owns(old(Abs()), id)
    {
      ok := created && activeLock.Some? && activeLock.value.owner == id;
      if ok {
        activeLock := None;
      }
    }
  }

  // ----- the PostgreSQL store -----

  /** The row is deleted on release, and updated in place on conflict. */
  class PostgresLock {
    var row: Row

    constructor ()
      ensures row == None
    {
      row := None;
    }

    method AcquireId(id: nat, now: int, timeout: nat) returns (ok: bool)
      requires !Owns(row, id)
      modifies this
      ensures row == Acquire(old(row), id, now, timeout) && ok == Acquired(old(row), now, timeout)
    {
      if row.None? {
        row := Some(Lease(id, now));
      } else {
        var expired := row.value.ts <= now - timeout;
        row := Some(Lease(if expired then id else row.value.owner, if expired then now else row.value.ts));
      }
      ok := row.value.owner == id;
    }

    method RefreshHandle(id: nat, now: int) returns (ok: bool)
      modifies this
      ensures row == Refresh(old(row), id, now) && ok == Owns(old(row), id)
    {
      ok := row.Some? && row.value.owner == id;
      if ok {
        row := Some(Lease(id, now));
      }
    }

    method ReleaseHandle(id: nat) returns (ok: bool)
      modifies this
      ensures row == Release(old(row), id) && ok == Owns(old(row), id)
    {
      ok := row.Some? && row.value.owner == id;
      if ok {
        row := None;
      }
    }
  }

  // ----- runs of many handles on one store -----

  /** A request carries the time it was made at, is executed later, and is acknowledged later still. */
  datatype Request = Idle | Asked(at: int) | Executed(at: int, ok: bool)

  datatype Handle = Handle(acquire: Request, lastAck: Option<int>, refresh: Request, releasing: bool)

  datatype State = State(clock: int, timeout: nat, row: Row, handles: map<nat, Handle>)

  datatype Action =
    | Tick(elapsed: nat)
    | AskAcquire(id: nat)
    | ExecuteAcquire(id: nat)
    | AckAcquire(id: nat)
    | AskRefresh(id: nat)
    | ExecuteRefresh(id: nat, acked: bool)
    | AckRefresh(id: nat)
    | AskRelease(id: nat)
    | ExecuteRelease(id: nat)

  /** Ids are fresh, and a handle has at most one refresh outstanding. */
  predicate Enabled(s: State, a: Action) {
    match a
    case Tick(_) => true
    case AskAcquire(id) => id !in s.handles
    case ExecuteAcquire(id) => id in s.handles && s.handles[id].acquire.Asked?
    case AckAcquire(id) => id in s.handles && s.handles[id].acquire.Executed? && s.handles[id].acquire.ok && s.handles[id].lastAck.None?
    case AskRefresh(id) => id in s.handles && s.handles[id].lastAck.Some? && s.handles[id].refresh.Idle?
    case ExecuteRefresh(id, acked) =>
      id in s.handles && s.handles[id].refresh.Asked? && (acked ==> Owns(s.row, id))
    case AckRefresh(id) => id in s.handles && s.handles[id].refresh.Executed?
    case AskRelease(id) => id in s.handles && s.handles[id].lastAck.Some?
    case ExecuteRelease(id) => id in s.handles && s.handles[id].releasing
  }

  function Step(s: State, a: Action): State
    requires Enabled(s, a)
  {
    match a
    case Tick(elapsed) => s.(clock := s.clock + elapsed)
    case AskAcquire(id) => s.(handles := s.handles[id := Handle(Asked(s.clock), None, Idle, false)])
    case ExecuteAcquire(id) =>
      var h := s.handles[id];
      s.(row := Acquire(s.row, id, h.acquire.at, s.timeout),
         handles := s.handles[id := h.(acquire := Executed(h.acquire.at, Acquired(s.row, h.acquire.at, s.timeout)))])
    case AckAcquire(id) => var h := s.handles[id]; s.(handles := s.handles[id := h.(lastAck := Some(h.acquire.at))])
    case AskRefresh(id) => var h := s.handles[id]; s.(handles := s.handles[id := h.(refresh := Asked(s.clock))])
    case ExecuteRefresh(id, acked) =>
      var h := s.handles[id];
      s.(row := Refresh(s.row, id, h.refresh.at), handles := s.handles[id := h.(refresh := Executed(h.refresh.at, acked))])
    case AckRefresh(id) =>
      var h := s.handles[id];
      s.(handles := s.handles[id := h.(refresh := Idle, lastAck := if h.refresh.ok then Some(h.refresh.at) else h.lastAck)])
    case AskRelease(id) => s.(handles := s.handles[id := s.handles[id].(releasing := true)])
    case ExecuteRelease(id) => s.(row := Release(s.row, id))
  }

  /** The latest time a handle may rely on. */
  function Claim(h: Handle): Option<int> {
    if h.refresh.Executed? && h.refresh.ok then Some(h.refresh.at)
    else if h.lastAck.Some? then h.lastAck
    else if h.acquire.Executed? && h.acquire.ok then Some(h.acquire.at)
    else None
  }

  ghost predicate TimesOk(s: State, h: Handle) {
    && (h.acquire.Idle? || h.acquire.at <= s.clock) && (h.lastAck.Some? ==> h.acquire.Executed? && h.acquire.ok && h.lastAck.value <= s.clock)
    && (!h.refresh.Idle? ==> h.lastAck.Some? && h.lastAck.value <= h.refresh.at <= s.clock)
  }

  /** A claim that has not expired is backed by the row. */
  ghost predicate Backed(s: State, id: nat, h: Handle) {
    Claim(h).Some? && !h.releasing && Claim(h).value + s.timeout > s.clock ==> Owns(s.row, id) && Claim(h).value <= s.row.value.ts
  }

  ghost predicate Inv(s: State) {
    && (forall id :: id in s.handles ==> TimesOk(s, s.handles[id]) && Backed(s, id, s.handles[id]))
    && (s.row.Some? ==> s.row.value.owner in s.handles && s.handles[s.row.value.owner].acquire.Executed? && s.row.value.ts <= s.clock)
  }

  lemma StepKeepsInv(s: State, a: Action)
    requires Inv(s) && Enabled(s, a)
    ensures Inv(Step(s, a))
  {
  }

  ghost predicate IsRun(s: State, actions: seq<Action>)
    decreases |actions|
  {
    actions == [] || (Enabled(s, actions[0]) && IsRun(Step(s, actions[0]), actions[1..]))
  }

  ghost function Final(s: State, actions: seq<Action>): State
    requires IsRun(s, actions)
    decreases |actions|
  {
    if actions == [] then s else Final(Step(s, actions[0]), actions[1..])
  }

  lemma {:induction false} RunKeepsInv(s: State, actions: seq<Action>)
    requires Inv(s) && IsRun(s, actions)
    ensures Inv(Final(s, actions))
    decreases |actions|
  {
    if actions != [] {
      StepKeepsInv(s, actions[0]);
      RunKeepsInv(Step(s, actions[0]), actions[1..]);
    }
  }

  function Fresh(clock: int, timeout: nat): State {
    State(clock, timeout, None, map[])
  }

  /** A handle whose last acknowledged time has not expired, and that is not being released, owns the
      row; so no two handles ever hold the lock at once. */
  lemma LeaseIsSafe(clock: int, timeout: nat, actions: seq<Action>, id: nat)
    requires IsRun(Fresh(clock, timeout), actions)
    requires var s := Final(Fresh(clock, timeout), actions);
             id in s.handles && s.handles[id].lastAck.Some? && !s.handles[id].releasing
             && s.handles[id].lastAck.value + s.timeout > s.clock
    ensures Owns(Final(Fresh(clock, timeout), actions).row, id)
  {
    RunKeepsInv(Fresh(clock, timeout), actions);
    var s := Final(Fresh(clock, timeout), actions);
    assert TimesOk(s, s.handles[id]) && Backed(s, id, s.handles[id]);
  }

  /** The lock of this handle has been lost: it acquired, and does not own the row. */
  ghost predicate Lost(s: State, id: nat) {
    id in s.handles && s.handles[id].acquire.Executed? && !Owns(s.row, id)
  }

  lemma StepKeepsLost(s: State, a: Action, id: nat)
    requires Lost(s, id) && Enabled(s, a)
    ensures Lost(Step(s, a), id)
    ensures (a.ExecuteRefresh? || a.ExecuteRelease?) && a.id == id ==> Step(s, a).row == s.row && (a.ExecuteRefresh? ==> !a.acked)
  {
  }

  /** After a takeover the old handle never owns the row again: its refreshes always fail, and neither they
      nor its release alter the row of the new owner. */
  lemma {:induction false} LostForGood(s: State, actions: seq<Action>, id: nat, a: Action)
    requires Lost(s, id) && IsRun(s, actions) && Enabled(Final(s, actions), a)
    ensures Lost(Final(s, actions), id)
    ensures (a.ExecuteRefresh? || a.ExecuteRelease?) && a.id == id ==>
              Step(Final(s, actions), a).row == Final(s, actions).row && (a.ExecuteRefresh? ==> !a.acked)
    decreases |actions|
  {
    if actions == [] {
      StepKeepsLost(s, a, id);
    } else {
      StepKeepsLost(s, actions[0], id);
      LostForGood(Step(s, actions[0]), actions[1..], id, a);
    }
  }
}
