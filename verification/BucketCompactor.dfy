/** The bucket compactor. */
module BucketCompactor {
  // One pass from the newest operation down, then clearing in batches.

  import opened Wrappers
  import opened Buckets
  import opened Compaction

  // ----- MOVE -----

  function AsMove(op: Op, target: nat): Op {
    Op(op.id, Move(Some(target)), op.checksum)
  }

  /** The bucket once queued updates are written. */
  function Updated(ops: seq<Op>, updates: map<nat, nat>): (r: seq<Op>)
    ensures |r| == |ops|
    ensures forall k :: 0 <= k < |ops| ==> r[k] == if ops[k].id in updates then AsMove(ops[k], updates[ops[k].id]) else ops[k]
  {
    seq(|ops|, k requires 0 <= k < |ops| => if ops[k].id in updates then AsMove(ops[k], updates[ops[k].id]) else ops[k])
  }

  /** Turning a superseded operation into a MOVE keeps the bucket what it was. */
  lemma MoveKeepsStored(history: seq<Op>, ops: seq<Op>, n: nat, k: nat, j: nat)
    requires IsHistory(history) && Stores(history, ops, n) && k < j < |ops| && SameRow(ops[k], ops[j])
    ensures Stores(history, ops[k := AsMove(ops[k], ops[j].id)], n)
  {
    var off := Offset(n);
    assert k >= off;
    assert Kept(history, k - off + n, ops[k]) && Kept(history, j - off + n, ops[j]);
    assert Superseded(history, k - off + n, ops[j].id);
    var moved := ops[k := AsMove(ops[k], ops[j].id)];
    forall i | off <= i < |moved| ensures Kept(history, i - off + n, moved[i]) {
      assert Kept(history, i - off + n, ops[i]);
    }
  }

  // ----- CLEAR -----

  function MaxTarget(ops: seq<Op>): Option<nat> {
    if ops == [] then None
    else
      var before := MaxTarget(ops[..|ops| - 1]);
      var op := ops[|ops| - 1];
      if !RowOp(op) && op.kind.target.Some? && (before.None? || op.kind.target.value > before.value) then op.kind.target else before
  }

  lemma {:induction false} MaxTargetIsMax(ops: seq<Op>, k: nat)
    requires k < |ops| && !RowOp(ops[k]) && ops[k].kind.target.Some?
    ensures MaxTarget(ops).Some? && ops[k].kind.target.value <= MaxTarget(ops).value
  {
    if k < |ops| - 1 { MaxTargetIsMax(ops[..|ops| - 1], k); }
  }

  /** A start with no PUT in it, as one CLEAR. */
  function ClearOf(ops: seq<Op>): Op
    requires |ops| > 0
  {
    Op(ops[|ops| - 1].id, Clear(MaxTarget(ops)), ToInt32(Sum(ops)))
  }

  ghost predicate NoPuts(ops: seq<Op>) {
    forall i :: 0 <= i < |ops| ==> !ops[i].kind.Put?
  }

  lemma GoneWithLarger(history: seq<Op>, i: nat, target: nat, larger: nat)
    requires i < |history| && Superseded(history, i, target) && target <= larger
    ensures Superseded(history, i, larger)
  {
    var j :| i < j < |history| && SameRow(history[i], history[j]) && history[j].id <= target;
    assert history[j].id <= larger;
  }

  lemma ClearedAreGone(history: seq<Op>, ops: seq<Op>, n: nat, k: nat, i: nat)
    requires IsHistory(history) && Stores(history, ops, n) && 0 < k <= |ops| && NoPuts(ops[..k]) && i < n + k - Offset(n)
    ensures Gone(history, i, MaxTarget(ops[..k]))
  {
    if i < n {
      assert Gone(history, i, ops[0].kind.target);
      if !history[i].kind.Remove? {
        assert ops[..k][0] == ops[0];
        MaxTargetIsMax(ops[..k], 0);
        GoneWithLarger(history, i, ops[0].kind.target.value, MaxTarget(ops[..k]).value);
      }
    } else {
      var at := i - n + Offset(n);
      assert Kept(history, at - Offset(n) + n, ops[at]) && ops[..k][at] == ops[at];
      if !history[i].kind.Remove? {
        MaxTargetIsMax(ops[..k], at);
        GoneWithLarger(history, i, ops[at].kind.target.value, MaxTarget(ops[..k]).value);
      }
    }
  }

  /** Replacing a start without PUTs by its CLEAR keeps the bucket what it was. */
  lemma ClearKeepsStored(history: seq<Op>, ops: seq<Op>, n: nat, k: nat)
    requires IsHistory(history) && Stores(history, ops, n) && 0 < k <= |ops| && NoPuts(ops[..k])
    ensures Stores(history, [ClearOf(ops[..k])] + ops[k..], n + k - Offset(n))
  {
    StartIsCleared(history, ops, n, k);
    OthersAreKept(history, ops, n, k, [ClearOf(ops[..k])] + ops[k..]);
  }

  lemma StartIsCleared(history: seq<Op>, ops: seq<Op>, n: nat, k: nat)
    requires IsHistory(history) && Stores(history, ops, n) && 0 < k <= |ops| && NoPuts(ops[..k])
    ensures var m := n + k - Offset(n); 0 < m <= |history| && Cleared(history, m, ClearOf(ops[..k]))
  {
    var m := n + k - Offset(n);
    LastClearedId(history, ops, n, k);
    forall i | 0 <= i < m ensures Gone(history, i, MaxTarget(ops[..k])) {
      ClearedAreGone(history, ops, n, k, i);
    }
    StartSum(history, ops, n, k);
  }

  lemma LastClearedId(history: seq<Op>, ops: seq<Op>, n: nat, k: nat)
    requires Stores(history, ops, n) && 0 < k <= |ops|
    ensures var m := n + k - Offset(n); 0 < m <= |history| && history[m - 1].id == ops[k - 1].id
  {
    if k > Offset(n) {
      assert Kept(history, k - 1 - Offset(n) + n, ops[k - 1]);
    }
  }

  lemma OthersAreKept(history: seq<Op>, ops: seq<Op>, n: nat, k: nat, cleared: seq<Op>)
    requires Stores(history, ops, n) && 0 < k <= |ops| && |cleared| > 0 && cleared[1..] == ops[k..]
    ensures forall i :: 1 <= i < |cleared| ==> i - 1 + n + k - Offset(n) < |history| && Kept(history, i - 1 + n + k - Offset(n), cleared[i])
  {
    forall i | 1 <= i < |cleared|
      ensures i - 1 + n + k - Offset(n) < |history| && Kept(history, i - 1 + n + k - Offset(n), cleared[i])
    {
      assert cleared[i] == cleared[1..][i - 1] == ops[i - 1 + k];
      assert Kept(history, i - 1 + k - Offset(n) + n, ops[i - 1 + k]);
    }
  }

  /** Replacing any start without PUTs by a CLEAR of its summed checksums keeps the reduction exactly
      when the operations before its own last CLEAR sum to nothing: a CLEAR may only come first. */
  lemma ClearIsSafeIff(start: seq<Op>, clear: Op)
    requires NoPuts(start) && clear.kind.Clear? && clear.checksum == ToInt32(Sum(start)) && CanonicalOps(start)
    ensures Reduce([clear]) == Reduce(start) <==> Same(Sum(start), SinceClear(start))
  {
    assert [clear][..0] == [];
    NoRows(start);
    ChecksumIsKept(start);
    OtherIsCanonical(start);
    ToInt32Keeps(Sum(start), 0);
    assert SumRows(map[]) == 0;
  }

  lemma {:induction false} NoRows(ops: seq<Op>)
    requires NoPuts(ops)
    ensures Reduce(ops).rows == map[]
  {
    if ops != [] { NoRows(ops[..|ops| - 1]); }
  }

  /** A CLEAR between MOVEs: summing everything would bring back what it cleared. */
  lemma ClearInTheMiddleIsUnsafe()
    ensures var start := [Op(1, Move(None), 5), Op(2, Clear(None), 7), Op(3, Move(None), 9)];
            NoPuts(start) && Reduce([Op(3, Clear(None), ToInt32(Sum(start)))]) != Reduce(start)
  {
    var a, b, c := Op(1, Move(None), 5), Op(2, Clear(None), 7), Op(3, Move(None), 9);
    SumOne(a);
    SumConcat([a], [b]);
    SumConcat([a, b], [c]);
    SumOne(b);
    SumOne(c);
    assert [a] + [b] == [a, b] && [a, b] + [c] == [a, b, c] && [a, b, c][..2] == [a, b];
    assert SinceClear([a, b]) == 7;
    ClearIsSafeIff([a, b, c], Op(3, Clear(None), ToInt32(Sum([a, b, c]))));
  }

  // ----- the compactor -----

  predicate IsFor(op: Op, row: RowId, id: nat) {
    RowOp(op) && RowOf(op) == row && op.id == id
  }

  /** What the tracked rows say: each has an operation at or after i, with the id that is tracked. */
  ghost predicate Tracks(ops: seq<Op>, i: nat, seen: map<RowId, nat>) {
    forall row :: row in seen ==> exists j :: i <= j < |ops| && IsFor(ops[j], row, seen[row])
  }

  ghost predicate NoPutsFrom(ops: seq<Op>, i: nat, p: nat) {
    p < |ops| && forall t :: i <= t <= p ==> !ops[t].kind.Put?
  }

  /** The newest operation with no PUT at or before it, of those from i on. */
  ghost predicate Clearable(ops: seq<Op>, i: nat, lastNotPut: Option<nat>) {
    lastNotPut.Some? ==> exists p :: i <= p && NoPutsFrom(ops, i, p) && ops[p].id == lastNotPut.value
  }

  /** Changing an operation before i leaves what is known of the rest. */
  lemma LaterIsStill(ops: seq<Op>, i: nat, seen: map<RowId, nat>, lastNotPut: Option<nat>, k: nat, op: Op)
    requires k < i <= |ops| && Tracks(ops, i, seen) && Clearable(ops, i, lastNotPut)
    ensures Tracks(ops[k := op], i, seen) && Clearable(ops[k := op], i, lastNotPut)
  {
    var changed := ops[k := op];
    forall row | row in seen ensures exists j :: i <= j < |changed| && IsFor(changed[j], row, seen[row]) {
      var j :| i <= j < |ops| && IsFor(ops[j], row, seen[row]);
      assert IsFor(changed[j], row, seen[row]);
    }
    if lastNotPut.Some? {
      var p :| i <= p && NoPutsFrom(ops, i, p) && ops[p].id == lastNotPut.value;
      assert NoPutsFrom(changed, i, p);
    }
  }

  lemma TracksLower(ops: seq<Op>, i: nat, seen: map<RowId, nat>)
    requires i < |ops| && Tracks(ops, i + 1, seen)
    ensures Tracks(ops, i, seen)
  {
    forall row | row in seen ensures exists j :: i <= j < |ops| && IsFor(ops[j], row, seen[row]) {
      var j :| i + 1 <= j < |ops| && IsFor(ops[j], row, seen[row]);
    }
  }

  lemma TracksOne(ops: seq<Op>, i: nat, seen: map<RowId, nat>)
    requires i < |ops| && Tracks(ops, i + 1, seen) && RowOp(ops[i])
    ensures Tracks(ops, i, seen) && Tracks(ops, i, seen[RowOf(ops[i]) := ops[i].id])
  {
    TracksLower(ops, i, seen);
    var more := seen[RowOf(ops[i]) := ops[i].id];
    forall row | row in more ensures exists j :: i <= j < |ops| && IsFor(ops[j], row, more[row]) {
      if row == RowOf(ops[i]) {
        assert IsFor(ops[i], row, more[row]);
      } else {
        var j :| i <= j < |ops| && IsFor(ops[j], row, seen[row]);
      }
    }
  }

  lemma ClearableLower(ops: seq<Op>, i: nat, lastNotPut: Option<nat>)
    requires i < |ops| && Clearable(ops, i + 1, lastNotPut) && !ops[i].kind.Put?
    ensures Clearable(ops, i, lastNotPut) && Clearable(ops, i, Some(ops[i].id))
  {
    assert NoPutsFrom(ops, i, i);
    if lastNotPut.Some? {
      var p :| i + 1 <= p && NoPutsFrom(ops, i + 1, p) && ops[p].id == lastNotPut.value;
      assert NoPutsFrom(ops, i, p);
    }
  }

  lemma SupersedeOne(ops: seq<Op>, updates: map<nat, nat>, i: nat, target: nat)
    requires Increasing(ops) && i < |ops| && ops[i].id !in updates
    ensures Updated(ops, updates[ops[i].id := target]) == Updated(ops, updates)[i := AsMove(ops[i], target)]
  {
  }

  /** An operation whose row has been seen is superseded, and may be stored as a MOVE. */
  lemma SeenSupersedes(history: seq<Op>, ops: seq<Op>, n: nat, i: nat, seen: map<RowId, nat>, row: RowId)
    requires IsHistory(history) && Stores(history, ops, n) && i < |ops| && Tracks(ops, i + 1, seen)
    requires row in seen && RowOp(ops[i]) && RowOf(ops[i]) == row
    ensures Stores(history, ops[i := AsMove(ops[i], seen[row])], n)
  {
    var j :| i + 1 <= j < |ops| && IsFor(ops[j], row, seen[row]);
    MoveKeepsStored(history, ops, n, i, j);
  }

  /** What has been cleared was cleared at or before c. */
  ghost predicate StartsBy(ops: seq<Op>, n: nat, c: nat) {
    n > 0 && |ops| > 0 ==> ops[0].id <= c
  }

  /** The checksum of the stored operations up to c is that of the history up to c. */
  lemma SumUpTo(history: seq<Op>, ops: seq<Op>, n: nat, c: nat)
    requires IsHistory(history) && Stores(history, ops, n) && StartsBy(ops, n, c)
    ensures Same(Sum(ops[..Count(ops, c)]), Sum(history[..Count(history, c)]))
  {
    StoredIsIncreasing(history, ops, n);
    CountSplits(history, c);
    assert n <= Count(history, c) by {
      assert n > 0 ==> ops[0].id == history[n - 1].id;
    }
    CountMatches(history, ops, n, c);
    StartSum(history, ops, n, Count(ops, c));
  }

  /** When the pass is done, everything up to the operation it found is free of PUTs. */
  lemma ClearableIsFree(ops: seq<Op>, clearOp: nat, n: nat)
    requires Increasing(ops) && Clearable(ops, 0, Some(clearOp))
    ensures NoPuts(ops[..Count(ops, clearOp)]) && StartsBy(ops, n, clearOp)
  {
    var p :| 0 <= p && NoPutsFrom(ops, 0, p) && ops[p].id == clearOp;
    CountSplits(ops, clearOp);
    if p + 1 < |ops| {
      assert ops[p].id < ops[p + 1].id;
    }
    assert Count(ops, clearOp) == p + 1;
  }

  // ----- what a pass achieves -----

  /** Between two positions, no two row operations are of one row. */
  ghost predicate OneEach(ops: seq<Op>, i: nat, m: nat) {
    forall a, b :: i <= a < b < m && b < |ops| && RowOp(ops[a]) && RowOp(ops[b]) ==> RowOf(ops[a]) != RowOf(ops[b])
  }

  /** Unless memory has run out, the rows of the operations looked at are tracked, and none has two. */
  ghost predicate RowsSwept(ops: seq<Op>, i: nat, m: nat, seen: map<RowId, nat>, roomLeft: bool) {
    roomLeft ==> OneEach(ops, i, m) && forall j :: i <= j < m && j < |ops| && RowOp(ops[j]) ==> RowOf(ops[j]) in seen
  }

  ghost predicate PutOrEnd(ops: seq<Op>, i: nat, m: nat) {
    i < m && i < |ops| ==> ops[i].kind.Put?
  }

  /** What may be cleared reaches up to a PUT, or to the end. */
  ghost predicate Topped(ops: seq<Op>, i: nat, m: nat, lastNotPut: Option<nat>) {
    match lastNotPut
    case None => PutOrEnd(ops, i, m) || (i < |ops| && ops[i].kind.Clear? && PutOrEnd(ops, i + 1, m))
    case Some(id) => exists p :: i <= p < m && p < |ops| && ops[p].id == id && PutOrEnd(ops, p + 1, m)
  }

  /** One operation has been looked at: it is stored as it was, or as a MOVE when its row has been seen. */
  ghost predicate Looked(ops: seq<Op>, changed: seq<Op>, i: nat, seen: map<RowId, nat>, seen': map<RowId, nat>, room: bool, room': bool) {
    && i < |ops| == |changed| && (forall k :: 0 <= k < |ops| && k != i ==> changed[k] == ops[k]) && changed[i].id == ops[i].id
    && (room' ==> room) && (forall row :: row in seen ==> row in seen')
    && (RowOp(changed[i]) ==> changed[i] == ops[i] && (room' ==> RowOf(ops[i]) !in seen && RowOf(ops[i]) in seen'))
  }

  /** The newest operation with no PUT at or before it, after one more. */
  function NextNotPut(op: Op, last: Option<nat>): Option<nat> {
    if op.kind.Put? then None else if op.kind.Clear? || last.Some? then last else Some(op.id)
  }

  lemma SweepsOne(ops: seq<Op>, changed: seq<Op>, i: nat, m: nat, seen: map<RowId, nat>, seen': map<RowId, nat>, room: bool, room': bool)
    requires Looked(ops, changed, i, seen, seen', room, room') && i < m <= |ops|
    requires RowsSwept(ops, i + 1, m, seen, room)
    ensures RowsSwept(changed, i, m, seen', room')
  {
  }

  lemma ToppedOne(ops: seq<Op>, changed: seq<Op>, i: nat, m: nat, last: Option<nat>)
    requires i < m <= |ops| == |changed| && (forall k :: 0 <= k < |ops| && k != i ==> changed[k] == ops[k])
    requires (forall k :: 1 <= k < |ops| ==> !ops[k].kind.Clear?) && Topped(ops, i + 1, m, last)
    ensures Topped(changed, i, m, NextNotPut(changed[i], last))
  {
    if last.Some? {
      var p :| i + 1 <= p < m && p < |ops| && ops[p].id == last.value && PutOrEnd(ops, p + 1, m);
      assert changed[p].id == last.value && PutOrEnd(changed, p + 1, m);
    } else {
      assert PutOrEnd(changed, i + 1, m);
    }
  }

  class Compactor {
    /** The stored operations of the bucket, and the updates not written yet. */
    var ops: seq<Op>
    var updates: map<nat, nat>
    /** The position of the pass: rows seen after it, and how much memory they are taken to use. */
    var seen: map<RowId, nat>
    var trackingSize: nat
    var lastNotPut: Option<nat>
    var opsSincePut: nat
    var checksum: int
    var opCount: nat

    constructor (ops: seq<Op>)
      ensures this.ops == ops && updates == map[] && seen == map[] && lastNotPut == None && opsSincePut == 0
      ensures trackingSize == 0 && checksum == 0 && opCount == 0
    {
      this.ops := ops;
      updates := map[];
      seen := map[];
      trackingSize := 0;
      lastNotPut := None;
      opsSincePut := 0;
      checksum := 0;
      opCount := 0;
    }

    method Flush()
      modifies this`ops, this`updates
      ensures ops == Updated(old(ops), old(updates)) && updates == map[]
      ensures Updated(ops, updates) == ops
    {
      ops := Updated(ops, updates);
      updates := map[];
      assert Updated(ops, updates) == ops;
    }

    /** The pass stands before operation i: those from i on have been looked at. */
    ghost predicate At(history: seq<Op>, n: nat, maxOpId: nat, i: nat)
      reads this
    {
      && IsHistory(history) && Increasing(ops) && i <= |ops|
      && Stores(history, Updated(ops, updates), n)
      && Tracks(Updated(ops, updates), i, seen) && Clearable(Updated(ops, updates), i, lastNotPut)
      && (forall k :: 0 <= k < i ==> ops[k].id !in updates)
      && (lastNotPut.Some? ==> lastNotPut.value <= maxOpId)
      && (lastNotPut.None? <==> opsSincePut == 0)
    }

    /** Those looked at are swept, as far as memory allowed. */
    ghost predicate Swept(maxOpId: nat, idLimitBytes: nat, i: nat)
      reads this
    {
      var stored, m := Updated(ops, updates), Count(ops, maxOpId);
      RowsSwept(stored, i, m, seen, trackingSize < idLimitBytes) && Topped(stored, i, m, lastNotPut)
    }

    /** Queue the update of operation i to a MOVE. */
    method QueueMove(i: nat, row: RowId, ghost history: seq<Op>, ghost n: nat, ghost maxOpId: nat)
      requires i < |ops| && At(history, n, maxOpId, i + 1) && RowOp(ops[i]) && RowOf(ops[i]) == row && row in seen
      modifies this`updates
      ensures Updated(ops, updates) == Updated(ops, old(updates))[i := AsMove(ops[i], seen[row])]
      ensures IsHistory(history) && Stores(history, Updated(ops, updates), n)
      ensures Tracks(Updated(ops, updates), i + 1, seen) && Clearable(Updated(ops, updates), i + 1, lastNotPut)
      ensures forall k :: 0 <= k < i ==> ops[k].id !in updates
    {
      ghost var stored := Updated(ops, updates);
      assert stored[i] == ops[i];
      SupersedeOne(ops, updates, i, seen[row]);
      SeenSupersedes(history, stored, n, i, seen, row);
      LaterIsStill(stored, i + 1, seen, lastNotPut, i, AsMove(ops[i], seen[row]));
      updates := updates[ops[i].id := seen[row]];
    }

    /** A row that has been seen supersedes operation i; one that has not is tracked, memory allowing. */
    method TrackRow(i: nat, idLimitBytes: nat, ghost history: seq<Op>, ghost n: nat, ghost maxOpId: nat) returns (superseded: bool)
      requires i < |ops| && At(history, n, maxOpId, i + 1) && RowOp(ops[i])
      modifies this`updates, this`seen, this`trackingSize
      ensures IsHistory(history) && Stores(history, Updated(ops, updates), n)
      ensures Tracks(Updated(ops, updates), i, seen) && Clearable(Updated(ops, updates), i + 1, lastNotPut)
      ensures forall k :: 0 <= k < i ==> ops[k].id !in updates
      ensures superseded <==> RowOf(ops[i]) in old(seen)
      ensures Updated(ops, old(updates))[i] == ops[i]
      ensures superseded ==> seen == old(seen) && Updated(ops, updates) == Updated(ops, old(updates))[i := AsMove(ops[i], seen[RowOf(ops[i])])]
      ensures !superseded ==> updates == old(updates)
      ensures trackingSize >= old(trackingSize) && (forall r :: r in old(seen) ==> r in seen)
      ensures trackingSize < idLimitBytes ==> RowOf(ops[i]) in seen
    {
      var row := RowOf(ops[i]);
      superseded := row in seen;
      assert Updated(ops, updates)[i] == ops[i];
      TracksOne(Updated(ops, updates), i, seen);
      if superseded {
        QueueMove(i, row, history, n, maxOpId);
        TracksLower(Updated(ops, updates), i, seen);
      } else if trackingSize < idLimitBytes {
        seen := seen[row := ops[i].id];
        trackingSize := trackingSize + |row| + 140;
      }
    }

    /** Look at one operation; those added after the pass began are left alone. */
    method Visit(i: nat, maxOpId: nat, idLimitBytes: nat, ghost history: seq<Op>, ghost n: nat)
      requires i < |ops| && At(history, n, maxOpId, i + 1)
      modifies this`updates, this`seen, this`trackingSize, this`lastNotPut, this`opsSincePut, this`checksum, this`opCount
      ensures At(history, n, maxOpId, i)
      ensures if ops[i].id > maxOpId
              then checksum == old(checksum) && opCount == old(opCount) && updates == old(updates) && lastNotPut == old(lastNotPut) == None
              else && checksum == AddChecksums(old(checksum), ops[i].checksum) && opCount == old(opCount) + 1
                   && lastNotPut == NextNotPut(Updated(ops, updates)[i], old(lastNotPut))
                   && Looked(Updated(ops, old(updates)), Updated(ops, updates), i, old(seen), seen,
                             old(trackingSize) < idLimitBytes, trackingSize < idLimitBytes)
    {
      if ops[i].id > maxOpId {
        assert lastNotPut.None?;
        return;
      }
      checksum := AddChecksums(checksum, ops[i].checksum);
      opCount := opCount + 1;
      var isPersistentPut := Supersede(i, idLimitBytes, history, n, maxOpId);
      NoteKept(i, isPersistentPut, maxOpId);
    }

    /** An operation of a row is superseded by one seen; what is no row operation, or is, stays no PUT. */
    method Supersede(i: nat, idLimitBytes: nat, ghost history: seq<Op>, ghost n: nat, ghost maxOpId: nat) returns (isPersistentPut: bool)
      requires i < |ops| && At(history, n, maxOpId, i + 1)
      modifies this`updates, this`seen, this`trackingSize
      ensures IsHistory(history) && Stores(history, Updated(ops, updates), n)
      ensures Tracks(Updated(ops, updates), i, seen) && Clearable(Updated(ops, updates), i + 1, lastNotPut)
      ensures forall k :: 0 <= k < i ==> ops[k].id !in updates
      ensures isPersistentPut <==> Updated(ops, updates)[i].kind.Put?
      ensures ops[i].kind.Clear? <==> Updated(ops, updates)[i].kind.Clear?
      ensures Looked(Updated(ops, old(updates)), Updated(ops, updates), i, old(seen), seen,
                     old(trackingSize) < idLimitBytes, trackingSize < idLimitBytes)
    {
      assert Updated(ops, updates)[i] == ops[i];
      isPersistentPut := ops[i].kind.Put?;
      if RowOp(ops[i]) {
        var superseded := TrackRow(i, idLimitBytes, history, n, maxOpId);
        isPersistentPut := isPersistentPut && !superseded;
      }
    }

    /** What may be cleared ends below a PUT, and grows by anything else. */
    method NoteKept(i: nat, isPersistentPut: bool, ghost maxOpId: nat)
      requires i < |ops| && ops[i].id <= maxOpId && Clearable(Updated(ops, updates), i + 1, lastNotPut)
      requires isPersistentPut <==> Updated(ops, updates)[i].kind.Put?
      requires ops[i].kind.Clear? <==> Updated(ops, updates)[i].kind.Clear?
      requires (lastNotPut.Some? ==> lastNotPut.value <= maxOpId) && (lastNotPut.None? <==> opsSincePut == 0)
      modifies this`lastNotPut, this`opsSincePut
      ensures lastNotPut == NextNotPut(Updated(ops, updates)[i], old(lastNotPut)) && Clearable(Updated(ops, updates), i, lastNotPut)
      ensures (lastNotPut.Some? ==> lastNotPut.value <= maxOpId) && (lastNotPut.None? <==> opsSincePut == 0)
    {
      if isPersistentPut {
        lastNotPut := None;
        opsSincePut := 0;
      } else {
        ClearableLower(Updated(ops, updates), i, lastNotPut);
        if !ops[i].kind.Clear? {
          if lastNotPut.None? {
            lastNotPut := Some(ops[i].id);
          }
          opsSincePut := opsSincePut + 1;
        }
      }
    }

    /** The whole pass, newest first; queued updates are written when there are enough of them. */
    method MovePass(maxOpId: nat, idLimitBytes: nat, moveBatchLimit: nat, ghost history: seq<Op>, ghost n: nat)
      requires IsHistory(history) && Stores(history, ops, n)
      requires updates == map[] && seen == map[] && lastNotPut == None && opsSincePut == 0 && checksum == 0 && opCount == 0
      modifies this
      ensures At(history, n, maxOpId, 0) && Tallied(ops, 0, maxOpId, checksum, opCount) && Swept(maxOpId, idLimitBytes, 0)
    {
      StoredIsIncreasing(history, ops, n);
      assert Updated(ops, updates) == ops;
      TallyNone(ops, maxOpId);
      CountSplits(ops, maxOpId);
      var i: nat := |ops|;
      while i > 0
        invariant At(history, n, maxOpId, i) && Tallied(ops, i, maxOpId, checksum, opCount) && Swept(maxOpId, idLimitBytes, i)
      {
        i := i - 1;
        VisitAndFlush(i, maxOpId, idLimitBytes, moveBatchLimit, history, n);
      }
    }

    method VisitAndFlush(i: nat, maxOpId: nat, idLimitBytes: nat, moveBatchLimit: nat, ghost history: seq<Op>, ghost n: nat)
      requires i < |ops| && At(history, n, maxOpId, i + 1) && Tallied(ops, i + 1, maxOpId, checksum, opCount)
      requires Swept(maxOpId, idLimitBytes, i + 1)
      modifies this
      ensures At(history, n, maxOpId, i) && Tallied(ops, i, maxOpId, checksum, opCount) && Swept(maxOpId, idLimitBytes, i)
    {
      VisitOne(i, maxOpId, idLimitBytes, history, n);
      if |updates| >= moveBatchLimit {
        FlushPart(history, n, maxOpId, idLimitBytes, i);
      }
    }

    method VisitOne(i: nat, maxOpId: nat, idLimitBytes: nat, ghost history: seq<Op>, ghost n: nat)
      requires i < |ops| && At(history, n, maxOpId, i + 1) && Tallied(ops, i + 1, maxOpId, checksum, opCount)
      requires Swept(maxOpId, idLimitBytes, i + 1)
      modifies this`updates, this`seen, this`trackingSize, this`lastNotPut, this`opsSincePut, this`checksum, this`opCount
      ensures At(history, n, maxOpId, i) && Tallied(ops, i, maxOpId, checksum, opCount) && Swept(maxOpId, idLimitBytes, i)
    {
      ghost var stored, m, tracked, room, last := Updated(ops, updates), Count(ops, maxOpId), seen, trackingSize < idLimitBytes, lastNotPut;
      TallyOne(ops, i, maxOpId, checksum, opCount);
      CountSplits(ops, maxOpId);
      OnlyFirstClears(history, stored, n);
      Visit(i, maxOpId, idLimitBytes, history, n);
      if i < m {
        SweepsOne(stored, Updated(ops, updates), i, m, tracked, seen, room, trackingSize < idLimitBytes);
        ToppedOne(stored, Updated(ops, updates), i, m, last);
      }
    }

    /** Writing queued updates out early changes nothing of the pass. */
    method FlushPart(ghost history: seq<Op>, ghost n: nat, ghost maxOpId: nat, ghost idLimitBytes: nat, ghost i: nat)
      requires At(history, n, maxOpId, i) && Tallied(ops, i, maxOpId, checksum, opCount) && Swept(maxOpId, idLimitBytes, i)
      modifies this`ops, this`updates
      ensures At(history, n, maxOpId, i) && ops == Updated(old(ops), old(updates)) && updates == map[]
      ensures Tallied(ops, i, maxOpId, checksum, opCount) && Swept(maxOpId, idLimitBytes, i)
    {
      AlignedTally(ops, Updated(ops, updates), i, maxOpId, checksum, opCount);
      AlignedCount(ops, Updated(ops, updates), maxOpId);
      Flush();
    }

    /** What one batch of a CLEAR finds in the first k operations; none of them is a PUT. */
    method ScanStart(k: nat) returns (sum: int, targetOp: Option<nat>, gotAnOp: bool)
      requires k <= |ops| && NoPuts(ops[..k])
      ensures sum == ToInt32(Sum(ops[..k])) && targetOp == MaxTarget(ops[..k])
      ensures gotAnOp <==> NonClears(ops[..k]) > 0
    {
      sum, targetOp, gotAnOp := 0, None, false;
      for t := 0 to k
        invariant sum == ToInt32(Sum(ops[..t])) && targetOp == MaxTarget(ops[..t])
        invariant gotAnOp <==> NonClears(ops[..t]) > 0
      {
        var op := ops[t];
        assert ops[..t + 1][..t] == ops[..t] && op == ops[..k][t];
        ToInt32Keeps(Sum(ops[..t]), op.checksum);
        sum := AddChecksums(sum, op.checksum);
        gotAnOp := gotAnOp || !op.kind.Clear?;
        if !RowOp(op) && op.kind.target.Some? && (targetOp.None? || op.kind.target.value > targetOp.value) {
          targetOp := op.kind.target;
        }
      }
    }

    /** Replace everything up to an operation by one CLEAR, a limited number of operations at a time. */
    method ClearBucket(clearOp: nat, clearBatchLimit: nat, ghost history: seq<Op>, ghost n0: nat, ghost maxOpId: nat) returns (ghost n: nat)
      requires IsHistory(history) && MayClear(history, ops, n0, clearOp) && clearBatchLimit > 0 && clearOp <= maxOpId
      requires opCount == Count(ops, maxOpId)
      modifies this`ops, this`opCount
      ensures MayClear(history, ops, n, clearOp) && opCount == Count(ops, maxOpId)
      ensures clearBatchLimit > 1 ==> Count(ops, clearOp) <= 1
      ensures ClearedFrom(old(ops), ops, clearOp, maxOpId)
    {
      n := n0;
      var done := false;
      while !done
        invariant MayClear(history, ops, n, clearOp) && opCount == Count(ops, maxOpId)
        invariant ClearedFrom(old(ops), ops, clearOp, maxOpId)
        invariant done && clearBatchLimit > 1 ==> Count(ops, clearOp) <= 1
        decreases !done, NonClears(ops)
      {
        done, n := ClearOnce(clearOp, clearBatchLimit, history, n, maxOpId);
      }
    }

    /** Compact one bucket: the MOVE pass, then a CLEAR of the start it found free of rows. What is
        left stores the same history, and the counters are those of the operations left up to maxOpId. Of
        these, each row has one unless memory ran out, and a start without PUTs is one operation. */
    method CompactSingleBucket(maxOpId: nat, idLimitBytes: nat, moveBatchLimit: nat, clearBatchLimit: nat,
                               ghost history: seq<Op>, ghost n0: nat) returns (ghost n: nat)
      requires IsHistory(history) && Stores(history, ops, n0) && clearBatchLimit > 0
      requires updates == map[] && seen == map[] && lastNotPut == None && opsSincePut == 0 && checksum == 0 && opCount == 0
      modifies this
      ensures Stores(history, ops, n)
      ensures opCount == Count(ops, maxOpId) && Same(checksum, Sum(ops[..Count(ops, maxOpId)]))
      ensures trackingSize < idLimitBytes ==> OneEach(ops, 0, Count(ops, maxOpId))
      ensures clearBatchLimit > 1 ==> NothingToClear(ops, Count(ops, maxOpId))
    {
      n := n0;
      WholePass(maxOpId, idLimitBytes, moveBatchLimit, history, n);
      seen := map[];
      if lastNotPut.Some? && opsSincePut >= 1 {
        n := ClearFound(lastNotPut.value, clearBatchLimit, history, n, maxOpId);
      }
    }

    /** The pass, and the rest of its updates. */
    method WholePass(maxOpId: nat, idLimitBytes: nat, moveBatchLimit: nat, ghost history: seq<Op>, ghost n: nat)
      requires IsHistory(history) && Stores(history, ops, n)
      requires updates == map[] && seen == map[] && lastNotPut == None && opsSincePut == 0 && checksum == 0 && opCount == 0
      modifies this
      ensures Stores(history, ops, n) && Clearable(ops, 0, lastNotPut) && (lastNotPut.None? <==> opsSincePut == 0)
      ensures lastNotPut.Some? ==> lastNotPut.value <= maxOpId
      ensures opCount == Count(ops, maxOpId) && Same(checksum, Sum(ops[..Count(ops, maxOpId)]))
      ensures trackingSize < idLimitBytes ==> OneEach(ops, 0, Count(ops, maxOpId))
      ensures Topped(ops, 0, Count(ops, maxOpId), lastNotPut)
    {
      MovePass(maxOpId, idLimitBytes, moveBatchLimit, history, n);
      FlushPart(history, n, maxOpId, idLimitBytes, 0);
      assert Updated(ops, updates) == ops;
      assert ops[0..Count(ops, maxOpId)] == ops[..Count(ops, maxOpId)];
    }

    method ClearFound(clearOp: nat, clearBatchLimit: nat, ghost history: seq<Op>, ghost n0: nat, ghost maxOpId: nat) returns (ghost n: nat)
      requires IsHistory(history) && Stores(history, ops, n0) && clearBatchLimit > 0 && clearOp <= maxOpId
      requires Clearable(ops, 0, Some(clearOp)) && Topped(ops, 0, Count(ops, maxOpId), Some(clearOp))
      requires opCount == Count(ops, maxOpId) && Same(checksum, Sum(ops[..Count(ops, maxOpId)]))
      modifies this`ops, this`opCount
      ensures Stores(history, ops, n)
      ensures opCount == Count(ops, maxOpId) && Same(checksum, Sum(ops[..Count(ops, maxOpId)]))
      ensures OneEach(old(ops), 0, Count(old(ops), maxOpId)) ==> OneEach(ops, 0, Count(ops, maxOpId))
      ensures clearBatchLimit > 1 ==> NothingToClear(ops, Count(ops, maxOpId))
    {
      StoredIsIncreasing(history, ops, n0);
      ClearableIsFree(ops, clearOp, n0);
      SumUpTo(history, ops, n0, maxOpId);
      ghost var before := ops;
      n := ClearBucket(clearOp, clearBatchLimit, history, n0, maxOpId);
      SumUpTo(history, ops, n, maxOpId);
      StoredIsIncreasing(history, ops, n);
      if clearBatchLimit > 1 {
        ClearedUpToPut(before, ops, clearOp, maxOpId);
      }
    }

    /** Delete the first k operations, and insert one CLEAR in their place. */
    method ReplaceStart(k: nat, targetOp: Option<nat>, sum: int, clearOp: nat, ghost history: seq<Op>, ghost n0: nat, ghost maxOpId: nat)
      returns (ghost n: nat)
      requires IsHistory(history) && MayClear(history, ops, n0, clearOp) && clearOp <= maxOpId && opCount == Count(ops, maxOpId)
      requires k <= Count(ops, clearOp) <= |ops| && NonClears(ops[..k]) > 0 && sum == ToInt32(Sum(ops[..k])) && targetOp == MaxTarget(ops[..k])
      modifies this`ops, this`opCount
      ensures MayClear(history, ops, n, clearOp) && opCount == Count(ops, maxOpId) && NonClears(ops) < NonClears(old(ops))
      ensures ClearedFrom(old(ops), ops, clearOp, maxOpId)
    {
      NonClearsNone(ops, k);
      var left := [Op(ops[k - 1].id, Clear(targetOp), sum)] + ops[k..];
      n := ClearBatch(history, ops, n0, k, clearOp, maxOpId, left);
      opCount := opCount - k + 1;
      ops := left;
    }

    /** One batch, in one transaction; done when it finds nothing but a CLEAR. */
    method ClearOnce(clearOp: nat, clearBatchLimit: nat, ghost history: seq<Op>, ghost n0: nat, ghost maxOpId: nat) returns (done: bool, ghost n: nat)
      requires IsHistory(history) && MayClear(history, ops, n0, clearOp) && clearBatchLimit > 0 && clearOp <= maxOpId
      requires opCount == Count(ops, maxOpId)
      modifies this`ops, this`opCount
      ensures MayClear(history, ops, n, clearOp) && opCount == Count(ops, maxOpId)
      ensures done && clearBatchLimit > 1 ==> Count(ops, clearOp) <= 1
      ensures !done ==> NonClears(ops) < NonClears(old(ops))
      ensures ClearedFrom(old(ops), ops, clearOp, maxOpId)
    {
      var k := Count(ops, clearOp);
      if k > clearBatchLimit {
        k := clearBatchLimit;
      }
      assert ops[..Count(ops, clearOp)][..k] == ops[..k];
      var sum, targetOp, gotAnOp := ScanStart(k);
      SecondIsNoClear(history, ops, n0, k);
      done := !gotAnOp;
      if done {
        n := n0;
      } else {
        n := ReplaceStart(k, targetOp, sum, clearOp, history, n0, maxOpId);
      }
    }
  }

  function NonClears(ops: seq<Op>): nat {
    if ops == [] then 0 else NonClears(ops[..|ops| - 1]) + if ops[|ops| - 1].kind.Clear? then 0 else 1
  }

  lemma {:induction false} NonClearsConcat(a: seq<Op>, b: seq<Op>)
    ensures NonClears(a + b) == NonClears(a) + NonClears(b)
    decreases |b|
  {
    if b == [] {
      assert a + b == a;
    } else {
      var n := |b| - 1;
      NonClearsConcat(a, b[..n]);
      assert (a + b)[..|a + b| - 1] == a + b[..n];
    }
  }

  lemma NonClearsAfter(ops: seq<Op>, k: nat, clear: Op)
    requires 0 < k <= |ops| && NonClears(ops[..k]) > 0 && clear.kind.Clear?
    ensures NonClears([clear] + ops[k..]) < NonClears(ops)
  {
    NonClearsConcat(ops[..k], ops[k..]);
    assert ops[..k] + ops[k..] == ops;
    NonClearsConcat([clear], ops[k..]);
    assert [clear][..0] == [];
  }

  lemma {:induction false} NonClearsSome(ops: seq<Op>, i: nat)
    requires i < |ops| && !ops[i].kind.Clear?
    ensures NonClears(ops) > 0
  {
    if i < |ops| - 1 { NonClearsSome(ops[..|ops| - 1], i); }
  }

  /** Of two operations or more, one is not a CLEAR. */
  lemma SecondIsNoClear(history: seq<Op>, ops: seq<Op>, n: nat, k: nat)
    requires IsHistory(history) && Stores(history, ops, n) && k <= |ops|
    ensures k > 1 ==> NonClears(ops[..k]) > 0
  {
    OnlyFirstClears(history, ops, n);
    if k > 1 {
      NonClearsSome(ops[..k], 1);
    }
  }

  /** A bucket whose start, up to an operation, may be cleared. */
  ghost predicate MayClear(history: seq<Op>, ops: seq<Op>, n: nat, clearOp: nat) {
    Stores(history, ops, n) && NoPuts(ops[..Count(ops, clearOp)]) && StartsBy(ops, n, clearOp)
  }

  /** One batch of a CLEAR. */
  lemma ClearBatch(history: seq<Op>, ops: seq<Op>, n0: nat, k: nat, clearOp: nat, maxOpId: nat, left: seq<Op>) returns (n: nat)
    requires IsHistory(history) && MayClear(history, ops, n0, clearOp) && clearOp <= maxOpId
    requires 0 < k <= Count(ops, clearOp) && NonClears(ops[..k]) > 0 && left == [ClearOf(ops[..k])] + ops[k..]
    ensures k <= Count(ops, maxOpId) && Count(left, maxOpId) == Count(ops, maxOpId) - k + 1
    ensures MayClear(history, left, n, clearOp) && NonClears(left) < NonClears(ops) && ClearedFrom(ops, left, clearOp, maxOpId)
  {
    n := n0 + k - Offset(n0);
    var clear := ClearOf(ops[..k]);
    StoredIsIncreasing(history, ops, n0);
    StartIsFree(ops, k, clearOp, maxOpId);
    NonClearsAfter(ops, k, clear);
    ClearKeepsStored(history, ops, n0, k);
    CountAfterClear(ops, k, clear, clearOp, maxOpId);
    RestIsKept(ops, k, clear, clearOp, maxOpId);
    assert left[0] == clear;
  }

  lemma StartIsFree(ops: seq<Op>, k: nat, clearOp: nat, maxOpId: nat)
    requires Increasing(ops) && 0 < k <= Count(ops, clearOp) <= |ops| && clearOp <= maxOpId && NoPuts(ops[..Count(ops, clearOp)])
    ensures NoPuts(ops[..k]) && ops[k - 1].id <= clearOp && k <= Count(ops, maxOpId) && ClearOf(ops[..k]).id == ops[k - 1].id
  {
    CountSplits(ops, clearOp);
    CountSplits(ops, maxOpId);
    assert forall i :: 0 <= i < k ==> ops[..k][i] == ops[..Count(ops, clearOp)][i];
  }

  lemma NonClearsNone(ops: seq<Op>, k: nat)
    requires k <= |ops| && NonClears(ops[..k]) > 0
    ensures k > 0
  {
  }

  /** After clearing, what follows the cleared start is as it was, and no row has two operations that had one. */
  ghost predicate ClearedFrom(ops: seq<Op>, left: seq<Op>, clearOp: nat, maxOpId: nat) {
    && Count(ops, clearOp) <= |ops| && Count(left, clearOp) <= |left|
    && left[Count(left, clearOp)..] == ops[Count(ops, clearOp)..]
    && (OneEach(ops, 0, Count(ops, maxOpId)) ==> OneEach(left, 0, Count(left, maxOpId)))
  }

  lemma RestIsKept(ops: seq<Op>, k: nat, clear: Op, clearOp: nat, maxOpId: nat)
    requires 0 < k <= Count(ops, clearOp) <= |ops| && clear.kind.Clear?
    requires var left := [clear] + ops[k..];
             Count(left, clearOp) == Count(ops, clearOp) - k + 1 && Count(left, maxOpId) == Count(ops, maxOpId) - k + 1
    ensures ClearedFrom(ops, [clear] + ops[k..], clearOp, maxOpId)
  {
    var left := [clear] + ops[k..];
    assert forall i :: 1 <= i < |left| ==> left[i] == ops[i - 1 + k];
    assert left[Count(left, clearOp)..] == ops[Count(ops, clearOp)..];
    if OneEach(ops, 0, Count(ops, maxOpId)) {
      forall a, b | 0 <= a < b < Count(left, maxOpId) && b < |left| && RowOp(left[a]) && RowOp(left[b]) ensures RowOf(left[a]) != RowOf(left[b]) {
        assert left[a] == ops[a - 1 + k] && left[b] == ops[b - 1 + k];
      }
    }
  }

  /** No start of more than one operation is free of PUTs. */
  ghost predicate NothingToClear(ops: seq<Op>, m: nat) {
    2 <= m <= |ops| ==> ops[0].kind.Put? || ops[1].kind.Put?
  }

  /** Once the start is cleared, the next operation is a PUT, or too new. */
  lemma ClearedUpToPut(ops: seq<Op>, left: seq<Op>, clearOp: nat, maxOpId: nat)
    requires Increasing(ops) && Increasing(left) && ClearedFrom(ops, left, clearOp, maxOpId) && Count(left, clearOp) <= 1
    requires Topped(ops, 0, Count(ops, maxOpId), Some(clearOp))
    ensures NothingToClear(left, Count(left, maxOpId))
  {
    var m, c := Count(ops, maxOpId), Count(left, clearOp);
    CountSplits(ops, clearOp);
    CountSplits(ops, maxOpId);
    CountSplits(left, maxOpId);
    var p :| 0 <= p < m && p < |ops| && ops[p].id == clearOp && PutOrEnd(ops, p + 1, m);
    assert p + 1 < |ops| ==> ops[p].id < ops[p + 1].id;
    assert Count(ops, clearOp) == p + 1;
    if 2 <= Count(left, maxOpId) <= |left| {
      assert left[c..][0] == ops[p + 1..][0];
    }
  }

  lemma CountAfterClear(ops: seq<Op>, k: nat, clear: Op, clearOp: nat, maxOpId: nat)
    requires Increasing(ops) && 0 < k <= Count(ops, clearOp) && clear.kind.Clear? && clear.id == ops[k - 1].id
    requires clearOp <= maxOpId && NoPuts(ops[..Count(ops, clearOp)])
    ensures var left := [clear] + ops[k..];
            && Count(left, clearOp) == Count(ops, clearOp) - k + 1 && Count(left, maxOpId) == Count(ops, maxOpId) - k + 1
            && NoPuts(left[..Count(left, clearOp)])
  {
    var left := [clear] + ops[k..];
    CountSplits(ops, clearOp);
    CountSplits(ops, maxOpId);
    CountOfRest(ops, k, clear, clearOp);
    CountOfRest(ops, k, clear, maxOpId);
    forall i | 0 <= i < Count(left, clearOp) ensures !left[i].kind.Put? {
      if i > 0 {
        assert left[i] == ops[..Count(ops, clearOp)][i - 1 + k];
      }
    }
  }

  lemma CountOfRest(ops: seq<Op>, k: nat, clear: Op, c: nat)
    requires Increasing(ops) && 0 < k <= |ops| && clear.id == ops[k - 1].id <= c
    ensures Count([clear] + ops[k..], c) == Count(ops, c) - k + 1
  {
    var left := [clear] + ops[k..];
    assert Increasing(left);
    CountSplits(ops, c);
    CountSplits(left, c);
    var m := Count(ops, c);
    if m < |ops| {
      assert left[m - k + 1] == ops[m];
    }
    if m > k {
      assert left[m - k] == ops[m - 1];
    } else {
      assert left[0].id <= c;
    }
  }

  /** The same operations, but for what MOVEs drop. */
  ghost predicate Aligned(ops: seq<Op>, ops': seq<Op>) {
    |ops| == |ops'| && forall k :: 0 <= k < |ops| ==> ops[k].id == ops'[k].id && ops[k].checksum == ops'[k].checksum
  }

  /** The counters hold for the operations from i on that are not too new. */
  ghost predicate Tallied(ops: seq<Op>, i: nat, maxOpId: nat, checksum: int, opCount: nat) {
    var m := Count(ops, maxOpId);
    if i <= m then Same(checksum, Sum(ops[i..m])) && ToInt32(checksum) == checksum && opCount == m - i
    else checksum == 0 && opCount == 0
  }

  lemma {:induction false} AlignedCount(ops: seq<Op>, ops': seq<Op>, c: nat)
    requires Aligned(ops, ops')
    ensures Count(ops, c) == Count(ops', c)
  {
    if ops != [] { AlignedCount(ops[..|ops| - 1], ops'[..|ops| - 1], c); }
  }

  lemma AlignedTally(ops: seq<Op>, ops': seq<Op>, i: nat, maxOpId: nat, checksum: int, opCount: nat)
    requires Aligned(ops, ops') && Tallied(ops, i, maxOpId, checksum, opCount)
    ensures Tallied(ops', i, maxOpId, checksum, opCount)
  {
    AlignedCount(ops, ops', maxOpId);
    var m := Count(ops, maxOpId);
    if i <= m { KeptSum(ops[i..m], ops'[i..m]); }
  }

  lemma TallyNone(ops: seq<Op>, maxOpId: nat)
    ensures Tallied(ops, |ops|, maxOpId, 0, 0)
  {
    assert ops[|ops|..|ops|] == [];
  }

  lemma TallyOne(ops: seq<Op>, i: nat, maxOpId: nat, checksum: int, opCount: nat)
    requires Increasing(ops) && i < |ops| && Tallied(ops, i + 1, maxOpId, checksum, opCount)
    ensures ops[i].id > maxOpId ==> Tallied(ops, i, maxOpId, checksum, opCount)
    ensures ops[i].id <= maxOpId ==> Tallied(ops, i, maxOpId, AddChecksums(checksum, ops[i].checksum), opCount + 1)
  {
    var m := Count(ops, maxOpId);
    CountSplits(ops, maxOpId);
    if ops[i].id <= maxOpId {
      SplitSum(ops[i..m], 1);
      assert ops[i..m][..1] == [ops[i]] && ops[i..m][1..] == ops[i + 1..m];
      SumOne(ops[i]);
      SameAdd(checksum, Sum(ops[i + 1..m]), ops[i].checksum);
      ToInt32Keeps(checksum + ops[i].checksum, 0);
    } else if i == m {
      assert ops[m..m] == [];
    }
  }
}
