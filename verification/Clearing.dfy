/** Clearing a collection in batches whose size follows how long they take. */
module Clearing {
  import opened Wrappers

  const MaxBatchSize := 10_000
  const MinBatchSize := 100
  const MaxDurationMs := 2_000
  const MinDurationMs := 500

  /** How the database answers one attempt: in time, with an error, or not in time, after having removed
      some of the batch. */
  datatype Outcome = InTime(durationMs: nat) | TimedOut(removed: nat) | Failed

  datatype Thrown = Timeout | Other

  function Min(a: nat, b: nat): nat {
    if a < b then a else b
  }

  function Halved(batchSize: nat): nat {
    if batchSize / 2 < MinBatchSize then MinBatchSize else batchSize / 2
  }

  function Resized(batchSize: nat, durationMs: nat): nat {
    if durationMs > MaxDurationMs then Halved(batchSize)
    else if durationMs < MinDurationMs then Min(MaxBatchSize, batchSize * 2)
    else batchSize
  }

  predicate InBounds(batchSize: nat) {
    MinBatchSize <= batchSize <= MaxBatchSize
  }

  class Collection {
    /** The ids of the matching documents, in index order. */
    var docs: seq<int>

    constructor (docs: seq<int>)
      ensures this.docs == docs
    {
      this.docs := docs;
    }

    /** Find where the batch ends and delete up to there; the last batch is deleted without an end. */
    method DeleteIdRange(batchSize: nat) returns (found: nat)
      modifies this
      ensures found == Min(|old(docs)|, batchSize) && docs == old(docs)[found..]
    {
      if |docs| <= batchSize {
        found := |docs|;
        docs := [];
      } else {
        var batchEnd := batchSize;
        docs := docs[batchEnd..];
        found := batchSize;
      }
    }

    /** Find the ids of a batch, and delete those. */
    method DeleteIdBatch(batchSize: nat) returns (found: nat)
      modifies this
      ensures found == Min(|old(docs)|, batchSize) && docs == old(docs)[found..]
    {
      var ids := docs[..Min(|docs|, batchSize)];
      if |ids| == 0 {
        return 0;
      }
      docs := docs[|ids|..];
      return |ids|;
    }

    /** Without concurrent inserts clearing ends: each batch removes documents, or is retried smaller until
        it cannot be. When it returns, no matching document is left, and the count is what was removed by
        the batches that were answered in time. `sizes` are the batch sizes asked for, `lost` what batches
        that timed out removed uncounted. */
    method ClearInBatches(byRange: bool, answers: nat -> Outcome)
      returns (r: Result<nat, Thrown>, ghost sizes: seq<nat>, ghost lost: nat)
      modifies this
      ensures forall i :: 0 <= i < |sizes| ==> InBounds(sizes[i])
      ensures r.Success? ==> docs == [] && r.value + lost == |old(docs)|
      ensures (forall i :: 0 <= i < |sizes| ==> !answers(i).TimedOut?) ==> lost == 0
      ensures r == Failure(Timeout) ==> |sizes| > 0 && sizes[|sizes| - 1] == MinBatchSize && answers(|sizes| - 1).TimedOut?
      ensures r == Failure(Other) ==> |sizes| > 0 && answers(|sizes| - 1).Failed?
      ensures |docs| <= |old(docs)|
    {
      var batchSize: nat := MaxBatchSize;
      var deletedCount: nat := 0;
      var attempt := 0;
      sizes := [];
      lost := 0;
      while true
        invariant InBounds(batchSize) && |sizes| == attempt && forall i :: 0 <= i < |sizes| ==> InBounds(sizes[i])
        invariant deletedCount + lost + |docs| == |old(docs)|
        invariant (forall i :: 0 <= i < attempt ==> !answers(i).TimedOut?) ==> lost == 0
        decreases |docs|, batchSize
      {
        var answer := answers(attempt);
        attempt := attempt + 1;
        sizes := sizes + [batchSize];
        match answer {
          case InTime(durationMs) =>
            var found;
            if byRange {
              found := DeleteIdRange(batchSize);
            } else {
              found := DeleteIdBatch(batchSize);
            }
            deletedCount := deletedCount + found;
            if found < batchSize {
              return Success(deletedCount), sizes, lost;
            }
            batchSize := Resized(batchSize, durationMs);
          case TimedOut(removed) =>
            ghost var gone := Min(Min(removed, batchSize), |docs|);
            docs := docs[Min(Min(removed, batchSize), |docs|)..];
            lost := lost + gone;
            if batchSize == MinBatchSize {
              return Failure(Timeout), sizes, lost;
            }
            batchSize := Halved(batchSize);
          case Failed =>
            return Failure(Other), sizes, lost;
        }
      }
    }
  }

  /** From any size, batches that keep timing out reach the smallest in at most seven attempts. */
  function AfterTimeouts(batchSize: nat, n: nat): nat {
    if n == 0 then batchSize else Halved(AfterTimeouts(batchSize, n - 1))
  }

  lemma SevenTimeoutsReachTheSmallest(batchSize: nat)
    requires InBounds(batchSize)
    ensures AfterTimeouts(batchSize, 7) == MinBatchSize
  {
    assert AfterTimeouts(batchSize, 1) <= 5_000;
    assert AfterTimeouts(batchSize, 2) <= 2_500;
    assert AfterTimeouts(batchSize, 3) <= 1_250;
    assert AfterTimeouts(batchSize, 4) <= 625;
    assert AfterTimeouts(batchSize, 5) <= 312;
    assert AfterTimeouts(batchSize, 6) <= 156;
  }
}
