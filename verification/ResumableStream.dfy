/** The change stream cursor: batches of an ordered log, resumed after errors. */
module ResumableStream {
  import opened Wrappers

  function Max(a: nat, b: nat): nat {
    if a < b then b else a
  }

  function Min(a: nat, b: nat): nat {
    if a < b then a else b
  }

  const Multiplier := 2

  // ----- batch sizes -----

  function Pow2(n: nat): nat {
    if n == 0 then 1 else 2 * Pow2(n - 1)
  }

  /** The sizes asked for after an error, one by one. */
  function Ramp(maxBatchSize: nat, k: nat): nat {
    if k == 0 then Multiplier else Min(maxBatchSize, Ramp(maxBatchSize, k - 1) * Multiplier)
  }

  /** They double until the initial size is reached again. */
  lemma {:induction false} RampDoubles(maxBatchSize: nat, k: nat)
    requires maxBatchSize >= 1
    ensures k > 0 ==> Ramp(maxBatchSize, k) == Min(maxBatchSize, Pow2(k + 1))
  {
    if k > 1 {
      RampDoubles(maxBatchSize, k - 1);
    }
  }

  class AdaptiveBatchSize {
    const maxBatchSize: nat
    var nextBatchSize: nat

    ghost predicate Valid()
      reads this
    {
      maxBatchSize >= 1 && 1 <= nextBatchSize <= Max(maxBatchSize, 2)
    }

    constructor (maxBatchSize: nat)
      requires maxBatchSize >= 1
      ensures Valid() && this.maxBatchSize == maxBatchSize && nextBatchSize == maxBatchSize
    {
      this.maxBatchSize := maxBatchSize;
      nextBatchSize := maxBatchSize;
    }

    method Next() returns (current: nat)
      requires Valid()
      modifies this
      ensures Valid() && current == old(nextBatchSize) && nextBatchSize == Min(maxBatchSize, current * Multiplier)
    {
      current := nextBatchSize;
      nextBatchSize := Min(maxBatchSize, nextBatchSize * Multiplier);
    }

    method ReduceAfterError()
      requires maxBatchSize >= 1
      modifies this
      ensures Valid() && nextBatchSize == Ramp(maxBatchSize, 0)
    {
      nextBatchSize := Multiplier;
    }
  }

  // ----- the stream -----

  /** How the server answers a command: with some of the events it has, which it chooses, or an error. An
      answer with no events may still have moved on in the log. */
  datatype Answer = Events(take: nat, closed: bool) | ResumableError(timeout: bool) | HardError

  /** Events of the filtered log, and the token after them: how many events precede it. */
  datatype Batch<T> = Batch(events: seq<T>, token: nat)

  function Concat<T>(batches: seq<Batch<T>>): seq<T> {
    if batches == [] then [] else Concat(batches[..|batches| - 1]) + batches[|batches| - 1].events
  }

  function End<T>(start: nat, batches: seq<Batch<T>>): nat {
    if batches == [] then start else batches[|batches| - 1].token
  }

  /** Batches that are one stretch of the log from a position, each with the token of its end. */
  ghost predicate Contiguous<T>(log: seq<T>, start: nat, batches: seq<Batch<T>>) {
    if batches == [] then start <= |log|
    else
      var init, last := batches[..|batches| - 1], batches[|batches| - 1];
      Contiguous(log, start, init) && End(start, init) <= last.token <= |log| && last.events == log[End(start, init)..last.token]
  }

  lemma {:induction false} ContiguousConcat<T>(log: seq<T>, start: nat, batches: seq<Batch<T>>)
    requires Contiguous(log, start, batches)
    ensures start <= End(start, batches) <= |log| && Concat(batches) == log[start..End(start, batches)]
  {
    if batches != [] {
      ContiguousConcat(log, start, batches[..|batches| - 1]);
    }
  }

  /** Follow the log for a number of commands, answered in any way. Errors on getMore are resumed from the
      last token that was yielded; an error on aggregate, or a cursor the server closes, ends the stream.
      What was yielded is one stretch of the log, nothing dropped and nothing twice. */
  method RawChangeStream<T>(log: seq<T>, start: nat, maxBatchSize: nat, commands: nat, answers: nat -> Answer)
    returns (batches: seq<Batch<T>>, ghost sizes: seq<nat>)
    requires start <= |log| && maxBatchSize >= 1
    ensures Contiguous(log, start, batches) && start <= End(start, batches) <= |log|
    ensures Concat(batches) == log[start..End(start, batches)]
    ensures forall i :: 0 <= i < |sizes| ==> 1 <= sizes[i] <= Max(maxBatchSize, 2)
  {
    var batchSizer := new AdaptiveBatchSize(maxBatchSize);
    var lastResumeToken: Option<nat> := None;
    var command := 0;
    batches, sizes := [], [];
    var ended := false;
    while command < commands && !ended
      invariant batchSizer.Valid() && batchSizer.maxBatchSize == maxBatchSize && fresh(batchSizer)
      invariant Contiguous(log, start, batches) && End(start, batches) <= |log|
      invariant lastResumeToken == if batches == [] then None else Some(End(start, batches))
      invariant forall i :: 0 <= i < |sizes| ==> 1 <= sizes[i] <= Max(maxBatchSize, 2)
      decreases commands - command, !ended
    {
      // Open a cursor, from the last token if there is one.
      var position := if lastResumeToken.Some? then lastResumeToken.value else start;
      var answer := answers(command);
      command := command + 1;
      sizes := sizes + [1];
      if !answer.Events? {
        ended := true;
        break;
      }
      batches, position := Yield(log, start, batches, position, Min(answer.take, 1));
      lastResumeToken := Some(position);
      var cursorOpen := !answer.closed;
      ended := answer.closed;
      // Poll it until it fails.
      while command < commands && cursorOpen
        invariant batchSizer.Valid() && batchSizer.maxBatchSize == maxBatchSize && fresh(batchSizer)
        invariant Contiguous(log, start, batches) && batches != []
        invariant position == End(start, batches) <= |log| && lastResumeToken == Some(position)
        invariant forall i :: 0 <= i < |sizes| ==> 1 <= sizes[i] <= Max(maxBatchSize, 2)
        decreases commands - command, cursorOpen
      {
        var batchSize := batchSizer.Next();
        sizes := sizes + [batchSize];
        answer := answers(command);
        command := command + 1;
        match answer {
          case Events(take, closed) =>
            batches, position := Yield(log, start, batches, position, Min(take, batchSize));
            lastResumeToken := Some(position);
            cursorOpen := !closed;
            ended := closed;
          case ResumableError(timeout) =>
            if timeout {
              batchSizer.ReduceAfterError();
            }
            cursorOpen := false;
          case HardError =>
            cursorOpen := false;
            ended := true;
        }
      }
    }
    ContiguousConcat(log, start, batches);
  }

  /** The next events of the log, as far as it goes. */
  method Yield<T>(log: seq<T>, start: nat, batches: seq<Batch<T>>, position: nat, take: nat) returns (more: seq<Batch<T>>, end: nat)
    requires Contiguous(log, start, batches) && position == End(start, batches) <= |log|
    ensures Contiguous(log, start, more) && more != [] && end == End(start, more) == more[|more| - 1].token <= |log|
  {
    end := position + Min(take, |log| - position);
    AddBatch(log, start, batches, position, end);
    more := batches + [Batch(log[position..end], end)];
  }

  lemma AddBatch<T>(log: seq<T>, start: nat, batches: seq<Batch<T>>, position: nat, end: nat)
    requires Contiguous(log, start, batches) && position == End(start, batches) <= end <= |log|
    ensures Contiguous(log, start, batches + [Batch(log[position..end], end)])
  {
    var more := batches + [Batch(log[position..end], end)];
    assert more[..|more| - 1] == batches;
  }
}
