/** The change stream loop. */
module StreamLoop {
  // The loop as the object it is: fields updated event by event, proved to take exactly the steps of
  // the protocol.

  import opened SourceLog
  import opened Protocol
  import opened Wrappers

  // ----- the specification of one batch -----

  function NextPosition(log: Log, p: Position): Position
    requires p.index < |log|
  {
    if p.fragment + 1 < Fragments(log[p.index]) then Position(p.index, p.fragment + 1) else Position(p.index + 1, 0)
  }

  /** The log holds at least n stream events from p on. */
  predicate Available(log: Log, p: Position, n: nat)
    decreases n
  {
    n == 0 || (p.index < |log| && Available(log, NextPosition(log, p), n - 1))
  }

  function NextAction(s: State, buffered: bool): Action
    requires s.cursor.index < |s.log|
  {
    if s.cursor.fragment + 1 < Fragments(s.log[s.cursor.index]) then ReadFragment else ReadEvent(buffered)
  }

  /** The steps that read the first events of a batch of the given size. */
  ghost predicate Reads(s: State, batch: nat, actions: seq<Action>)
    decreases |actions|
  {
    actions != [] ==>
      var init := actions[..|actions| - 1];
      var a := actions[|actions| - 1];
      && Reads(s, batch, init) && IsRun(s, init)
      && var t := Final(s, init);
         t.cursor.index < |t.log| && a == NextAction(t, |actions| < batch) && Enabled(t, a)
  }

  lemma ReadsOneMore(s: State, batch: nat, actions: seq<Action>, t: State)
    requires Reads(s, batch, actions) && IsRun(s, actions) && t == Final(s, actions)
    requires t.cursor.index < |t.log| && Enabled(t, NextAction(t, |actions| + 1 < batch))
    ensures var a := NextAction(t, |actions| + 1 < batch);
            Reads(s, batch, actions + [a]) && IsRun(s, actions + [a]) && Final(s, actions + [a]) == Step(t, a)
  {
    var a := NextAction(t, |actions| + 1 < batch);
    RunThen(s, actions, a);
    assert (actions + [a])[..|actions + [a]| - 1] == actions;
  }

  lemma {:induction false} AvailableGrows(log: Log, more: Log, p: Position, n: nat)
    requires Available(log, p, n)
    ensures Available(log + more, p, n)
    decreases n
  {
    if n > 0 {
      assert (log + more)[p.index] == log[p.index];
      AvailableGrows(log, more, NextPosition(log, p), n - 1);
    }
  }

  /** At most one barrier is written while an event is handled. */
  predicate MayGrow(log: Log, log': Log, instance: nat) {
    log' == log || log' == log + Committed(LastTs(log) + 1, [Checkpoint(Own(instance))], [1])
  }

  predicate SameReader(h: State, t: State) {
    t.cursor == h.cursor && t.streaming == h.streaming && MayGrow(h.log, t.log, h.instance)
  }

  lemma CommitReads(h: State, lsn: nat)
    ensures SameReader(h, Commit(h, lsn))
  {
  }

  lemma HandleCheckpointReads(h: State, e: Entry, buffered: bool)
    requires e.op.Checkpoint?
    ensures SameReader(h, HandleCheckpoint(h, e, buffered))
  {
    CheckpointIs(h, e, buffered);
    CommitReads(h.(wait := Resolved(h.wait, e.ts)), e.ts);
    assert SameReader(h, AwaitBarrier(h));
  }

  lemma NoticeTableReads(s: State, table: int, at: nat)
    ensures var t := NoticeTable(s, table, at); t.cursor == s.cursor && t.streaming == s.streaming && t.log == s.log
  {
  }

  lemma QueueChangeReads(h: State, key: Key, record: Record, at: nat)
    ensures SameReader(h, QueueChange(h, key, record, at))
  {
    var b := if h.wait.None? then AwaitBarrier(h) else h;
    assert SameReader(h, b);
    NoticeTableReads(b, key.table, at);
  }

  lemma HandleDropReads(h: State, table: int)
    ensures SameReader(h, HandleDrop(h, table))
  {
  }

  lemma DispatchReads(h: State, e: Entry, at: nat, buffered: bool)
    ensures SameReader(h, Dispatch(h, e, at, buffered))
  {
    match e.op
    case Put(k, v) => QueueChangeReads(h, k, Row(v), at);
    case Remove(k) => QueueChangeReads(h, k, Tombstone, at);
    case DropTable(t) => HandleDropReads(h, t);
    case Checkpoint(_) => HandleCheckpointReads(h, e, buffered);
  }

  function Held(s: State, e: Entry): State {
    s.(cursor := Position(s.cursor.index, s.cursor.fragment + 1), held := if e.ts <= s.startTs then s.held else s.held + 1)
  }

  /** One stream event: a fragment is held until its last one arrives. */
  function Next(s: State, buffered: bool): State
    requires s.cursor.index < |s.log|
  {
    var e := s.log[s.cursor.index];
    if s.cursor.fragment + 1 < Fragments(e) then Held(s, e) else HandleEvent(s, buffered)
  }

  lemma NextIsStep(s: State, buffered: bool)
    requires s.cursor.index < |s.log| && s.streaming
    ensures Enabled(s, NextAction(s, buffered)) && Step(s, NextAction(s, buffered)) == Next(s, buffered)
  {
  }

  /** Reading an event moves to the next one. */
  lemma HandleEventIs(s: State, buffered: bool)
    requires s.cursor.index < |s.log|
    ensures var e := s.log[s.cursor.index];
            HandleEvent(s, buffered)
            == if e.ts <= s.startTs then Passing(s).(held := s.held) else Dispatch(Passing(s), e, s.cursor.index, buffered)
  {
  }

  lemma HandleEventReads(s: State, buffered: bool)
    requires s.cursor.index < |s.log|
    ensures SameReader(Passing(s), HandleEvent(s, buffered))
  {
    DispatchReads(Passing(s), s.log[s.cursor.index], s.cursor.index, buffered);
  }

  lemma NextReads(s: State, buffered: bool)
    requires s.cursor.index < |s.log|
    ensures var t := Next(s, buffered);
            t.cursor == NextPosition(s.log, s.cursor) && t.streaming == s.streaming && MayGrow(s.log, t.log, s.instance)
  {
    HandleEventReads(s, buffered);
  }

  /** The protocol state with the loop's own fields in place. */
  function With(world: State, cursor: Position, held: nat, pending: seq<Save>, wait: Option<nat>): State {
    world.(cursor := cursor, held := held, pending := pending, wait := wait)
  }

  lemma NoticeTableCommutes(w: State, s: State, table: int, at: nat)
    requires s == With(w, s.cursor, s.held, s.pending, s.wait)
    ensures NoticeTable(s, table, at) == With(NoticeTable(w, table, at), s.cursor, s.held, s.pending, s.wait)
  {
  }

  // ----- the loop -----

  class ChangeStream {
    /** The source, the store and the history; the fields below replace its own position, fragments,
        queue and barrier. */
    var world: State
    var cursor: Position
    var splitFragments: nat
    var queue: seq<Save>
    var waitForCheckpoint: Option<nat>

    ghost function Abs(): State
      reads this
    {
      With(world, cursor, splitFragments, queue, waitForCheckpoint)
    }

    constructor (s: State)
      ensures Abs() == s
    {
      world := s;
      cursor := s.cursor;
      splitFragments := s.held;
      queue := s.pending;
      waitForCheckpoint := s.wait;
    }

    method CreateBatchCheckpoint()
      modifies this
      ensures Abs() == AwaitBarrier(old(Abs()))
    {
      waitForCheckpoint := Some(LastTs(world.log) + 1);
      world := WriteCheckpoint(world, Own(world.instance));
    }

    method Flush()
      modifies this
      ensures Abs() == FlushAll(old(Abs()))
    {
      world := world.(rows := ApplySaves(world.rows, queue), streamHigh := Max(world.streamHigh, cursor.index));
      queue := [];
    }

    method CommitAt(lsn: nat)
      modifies this
      ensures Abs() == Commit(old(Abs()), lsn)
    {
      Flush();
      world := world.(committed := cursor.index);
      if NotAfter(world.resume, cursor) {
        world := world.(resume := cursor);
      }
      if CanCheckpoint(world, lsn) {
        world := world.(lastCheckpoint := lsn,
                        published := world.published + [Published(lsn, cursor.index, Visible(world.rows), world.strays)],
                        rows := WithoutTombstones(world.rows));
      }
    }

    method WriteChange(key: Key, record: Record, at: nat)
      modifies this
      ensures Abs() == QueueChange(old(Abs()), key, record, at)
    {
      if waitForCheckpoint.None? {
        CreateBatchCheckpoint();
      }
      NoticeTableCommutes(world, Abs(), key.table, at);
      world := NoticeTable(world, key.table, at);
      queue := queue + [Save(key, record, at + 1)];
    }

    method ObserveCheckpoint(e: Entry, buffered: bool)
      requires e.op.Checkpoint?
      modifies this
      ensures Abs() == HandleCheckpoint(old(Abs()), e, buffered)
    {
      if e.op.origin == Other || (e.op.origin.Own? && e.op.origin.stream != world.instance) {
        return;
      }
      if e.op.origin.Standalone? {
        if buffered && waitForCheckpoint.None? {
          CreateBatchCheckpoint();
          return;
        } else if waitForCheckpoint.Some? {
          return;
        }
      }
      if waitForCheckpoint.Some? && waitForCheckpoint.value <= e.ts {
        waitForCheckpoint := None;
      }
      CommitAt(e.ts);
    }

    method DropCollection(table: int)
      modifies this
      ensures Abs() == HandleDrop(old(Abs()), table)
    {
      Flush();
      world := world.(rows := WithoutTable(world.rows, table), tables := world.tables - {table});
    }

    method DispatchEvent(e: Entry, at: nat, buffered: bool)
      modifies this
      ensures Abs() == Dispatch(old(Abs()), e, at, buffered)
    {
      match e.op
      case Put(k, v) => WriteChange(k, Row(v), at);
      case Remove(k) => WriteChange(k, Tombstone, at);
      case DropTable(t) => DropCollection(t);
      case Checkpoint(_) => ObserveCheckpoint(e, buffered);
    }

    /** A whole event, or the last fragment of one. */
    method HandleWholeEvent(buffered: bool)
      requires cursor.index < |world.log|
      modifies this
      ensures Abs() == HandleEvent(old(Abs()), buffered)
    {
      ghost var s := Abs();
      HandleEventIs(s, buffered);
      var at := cursor.index;
      var e := world.log[at];
      if e.ts <= world.startTs {
        SkipEvent();
      } else {
        PassEvent();
        DispatchEvent(e, at, buffered);
      }
    }

    /** An event that is not newer than the start leaves the fragments as they are. */
    method SkipEvent()
      modifies this
      ensures Abs() == Passing(old(Abs())).(held := old(Abs()).held)
    {
      cursor := Position(cursor.index + 1, 0);
    }

    method PassEvent()
      modifies this
      ensures Abs() == Passing(old(Abs()))
    {
      cursor := Position(cursor.index + 1, 0);
      splitFragments := 0;
    }

    method HoldFragment(e: Entry)
      modifies this
      ensures Abs() == Held(old(Abs()), e)
    {
      cursor := Position(cursor.index, cursor.fragment + 1);
      if e.ts > world.startTs {
        splitFragments := splitFragments + 1;
      }
    }

    /** One event of a batch; a fragment is held until its last one arrives. */
    method HandleStreamEvent(buffered: bool)
      requires cursor.index < |world.log|
      modifies this
      ensures Abs() == Next(old(Abs()), buffered)
    {
      var e := world.log[cursor.index];
      ghost var s := Abs();
      if cursor.fragment + 1 < Fragments(e) {
        HoldFragment(e);
        assert Next(s, buffered) == Held(s, e);
      } else {
        HandleWholeEvent(buffered);
        assert Next(s, buffered) == HandleEvent(s, buffered);
      }
    }

    /** A batch of `count` events; the process is told to stop before event `abortAt` is read. The
        batch's end is stored when no fragment is held, whether or not the batch was read to its end. */
    method ProcessBatch(count: nat, abortAt: nat) returns (ghost steps: seq<Action>)
      requires world.streaming && Available(world.log, cursor, count)
      modifies this
      ensures |steps| == (if abortAt < count then abortAt else count)
      ensures Reads(old(Abs()), count, steps) && IsRun(old(Abs()), steps)
      ensures Abs() == AfterBatch(Final(old(Abs()), steps), EndOf(old(world.log), old(cursor), count), abortAt < count)
    {
      ghost var start := Abs();
      var batchEnd := EndOf(world.log, cursor, count);
      var eventIndex := 0;
      steps := [];
      while eventIndex < count && eventIndex < abortAt
        invariant eventIndex <= count && eventIndex <= abortAt && |steps| == eventIndex
        invariant ReadSoFar(start, count, steps, Abs())
        decreases count - eventIndex
      {
        ghost var s := Abs();
        var buffered := eventIndex < count - 1;
        OneEvent(start, count, steps, s, buffered);
        assert cursor == s.cursor && world.log == s.log;
        HandleStreamEvent(buffered);
        steps := steps + [NextAction(s, buffered)];
        eventIndex := eventIndex + 1;
      }
      EndBatch(batchEnd, abortAt < count);
    }

    method EndBatch(batchEnd: Position, aborted: bool)
      modifies this
      ensures Abs() == AfterBatch(old(Abs()), batchEnd, aborted)
    {
      if splitFragments == 0 {
        Flush();
        world := world.(resume := batchEnd);
      }
      if aborted {
        Stop();
      }
    }

    method Stop()
      modifies this
      ensures Abs() == Halt(old(Abs()))
    {
      world := world.(running := false, streaming := false, scan := Idle);
      queue := [];
      waitForCheckpoint := None;
      splitFragments := 0;
    }
  }

  /** After these reads of the batch the loop is in state s, and the rest of the batch is still there. */
  ghost predicate ReadSoFar(start: State, count: nat, steps: seq<Action>, s: State) {
    && |steps| <= count && Reads(start, count, steps) && IsRun(start, steps) && Final(start, steps) == s
    && s.streaming && Available(s.log, s.cursor, count - |steps|)
  }

  lemma OneEvent(start: State, count: nat, steps: seq<Action>, s: State, buffered: bool)
    requires |steps| < count && ReadSoFar(start, count, steps, s) && buffered == (|steps| < count - 1)
    ensures s.cursor.index < |s.log|
    ensures ReadSoFar(start, count, steps + [NextAction(s, buffered)], Next(s, buffered))
  {
    NextIsStep(s, buffered);
    ReadsOneMore(start, count, steps, s);
    NextIsAvailable(s, buffered, count - |steps|);
  }

  lemma NextIsAvailable(s: State, buffered: bool, n: nat)
    requires n > 0 && Available(s.log, s.cursor, n)
    ensures var t := Next(s, buffered); t.streaming == s.streaming && Available(t.log, t.cursor, n - 1)
  {
    NextReads(s, buffered);
    AvailableStays(s, Next(s, buffered), n);
  }

  lemma AvailableStays(s: State, t: State, n: nat)
    requires n > 0 && Available(s.log, s.cursor, n) && t.cursor == NextPosition(s.log, s.cursor)
    requires MayGrow(s.log, t.log, s.instance)
    ensures Available(t.log, t.cursor, n - 1)
  {
    AvailableGrows(s.log, Committed(LastTs(s.log) + 1, [Checkpoint(Own(s.instance))], [1]), t.cursor, n - 1);
  }

  function EndOf(log: Log, p: Position, n: nat): Position
    requires Available(log, p, n)
    decreases n
  {
    if n == 0 then p else EndOf(log, NextPosition(log, p), n - 1)
  }

  /** What the loop does after the last event it steps of a batch. */
  function AfterBatch(s: State, batchEnd: Position, aborted: bool): State {
    var stored := if s.held == 0 then FlushAll(s).(resume := batchEnd) else s;
    if aborted then Halt(stored) else stored
  }

  /** The loop over a batch is a run of the protocol: its reads, then the batch's end. */
  lemma BatchIsRun(s: State, steps: seq<Action>, batchEnd: Position, aborted: bool) returns (run: seq<Action>)
    requires IsRun(s, steps) && Final(s, steps).streaming && Final(s, steps).running
    requires Final(s, steps).held == 0 ==> Enabled(Final(s, steps), BatchEnd(batchEnd))
    requires Final(s, steps).held == 0 ==> (batchEnd != Final(s, steps).cursor <==> aborted)
    ensures IsRun(s, run) && Final(s, run) == AfterBatch(Final(s, steps), batchEnd, aborted)
  {
    var t := Final(s, steps);
    if t.held == 0 {
      RunThen(s, steps, BatchEnd(batchEnd));
      run := steps + [BatchEnd(batchEnd)];
    } else if aborted {
      RunThen(s, steps, Crash);
      run := steps + [Crash];
    } else {
      run := steps;
    }
  }
}
