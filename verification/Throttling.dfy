/** No commit is forgotten. */
module Throttling {
  // Commits are throttled: row changes and busy standalone checkpoints wait for a barrier that the
  // process writes to the source itself. None is forgotten, in any run.

  import opened SourceLog
  import opened Protocol
  import opened Wrappers

  predicate IsOwn(log: Log, instance: nat, i: nat) {
    i < |log| && log[i].op == Checkpoint(Own(instance))
  }

  /** The barrier being waited for is still ahead in the log. */
  ghost predicate BarrierAhead(log: Log, instance: nat, cursor: nat, ts: nat) {
    exists i :: cursor <= i < |log| && log[i].ts == ts && IsOwn(log, instance, i)
  }

  ghost predicate OwnersKnown(log: Log, instance: nat) {
    forall i :: 0 <= i < |log| && log[i].op.Checkpoint? && log[i].op.origin.Own? ==> log[i].op.origin.stream <= instance
  }

  ghost predicate OwnAfter(log: Log, instance: nat, head: nat) {
    forall i :: 0 <= i < |log| && IsOwn(log, instance, i) ==> head <= i
  }

  /** A client may be waiting for a checkpoint at or past this operation. */
  predicate NeedsCommit(op: Op) {
    op.Put? || op.Remove? || op == Checkpoint(Standalone)
  }

  /** Nothing between the two positions waits for a commit. */
  ghost predicate Covered(log: Log, lo: nat, hi: nat) {
    forall i :: lo <= i < hi && i < |log| ==> !NeedsCommit(log[i].op)
  }

  ghost predicate WaitOk(log: Log, instance: nat, startHead: nat, cursor: nat, committed: nat, wait: Option<nat>) {
    match wait
    case None => startHead < cursor && Covered(log, committed, cursor)
    case Some(ts) => BarrierAhead(log, instance, cursor, ts)
  }

  ghost predicate StartOk(log: Log, instance: nat, startHead: nat, startTs: nat) {
    && startHead <= |log| && Boundary(log, startHead) && startTs <= TsAt(log, startHead)
    && OwnAfter(log, instance, startHead)
  }

  ghost predicate Throttled(s: State) {
    && WellFormed(s.log)
    && s.resume.index <= |s.log| && s.cursor.index <= |s.log|
    && OwnersKnown(s.log, s.instance)
    && (s.running ==> StartOk(s.log, s.instance, s.startHead, s.startTs))
    && (s.streaming ==> s.running && WaitOk(s.log, s.instance, s.startHead, s.cursor.index, s.committed, s.wait))
  }

  lemma InitialIsThrottled(s: State)
    requires Initial(s)
    ensures Throttled(s)
  {
  }

  /** Only the running instance writes its own barriers, and it writes them at the end. */
  ghost predicate OnlyOwn(ops: seq<Op>, instance: nat, running: bool) {
    forall i :: 0 <= i < |ops| && ops[i].Checkpoint? && ops[i].origin.Own? ==> running && ops[i].origin.stream == instance
  }

  lemma StartGrows(log: Log, ts: nat, ops: seq<Op>, fragments: seq<nat>, instance: nat, startHead: nat, startTs: nat)
    requires |ops| == |fragments| && LastTs(log) < ts && StartOk(log, instance, startHead, startTs)
    ensures StartOk(log + Committed(ts, ops, fragments), instance, startHead, startTs)
  {
    var grown := log + Committed(ts, ops, fragments);
    forall i | 0 <= i < |grown| && IsOwn(grown, instance, i) ensures startHead <= i {
      assert i < |log| ==> IsOwn(log, instance, i);
    }
  }

  lemma WaitGrows(log: Log, more: Log, instance: nat, startHead: nat, cursor: nat, committed: nat, wait: Option<nat>)
    requires cursor <= |log| && WaitOk(log, instance, startHead, cursor, committed, wait)
    ensures WaitOk(log + more, instance, startHead, cursor, committed, wait)
  {
    if wait.Some? {
      var i :| cursor <= i < |log| && log[i].ts == wait.value && IsOwn(log, instance, i);
      assert IsOwn(log + more, instance, i);
    }
  }

  lemma AppendKeepsThrottled(s: State, ops: seq<Op>, fragments: seq<nat>)
    requires Throttled(s) && |ops| == |fragments| && OneCommit(ops) && OnlyOwn(ops, s.instance, s.running)
    ensures Throttled(Append(s, ops, fragments))
  {
    var more := Committed(LastTs(s.log) + 1, ops, fragments);
    CommitKeepsWellFormed(s.log, ops, fragments);
    if s.running { StartGrows(s.log, LastTs(s.log) + 1, ops, fragments, s.instance, s.startHead, s.startTs); }
    if s.streaming { WaitGrows(s.log, more, s.instance, s.startHead, s.cursor.index, s.committed, s.wait); }
    assert OwnersKnown(s.log + more, s.instance);
  }

  /** Writing a barrier and waiting for it. */
  lemma AwaitBarrierKeepsThrottled(s: State)
    requires Throttled(s) && s.running
    ensures Throttled(AwaitBarrier(s).(streaming := true))
  {
    AppendKeepsThrottled(s.(streaming := false), [Checkpoint(Own(s.instance))], [1]);
    var s' := AwaitBarrier(s);
    assert s'.log[|s.log|].ts == LastTs(s.log) + 1 && IsOwn(s'.log, s.instance, |s.log|);
    assert BarrierAhead(s'.log, s.instance, s.cursor.index, LastTs(s.log) + 1);
  }

  /** Passing an entry: an awaited barrier is still ahead unless it is this entry. */
  lemma PassKeepsBarrier(log: Log, instance: nat, i: nat, ts: nat)
    requires i < |log| && BarrierAhead(log, instance, i, ts)
    requires !(IsOwn(log, instance, i) && log[i].ts == ts)
    ensures BarrierAhead(log, instance, i + 1, ts)
  {
    var b :| i <= b < |log| && log[b].ts == ts && IsOwn(log, instance, b);
    var next := i + 1;
    assert next <= b;
  }

  /** Nothing read from the place where this instance started on is old enough to be dropped. */
  lemma NewEntriesAreRead(s: State, i: nat)
    requires Throttled(s) && s.running && s.startHead <= i < |s.log|
    ensures s.startTs < s.log[i].ts
  {
    assert s.log[s.startHead].ts <= s.log[i].ts;
  }

  /** Passing an entry nothing waits for, or any entry while a barrier is still ahead. */
  lemma PassKeepsThrottled(s: State)
    requires Throttled(s) && s.streaming && s.cursor.index < |s.log| && !IsOwn(s.log, s.instance, s.cursor.index)
    requires s.wait.None? ==> !NeedsCommit(s.log[s.cursor.index].op)
    ensures Throttled(Passing(s))
  {
    if s.wait.Some? {
      PassKeepsBarrier(s.log, s.instance, s.cursor.index, s.wait.value);
    }
  }

  lemma CommitKeepsThrottled(s: State, lsn: nat)
    requires Throttled(s.(streaming := false)) && s.streaming && s.running
    requires WaitOk(s.log, s.instance, s.startHead, s.cursor.index, s.cursor.index, s.wait)
    ensures Throttled(Commit(s, lsn))
  {
  }

  /** Its own barrier ends the wait for it, and is followed by a commit. */
  lemma ResolveKeepsWait(log: Log, instance: nat, startHead: nat, i: nat, committed: nat, wait: Option<nat>)
    requires IsOwn(log, instance, i) && OwnAfter(log, instance, startHead) && WaitOk(log, instance, startHead, i, committed, wait)
    ensures WaitOk(log, instance, startHead, i + 1, i + 1, Resolved(wait, log[i].ts))
  {
    if wait.Some? && log[i].ts < wait.value {
      PassKeepsBarrier(log, instance, i, wait.value);
    }
  }

  lemma OwnBarrierKeepsThrottled(s: State, buffered: bool)
    requires Throttled(s) && s.streaming && s.cursor.index < |s.log|
    requires s.log[s.cursor.index].op == Checkpoint(Own(s.instance))
    ensures Throttled(HandleCheckpoint(Passing(s), s.log[s.cursor.index], buffered))
  {
    var i := s.cursor.index;
    var ts := s.log[i].ts;
    ResolveKeepsWait(s.log, s.instance, s.startHead, i, s.committed, s.wait);
    CommitKeepsThrottled(Passing(s).(wait := Resolved(s.wait, ts)), ts);
  }

  lemma HandleCheckpointKeepsThrottled(s: State, buffered: bool)
    requires Throttled(s) && s.streaming && s.cursor.index < |s.log| && s.log[s.cursor.index].op.Checkpoint?
    ensures Throttled(HandleCheckpoint(Passing(s), s.log[s.cursor.index], buffered))
  {
    var origin := s.log[s.cursor.index].op.origin;
    if origin == Own(s.instance) {
      OwnBarrierKeepsThrottled(s, buffered);
    } else if origin.Standalone? && s.wait.None? {
      CaughtUpKeepsThrottled(s, buffered);
    } else {
      PassKeepsThrottled(s);
      assert HandleCheckpoint(Passing(s), s.log[s.cursor.index], buffered) == Passing(s);
    }
  }

  lemma CaughtUpKeepsThrottled(s: State, buffered: bool)
    requires Throttled(s) && s.streaming && s.cursor.index < |s.log| && s.wait.None?
    requires s.log[s.cursor.index].op == Checkpoint(Standalone)
    ensures Throttled(HandleCheckpoint(Passing(s), s.log[s.cursor.index], buffered))
  {
    if buffered {
      AwaitBarrierKeepsThrottled(Passing(s).(streaming := false));
      assert HandleCheckpoint(Passing(s), s.log[s.cursor.index], true) == AwaitBarrier(Passing(s));
    } else {
      CommitKeepsThrottled(Passing(s), s.log[s.cursor.index].ts);
      assert HandleCheckpoint(Passing(s), s.log[s.cursor.index], false) == Commit(Passing(s), s.log[s.cursor.index].ts);
    }
  }

  lemma NoticeKeepsThrottled(s: State, key: Key, record: Record, at: nat)
    requires Throttled(s) && s.wait.Some?
    ensures Throttled(QueueChange(s, key, record, at))
  {
  }

  lemma QueueChangeKeepsThrottled(s: State, key: Key, record: Record)
    requires Throttled(s) && s.streaming && s.cursor.index < |s.log| && !s.log[s.cursor.index].op.Checkpoint?
    ensures Throttled(QueueChange(Passing(s), key, record, s.cursor.index))
  {
    var at := s.cursor.index;
    if s.wait.Some? {
      PassKeepsThrottled(s);
      NoticeKeepsThrottled(Passing(s), key, record, at);
    } else {
      AwaitBarrierKeepsThrottled(Passing(s).(streaming := false));
      NoticeKeepsThrottled(AwaitBarrier(Passing(s)), key, record, at);
    }
  }

  /** What the throttle depends on; all else in the state is free. */
  ghost predicate SameLoop(s: State, t: State) {
    && s.log == t.log && s.resume.index <= |s.log| && s.instance == t.instance && s.running == t.running
    && s.streaming == t.streaming && s.cursor.index == t.cursor.index && s.startTs == t.startTs
    && s.startHead == t.startHead && s.committed == t.committed && s.wait == t.wait
  }

  lemma SameLoopThrottled(s: State, t: State)
    requires Throttled(s) && SameLoop(t, s)
    ensures Throttled(t)
  {
  }

  lemma SkipKeepsThrottled(s: State)
    requires Throttled(s) && s.streaming && s.cursor.index < |s.log| && s.log[s.cursor.index].ts <= s.startTs
    ensures Throttled(Passing(s).(held := s.held))
  {
    if s.startHead <= s.cursor.index {
      NewEntriesAreRead(s, s.cursor.index);
    }
    PassKeepsThrottled(s);
  }

  lemma DropKeepsThrottled(s: State, table: int)
    requires Throttled(s) && s.streaming && s.cursor.index < |s.log| && s.log[s.cursor.index].op.DropTable?
    ensures Throttled(HandleDrop(Passing(s), table))
  {
    PassKeepsThrottled(s);
    HandleDropSameLoop(Passing(s), table);
    SameLoopThrottled(Passing(s), HandleDrop(Passing(s), table));
  }

  lemma HandleDropSameLoop(h: State, table: int)
    requires h.resume.index <= |h.log|
    ensures SameLoop(HandleDrop(h, table), h)
  {
  }

  lemma DispatchKeepsThrottled(s: State, buffered: bool)
    requires Throttled(s) && s.streaming && s.cursor.index < |s.log|
    ensures Throttled(Dispatch(Passing(s), s.log[s.cursor.index], s.cursor.index, buffered))
  {
    var e := s.log[s.cursor.index];
    if e.op.Checkpoint? {
      HandleCheckpointKeepsThrottled(s, buffered);
    } else if e.op.DropTable? {
      DropKeepsThrottled(s, e.op.table);
    } else {
      ChangeKeepsThrottled(s, buffered);
    }
  }

  lemma ChangeKeepsThrottled(s: State, buffered: bool)
    requires Throttled(s) && s.streaming && s.cursor.index < |s.log|
    requires var op := s.log[s.cursor.index].op; op.Put? || op.Remove?
    ensures Throttled(Dispatch(Passing(s), s.log[s.cursor.index], s.cursor.index, buffered))
  {
    var op := s.log[s.cursor.index].op;
    QueueChangeKeepsThrottled(s, op.key, if op.Put? then Row(op.value) else Tombstone);
  }

  lemma HandleEventKeepsThrottled(s: State, buffered: bool)
    requires Throttled(s) && s.streaming && s.cursor.index < |s.log|
    ensures Throttled(HandleEvent(s, buffered))
  {
    if s.log[s.cursor.index].ts <= s.startTs {
      SkipKeepsThrottled(s);
    } else {
      DispatchKeepsThrottled(s, buffered);
    }
  }

  lemma MarkersKeepThrottled(s: State)
    requires Throttled(s)
    ensures Throttled(WriteCheckpoint(s, Standalone))
    ensures Throttled(WriteCheckpoint(WriteCheckpoint(s, Standalone), Standalone))
  {
    AppendKeepsThrottled(s, [Checkpoint(Standalone)], [1]);
    AppendKeepsThrottled(WriteCheckpoint(s, Standalone), [Checkpoint(Standalone)], [1]);
  }

  lemma SnapshotStepKeepsThrottled(s: State, a: Action)
    requires Throttled(s) && Enabled(s, a)
    requires a.BeginScan? || a.ScanRead? || a.ScanFinish? || a.ScanFlush? || a.SaveProgress? || a.FinishTable? || a.MarkSnapshotDone?
    ensures Throttled(Step(s, a))
  {
    if a.FinishTable? {
      FinishTableKeepsThrottled(s);
    } else if a.MarkSnapshotDone? {
      MarkSnapshotDoneKeepsThrottled(s);
    } else {
      if a.ScanFlush? { ScanFlushSameLoop(s, a.count); } else { CopyStepSameLoop(s, a); }
      SameLoopThrottled(s, Step(s, a));
    }
  }

  lemma CopyStepSameLoop(s: State, a: Action)
    requires Enabled(s, a) && s.resume.index <= |s.log|
    requires a.BeginScan? || a.ScanRead? || a.ScanFinish? || a.SaveProgress?
    ensures SameLoop(Step(s, a), s)
  {
  }

  lemma ScanFlushSameLoop(s: State, count: nat)
    requires Enabled(s, ScanFlush(count)) && s.resume.index <= |s.log|
    ensures SameLoop(Step(s, ScanFlush(count)), s)
  {
  }

  lemma FinishTableKeepsThrottled(s: State)
    requires Throttled(s) && Enabled(s, FinishTable)
    ensures Throttled(Step(s, FinishTable))
  {
    MarkersKeepThrottled(s);
    SameLoopThrottled(WriteCheckpoint(s, Standalone), Step(s, FinishTable));
  }

  lemma MarkSnapshotDoneKeepsThrottled(s: State)
    requires Throttled(s) && Enabled(s, MarkSnapshotDone)
    ensures Throttled(Step(s, MarkSnapshotDone))
  {
    MarkersKeepThrottled(s);
    SameLoopThrottled(WriteCheckpoint(WriteCheckpoint(s, Standalone), Standalone), Step(s, MarkSnapshotDone));
  }

  lemma StreamStepKeepsThrottled(s: State, a: Action)
    requires Throttled(s) && Enabled(s, a)
    requires a.ReadFragment? || a.FlushSome? || a.BatchEnd? || a.Crash?
    ensures Throttled(Step(s, a))
  {
    if a.BatchEnd? { BatchEndKeepsThrottled(s, a.batchEnd); }
  }

  lemma BatchEndKeepsThrottled(s: State, batchEnd: Position)
    requires Throttled(s) && Enabled(s, BatchEnd(batchEnd))
    ensures Throttled(Step(s, BatchEnd(batchEnd)))
  {
    StoredEndIsThrottled(s, batchEnd);
    HaltKeepsThrottled(FlushAll(s).(resume := batchEnd));
  }

  lemma StoredEndIsThrottled(s: State, batchEnd: Position)
    requires Throttled(s) && batchEnd.index <= |s.log|
    ensures Throttled(FlushAll(s).(resume := batchEnd))
  {
  }

  lemma HaltKeepsThrottled(s: State)
    requires Throttled(s)
    ensures Throttled(Halt(s))
  {
  }

  /** Every step keeps it, whatever crashes, aborts or snapshot activity came before. */
  lemma StepKeepsThrottled(s: State, a: Action)
    requires Throttled(s) && Enabled(s, a)
    ensures Throttled(Step(s, a))
  {
    match a
    case SourceCommit(ops, fragments) => AppendKeepsThrottled(s, ops, fragments);
    case Start(at) => StartKeepsThrottled(s, at);
    case OpenStream => AwaitBarrierKeepsThrottled(s);
    case ReadEvent(buffered) => HandleEventKeepsThrottled(s, buffered);
    case IdleKeepalive => CommitKeepsThrottled(s, TimeOf(s.log, s.cursor));
    case ExtraBarrier => AppendKeepsThrottled(s, [Checkpoint(Own(s.instance))], [1]);
    case ReadFragment => StreamStepKeepsThrottled(s, a);
    case FlushSome(_) => StreamStepKeepsThrottled(s, a);
    case BatchEnd(_) => StreamStepKeepsThrottled(s, a);
    case Crash => StreamStepKeepsThrottled(s, a);
    case _ => SnapshotStepKeepsThrottled(s, a);
  }

  lemma StartKeepsThrottled(s: State, at: nat)
    requires Throttled(s) && Enabled(s, Start(at))
    ensures Throttled(Step(s, Start(at)))
  {
    assert OwnAfter(s.log, s.instance + 1, |s.log|);
  }
}
