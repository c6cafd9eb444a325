/** Whole runs. */
module Replication {
  // The guarantees hold over whole runs: any interleaving of source writes, chunk reads, flushes, stream
  // events, barriers, crashes and restarts.

  import opened SourceLog
  import opened Protocol
  import opened ProtocolInvariant
  import opened Throttling
  import opened ProtocolSteps
  import opened ProtocolEvents
  import opened ProtocolScan
  import opened Wrappers

  lemma InitialInv(s: State)
    requires Initial(s)
    ensures Inv(s)
  {
    assert s.tables == map[] && s.rows == map[];
  }

  lemma SnapshotStepKeepsInv(s: State, a: Action)
    requires Inv(s) && Enabled(s, a)
    requires a.BeginScan? || a.ScanRead? || a.ScanFinish? || a.ScanFlush? || a.SaveProgress? || a.FinishTable? || a.MarkSnapshotDone?
    ensures Inv(Step(s, a))
  {
    match a
    case BeginScan(table) => BeginScanKeepsInv(s, table);
    case ScanRead(at, id) => ScanReadKeepsInv(s, at, id);
    case ScanFinish(at) => ScanFinishKeepsInv(s, at);
    case ScanFlush(count) => ScanFlushKeepsInv(s, count);
    case SaveProgress(id) => SaveProgressKeepsInv(s, id);
    case FinishTable => FinishTableKeepsInv(s);
    case MarkSnapshotDone => MarkSnapshotDoneKeepsInv(s);
  }

  lemma CleanStepKeepsInv(s: State, a: Action)
    requires Inv(s) && Throttled(s) && Enabled(s, a) && Clean(s, a)
    ensures Inv(Step(s, a))
  {
    if a.OpenStream? || a.ReadFragment? || a.FlushSome? || a.BatchEnd? || a.IdleKeepalive? {
      StreamStepKeepsInv(s, a);
    } else if a.SourceCommit? || a.Start? || a.ExtraBarrier? || a.Crash? || a.ReadEvent? {
      OuterStepKeepsInv(s, a);
    } else {
      SnapshotStepKeepsInv(s, a);
    }
  }

  lemma OuterStepKeepsInv(s: State, a: Action)
    requires Inv(s) && Throttled(s) && Enabled(s, a) && Clean(s, a)
    requires a.SourceCommit? || a.Start? || a.ExtraBarrier? || a.Crash? || a.ReadEvent?
    ensures Inv(Step(s, a))
  {
    match a
    case SourceCommit(ops, fragments) => AppendKeepsInv(s, ops, fragments);
    case Start(at) => StartKeepsInv(s, at);
    case ExtraBarrier => AppendKeepsInv(s, [Checkpoint(Own(s.instance))], [1]);
    case Crash => HaltKeepsInv(s);
    case ReadEvent(buffered) => HandleEventKeepsInv(s, buffered);
  }

  lemma StreamStepKeepsInv(s: State, a: Action)
    requires Inv(s) && Throttled(s) && Enabled(s, a) && Clean(s, a)
    requires a.OpenStream? || a.ReadFragment? || a.FlushSome? || a.BatchEnd? || a.IdleKeepalive?
    ensures Inv(Step(s, a))
  {
    match a
    case OpenStream => OpenStreamKeepsInv(s);
    case ReadFragment => ReadFragmentKeepsInv(s);
    case FlushSome(count) => FlushSomeKeepsInv(s, count);
    case BatchEnd(batchEnd) => BatchEndKeepsInv(s);
    case IdleKeepalive => IdleKeepaliveKeepsInv(s);
  }

  lemma IdleKeepaliveKeepsInv(s: State)
    requires Inv(s) && Throttled(s) && Enabled(s, IdleKeepalive) && Clean(s, IdleKeepalive)
    ensures Inv(Step(s, IdleKeepalive))
  {
    CommitKeepsInv(s);
  }

  lemma {:induction false} CleanRunIsRun(s: State, actions: seq<Action>)
    requires IsCleanRun(s, actions)
    ensures IsRun(s, actions)
    decreases |actions|
  {
    if actions != [] { CleanRunIsRun(Step(s, actions[0]), actions[1..]); }
  }

  ghost function CleanFinal(s: State, actions: seq<Action>): State
    requires IsCleanRun(s, actions)
  {
    CleanRunIsRun(s, actions);
    Final(s, actions)
  }

  lemma {:induction false} CleanRunKeepsInv(s: State, actions: seq<Action>)
    requires Inv(s) && Throttled(s) && IsCleanRun(s, actions)
    ensures Inv(CleanFinal(s, actions)) && Throttled(CleanFinal(s, actions))
    decreases |actions|
  {
    if actions != [] {
      CleanStepKeepsInv(s, actions[0]);
      StepKeepsThrottled(s, actions[0]);
      CleanRunIsRun(s, actions);
      CleanRunKeepsInv(Step(s, actions[0]), actions[1..]);
    }
  }

  lemma ReachableInv(s: State, actions: seq<Action>)
    requires Initial(s) && IsCleanRun(s, actions)
    ensures Inv(CleanFinal(s, actions)) && Throttled(CleanFinal(s, actions))
  {
    InitialInv(s);
    InitialIsThrottled(s);
    CleanRunKeepsInv(s, actions);
  }

  // ----- consistency -----

  /** Every checkpoint a client is ever given shows exactly the source's rows at one log position, is
      labelled with that position's time, and has no row under a number that is nobody's. */
  lemma EveryCheckpointIsExact(s: State, actions: seq<Action>, c: Published)
    requires Initial(s) && IsCleanRun(s, actions) && c in CleanFinal(s, actions).published
    ensures var log := CleanFinal(s, actions).log;
            && c.index <= |log| && c.lsn == TsAt(log, c.index)
            && c.rows == SourceAt(log, c.index) && c.strays == map[] && IsExact(log, c)
  {
    ReachableInv(s, actions);
  }

  /** The stored rows equal the source wherever the snapshot is complete and the stream stands, past
      where it started, at or past the last snapshot marker. */
  lemma CaughtUpStoreIsExact(s: State, actions: seq<Action>)
    requires Initial(s) && IsCleanRun(s, actions)
    ensures var f := CleanFinal(s, actions);
            f.cursor.index <= |f.log|
            && (f.running && f.snapshotDone && f.startHead < f.cursor.index
                && f.noCheckpointBefore <= TsAt(f.log, f.cursor.index)
                ==> Visible(Effective(f)) == SourceAt(f.log, f.cursor.index) && f.strays == map[])
  {
    ReachableInv(s, actions);
    var f := CleanFinal(s, actions);
    if f.running && f.snapshotDone && f.startHead < f.cursor.index && f.noCheckpointBefore <= TsAt(f.log, f.cursor.index) {
      GatesOpenMeansCaughtUp(f);
      CaughtUpIsExact(f.log, High(f), CoverageOf(f), Effective(f), f.cursor.index);
    }
  }

  /** Crash and resume converge: two runs, however often and wherever either crashed, store the same
      rows once each has copied every table and read its log to the end, if the sources agree. */
  lemma RunsConverge(s: State, run: seq<Action>, s': State, run': seq<Action>)
    requires Initial(s) && IsCleanRun(s, run) && Initial(s') && IsCleanRun(s', run')
    requires var f, f' := CleanFinal(s, run), CleanFinal(s', run');
             && f.running && f.snapshotDone && f.cursor.index == |f.log|
             && f'.running && f'.snapshotDone && f'.cursor.index == |f'.log|
             && SourceAt(f.log, |f.log|) == SourceAt(f'.log, |f'.log|)
    ensures var f, f' := CleanFinal(s, run), CleanFinal(s', run');
            Visible(Effective(f)) == Visible(Effective(f')) && f.strays == f'.strays == map[]
  {
    var f, f' := CleanFinal(s, run), CleanFinal(s', run');
    ReachableInv(s, run);
    ReachableInv(s', run');
    CaughtUpIsExact(f.log, High(f), CoverageOf(f), Effective(f), |f.log|);
    CaughtUpIsExact(f'.log, High(f'), CoverageOf(f'), Effective(f'), |f'.log|);
  }

  // ----- throttling -----

  lemma {:induction false} RunKeepsThrottled(s: State, actions: seq<Action>)
    requires Throttled(s) && IsRun(s, actions)
    ensures Throttled(Final(s, actions))
    decreases |actions|
  {
    if actions != [] {
      StepKeepsThrottled(s, actions[0]);
      RunKeepsThrottled(Step(s, actions[0]), actions[1..]);
    }
  }

  /** No change and no standalone checkpoint is lost to throttling, in any run, clean or not: while one
      the stream has passed is not followed by a commit, a barrier it waits for is ahead in the log. */
  lemma UncoveredMeansBarrierAhead(s: State, actions: seq<Action>, i: nat)
    requires Initial(s) && IsRun(s, actions)
    requires var f := Final(s, actions); f.streaming && f.committed <= i < f.cursor.index && i < |f.log| && NeedsCommit(f.log[i].op)
    ensures var f := Final(s, actions); f.wait.Some? && BarrierAhead(f.log, f.instance, f.cursor.index, f.wait.value)
  {
    InitialIsThrottled(s);
    RunKeepsThrottled(s, actions);
  }

  /** Once everything written so far is observed, all of it is covered by a commit. */
  lemma AllObservedIsAllCovered(s: State, actions: seq<Action>)
    requires Initial(s) && IsRun(s, actions)
    requires var f := Final(s, actions); f.streaming && f.cursor.index == |f.log|
    ensures var f := Final(s, actions); f.wait.None? && Covered(f.log, f.committed, |f.log|)
  {
    InitialIsThrottled(s);
    RunKeepsThrottled(s, actions);
  }

  // ----- checkpoints never go back -----

  ghost predicate Ordered(s: State) {
    && (forall i, j :: 0 <= i < j < |s.published| ==> s.published[i].lsn <= s.published[j].lsn)
    && (forall i :: 0 <= i < |s.published| ==> s.published[i].lsn <= s.lastCheckpoint)
  }

  /** A step publishes nothing, or one checkpoint not earlier than the last. */
  predicate Publishes(s: State, t: State) {
    || (t.published == s.published && t.lastCheckpoint == s.lastCheckpoint)
    || (|t.published| == |s.published| + 1 && t.published[..|s.published|] == s.published
        && t.published[|s.published|].lsn == t.lastCheckpoint && s.lastCheckpoint <= t.lastCheckpoint)
  }

  lemma CommitPublishes(s: State, lsn: nat)
    ensures Publishes(s, Commit(s, lsn))
  {
  }

  lemma HandleCheckpointPublishes(h: State, e: Entry, buffered: bool)
    requires e.op.Checkpoint?
    ensures Publishes(h, HandleCheckpoint(h, e, buffered))
  {
    CheckpointIs(h, e, buffered);
    CommitPublishes(h.(wait := Resolved(h.wait, e.ts)), e.ts);
  }

  lemma QueueChangePublishes(h: State, key: Key, record: Record, at: nat)
    ensures Publishes(h, QueueChange(h, key, record, at))
  {
    assert AwaitBarrier(h).published == h.published;
  }

  lemma DispatchPublishes(h: State, e: Entry, at: nat, buffered: bool)
    ensures Publishes(h, Dispatch(h, e, at, buffered))
  {
    match e.op
    case Put(k, v) => QueueChangePublishes(h, k, Row(v), at);
    case Remove(k) => QueueChangePublishes(h, k, Tombstone, at);
    case DropTable(t) => HandleDropPublishes(h, t);
    case Checkpoint(_) => HandleCheckpointPublishes(h, e, buffered);
  }

  lemma HandleEventPublishes(s: State, buffered: bool)
    requires s.cursor.index < |s.log|
    ensures Publishes(s, HandleEvent(s, buffered))
  {
    DispatchPublishes(Passing(s), s.log[s.cursor.index], s.cursor.index, buffered);
  }

  lemma HandleDropPublishes(h: State, table: int)
    ensures Publishes(h, HandleDrop(h, table))
  {
  }

  lemma PublishesKeepsOrdered(s: State, t: State)
    requires Ordered(s) && Publishes(s, t)
    ensures Ordered(t) && s.published <= t.published
  {
    forall i | 0 <= i < |s.published| ensures t.published[i] == s.published[i] {
      assert |t.published| > |s.published| ==> t.published[..|s.published|][i] == s.published[i];
    }
  }

  lemma StepKeepsOrdered(s: State, a: Action)
    requires Ordered(s) && Enabled(s, a)
    ensures Ordered(Step(s, a)) && s.published <= Step(s, a).published
  {
    StepPublishes(s, a);
    PublishesKeepsOrdered(s, Step(s, a));
  }

  lemma StepPublishes(s: State, a: Action)
    requires Enabled(s, a)
    ensures Publishes(s, Step(s, a))
  {
    match a
    case ReadEvent(buffered) => HandleEventPublishes(s, buffered);
    case IdleKeepalive => CommitPublishes(s, TimeOf(s.log, s.cursor));
    case FinishTable => FinishTablePublishes(s);
    case ScanFlush(count) => ScanFlushPublishes(s, count);
    case _ => OthersPublish(s, a);
  }

  lemma OthersPublish(s: State, a: Action)
    requires Enabled(s, a) && !a.ReadEvent? && !a.IdleKeepalive? && !a.FinishTable? && !a.ScanFlush?
    ensures Publishes(s, Step(s, a))
  {
  }

  lemma ScanFlushPublishes(s: State, count: nat)
    requires Enabled(s, ScanFlush(count))
    ensures Publishes(s, Step(s, ScanFlush(count)))
  {
  }

  lemma FinishTablePublishes(s: State)
    requires Enabled(s, FinishTable)
    ensures Publishes(s, Step(s, FinishTable))
  {
  }

  /** In any run, clean or not, a checkpoint once given is kept and the next is never earlier. */
  lemma {:induction false} CheckpointsNeverGoBack(s: State, actions: seq<Action>)
    requires Ordered(s) && IsRun(s, actions)
    ensures Ordered(Final(s, actions)) && s.published <= Final(s, actions).published
    decreases |actions|
  {
    if actions != [] {
      StepKeepsOrdered(s, actions[0]);
      CheckpointsNeverGoBack(Step(s, actions[0]), actions[1..]);
    }
  }

  // ----- where the loop loses events -----

  /** A restart from this position delivers everything after the cursor, and from its first fragment on. */
  predicate ResumesAfter(log: Log, p: Position, cursor: Position)
    requires p.index <= |log| && cursor.index <= |log|
  {
    Delivered(log, p.index) == log[cursor.index..] && p.fragment == 0
  }

  /** What a batch persists is what a restart resumes from. Nothing is lost or repeated exactly when
      the whole batch was processed and its end does not split a transaction. */
  lemma BatchIsResumableIffClean(s: State, batchEnd: Position)
    requires WellFormed(s.log) && Enabled(s, BatchEnd(batchEnd))
    ensures ResumesAfter(s.log, Step(s, BatchEnd(batchEnd)).resume, s.cursor) <==> Clean(s, BatchEnd(batchEnd))
  {
    assert Step(s, BatchEnd(batchEnd)).resume == batchEnd;
    ResumesAfterIffAtRest(s.log, batchEnd, s.cursor);
  }

  lemma ResumesAfterIffAtRest(log: Log, p: Position, cursor: Position)
    requires WellFormed(log) && p.index <= |log| && NotAfter(cursor, p)
    ensures ResumesAfter(log, p, cursor) <==> p == cursor && cursor.fragment == 0 && Boundary(log, cursor.index)
  {
    DropNotNewerLength(log[p.index..], TsAt(log, p.index));
    if p.index == cursor.index {
      ResumeDeliversAllIffBoundary(log, p.index);
    }
  }

  /** The keepalive of an idle stream persists the stream's position as it is. Nothing is lost exactly
      when that is not between the fragments of a change or inside a transaction. */
  lemma KeepaliveIsResumableIffClean(s: State)
    requires WellFormed(s.log) && Enabled(s, IdleKeepalive) && NotAfter(s.resume, s.cursor)
    ensures Step(s, IdleKeepalive).resume == s.cursor
    ensures ResumesAfter(s.log, s.cursor, s.cursor) <==> Clean(s, IdleKeepalive)
  {
    ResumeDeliversAllIffBoundary(s.log, s.cursor.index);
  }
}
