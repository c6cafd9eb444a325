/** A drop under a copy. */
module DroppedCopy {
  // A collection is dropped while it is copied. If its copy is at its end when the stream meets the drop,
  // every checkpoint stays exact, whatever follows; and if it is not, the run can go on to a checkpoint that
  // shows a row the source does not have.

  import opened SourceLog
  import opened Protocol
  import opened ProtocolInvariant
  import opened Throttling
  import opened ProtocolEvents
  import opened Replication
  import opened Wrappers

  ghost predicate EndsWrong(s: State) {
    exists c :: c in s.published && c.index <= |s.log| && !IsExact(s.log, c)
  }

  /** Clean steps lead from one state to the other. */
  ghost predicate Reaches(s: State, t: State) {
    exists run :: IsCleanRun(s, run) && CleanFinal(s, run) == t
  }

  lemma {:induction false} CleanRunThen(s: State, run: seq<Action>, a: Action)
    requires IsCleanRun(s, run) && Enabled(CleanFinal(s, run), a) && Clean(CleanFinal(s, run), a)
    ensures IsCleanRun(s, run + [a]) && CleanFinal(s, run + [a]) == Step(CleanFinal(s, run), a)
    decreases |run|
  {
    if run == [] {
      assert run + [a] == [a] && [a][1..] == [];
      assert IsCleanRun(Step(s, a), []) && Final(Step(s, a), []) == Step(s, a);
      assert Final(s, [a]) == Final(Step(s, a), [a][1..]);
    } else {
      CleanRunThen(Step(s, run[0]), run[1..], a);
      assert (run + [a])[1..] == run[1..] + [a];
    }
  }

  lemma Then(s: State, t: State, a: Action)
    requires Reaches(s, t) && Enabled(t, a) && Clean(t, a)
    ensures Reaches(s, Step(t, a))
  {
    var run :| IsCleanRun(s, run) && CleanFinal(s, run) == t;
    CleanRunThen(s, run, a);
    assert IsCleanRun(s, run + [a]);
  }

  // ----- no bound is ahead of the log -----

  ghost predicate Timed(s: State) {
    && s.lastCheckpoint <= LastTs(s.log) && s.noCheckpointBefore <= LastTs(s.log)
    && (s.scan.Scanning? ==> s.scan.resumeFrom <= LastTs(s.log))
  }

  lemma AppendKeepsTimed(s: State, ops: seq<Op>, fragments: seq<nat>)
    requires Timed(s) && |ops| == |fragments| && |ops| > 0
    ensures Timed(Append(s, ops, fragments)) && LastTs(Append(s, ops, fragments).log) == LastTs(s.log) + 1
  {
  }

  lemma TimesAreBounded(log: Log, n: nat)
    requires WellFormed(log) && n <= |log|
    ensures TsAt(log, n) <= LastTs(log)
  {
  }

  lemma PositionsAreBounded(log: Log, p: Position)
    requires WellFormed(log)
    ensures TimeOf(log, p) <= LastTs(log)
  {
  }

  lemma CommitKeepsTimed(s: State, lsn: nat)
    requires Timed(s) && lsn <= LastTs(s.log)
    ensures Timed(Commit(s, lsn))
  {
  }

  lemma AwaitKeepsTimed(s: State)
    requires Timed(s)
    ensures Timed(AwaitBarrier(s))
  {
    AppendKeepsTimed(s, [Checkpoint(Own(s.instance))], [1]);
  }

  lemma CheckpointKeepsTimed(h: State, e: Entry, buffered: bool)
    requires Timed(h) && e.op.Checkpoint? && e.ts <= LastTs(h.log)
    ensures Timed(HandleCheckpoint(h, e, buffered))
  {
    CheckpointIs(h, e, buffered);
    AwaitKeepsTimed(h);
    CommitKeepsTimed(h.(wait := Resolved(h.wait, e.ts)), e.ts);
  }

  lemma QueueChangeKeepsTimed(h: State, key: Key, record: Record, at: nat)
    requires Timed(h)
    ensures Timed(QueueChange(h, key, record, at))
  {
    QueueChangeIs(h, key, record, at);
  }

  lemma HandleDropKeepsTimed(h: State, table: int)
    requires Timed(h)
    ensures Timed(HandleDrop(h, table))
  {
  }

  lemma HandleEventKeepsTimed(s: State, buffered: bool)
    requires Timed(s) && WellFormed(s.log) && s.cursor.index < |s.log|
    ensures Timed(HandleEvent(s, buffered))
  {
    TimesAreBounded(s.log, s.cursor.index + 1);
    DispatchKeepsTimed(Passing(s), s.log[s.cursor.index], s.cursor.index, buffered);
  }

  lemma DispatchKeepsTimed(h: State, e: Entry, at: nat, buffered: bool)
    requires Timed(h) && e.ts <= LastTs(h.log)
    ensures Timed(Dispatch(h, e, at, buffered))
  {
    match e.op
    case Put(k, v) => QueueChangeKeepsTimed(h, k, Row(v), at);
    case Remove(k) => QueueChangeKeepsTimed(h, k, Tombstone, at);
    case DropTable(t) => HandleDropKeepsTimed(h, t);
    case Checkpoint(_) => CheckpointKeepsTimed(h, e, buffered);
  }

  lemma FinishTableKeepsTimed(s: State)
    requires Timed(s) && Enabled(s, FinishTable)
    ensures Timed(Step(s, FinishTable))
  {
    AppendKeepsTimed(s, [Checkpoint(Standalone)], [1]);
  }

  lemma MarkKeepsTimed(s: State)
    requires Timed(s) && Enabled(s, MarkSnapshotDone)
    ensures Timed(Step(s, MarkSnapshotDone))
  {
    AppendKeepsTimed(s, [Checkpoint(Standalone)], [1]);
    var w := WriteCheckpoint(s, Standalone);
    AppendKeepsTimed(w.(snapshotDone := true, noCheckpointBefore := Max(s.noCheckpointBefore, LastTs(w.log))), [Checkpoint(Standalone)], [1]);
  }

  lemma StepKeepsTimed(s: State, a: Action)
    requires Timed(s) && Throttled(s) && Enabled(s, a)
    ensures Timed(Step(s, a))
  {
    match a
    case SourceCommit(ops, fragments) => AppendKeepsTimed(s, ops, fragments);
    case OpenStream => AwaitKeepsTimed(s);
    case ReadEvent(buffered) => HandleEventKeepsTimed(s, buffered);
    case IdleKeepalive =>
      PositionsAreBounded(s.log, s.cursor);
      CommitKeepsTimed(s, TimeOf(s.log, s.cursor));
    case ExtraBarrier => AppendKeepsTimed(s, [Checkpoint(Own(s.instance))], [1]);
    case BeginScan(_) => PositionsAreBounded(s.log, s.resume);
    case FinishTable => FinishTableKeepsTimed(s);
    case MarkSnapshotDone => MarkKeepsTimed(s);
    case Start(_) =>
    case ReadFragment =>
    case FlushSome(_) =>
    case BatchEnd(_) =>
    case Crash =>
    case ScanFlush(count) => ScanFlushKeepsTimed(s, count);
    case _ => CopyKeepsTimed(s, a);
  }

  lemma CopyKeepsTimed(s: State, a: Action)
    requires Timed(s) && Enabled(s, a) && (a.ScanRead? || a.ScanFinish? || a.SaveProgress?)
    ensures Timed(Step(s, a))
  {
  }

  lemma ScanFlushKeepsTimed(s: State, count: nat)
    requires Timed(s) && Enabled(s, ScanFlush(count))
    ensures Timed(Step(s, ScanFlush(count)))
  {
  }

  lemma {:induction false} RunKeepsTimed(s: State, actions: seq<Action>)
    requires Timed(s) && Throttled(s) && IsCleanRun(s, actions)
    ensures Timed(CleanFinal(s, actions))
    decreases |actions|
  {
    if actions != [] {
      StepKeepsTimed(s, actions[0]);
      StepKeepsThrottled(s, actions[0]);
      RunKeepsTimed(Step(s, actions[0]), actions[1..]);
    }
  }

  // ----- a row under a number that is nobody's -----

  ghost predicate Sound(s: State) {
    Throttled(s) && Timed(s) && s.streaming && s.running && !s.snapshotDone
  }

  predicate Holds(strays: Strays, n: nat, k: Key) {
    n in strays && k in strays[n] && strays[n][k].Row?
  }

  /** A row is stored that nothing can remove, and the source ends without it. */
  ghost predicate Doomed(s: State, n: nat, k: Key) {
    Sound(s) && Holds(s.strays, n, k) && k !in SourceAt(s.log, |s.log|)
  }

  /** A copy has outlived its table, and has more to read or to write. */
  ghost predicate Orphaned(s: State) {
    && s.scan.Scanning? && !Registered(s.tables, s.scan) && s.scan.since <= |s.log| && s.strays == map[]
    && (s.scan.buffer != [] || !s.scan.finished) && forall i :: 0 <= i < |s.scan.buffer| ==> s.scan.buffer[i].0.table == s.scan.table
  }

  /** The state with one more entry in the log. */
  function Grown(s: State, op: Op): State {
    s.(log := s.log + [Entry(LastTs(s.log) + 1, op, 1)])
  }

  lemma ThenSound(s0: State, s: State, a: Action, t: State)
    requires Reaches(s0, s) && Sound(s) && Enabled(s, a) && Clean(s, a) && t == Step(s, a)
    requires t.streaming && t.running && !t.snapshotDone
    ensures Reaches(s0, t) && Sound(t)
  {
    Then(s0, s, a);
    StepKeepsThrottled(s, a);
    StepKeepsTimed(s, a);
  }

  lemma CommitOne(s0: State, s: State, op: Op)
    requires Reaches(s0, s) && Sound(s) && !op.Checkpoint?
    ensures Reaches(s0, Grown(s, op)) && Sound(Grown(s, op))
    ensures SourceAt(Grown(s, op).log, |s.log| + 1) == ApplyOp(SourceAt(s.log, |s.log|), op)
  {
    var a := SourceCommit([op], [1]);
    assert Committed(LastTs(s.log) + 1, [op], [1]) == [Entry(LastTs(s.log) + 1, op, 1)];
    ThenSound(s0, s, a, Grown(s, op));
    SourceAtPrefix(s.log, [Entry(LastTs(s.log) + 1, op, 1)], |s.log|);
  }

  lemma DropOrphans(s: State, buffered: bool)
    requires Inv(s) && Throttled(s) && Timed(s) && Enabled(s, ReadEvent(buffered))
    requires s.log[s.cursor.index].op.DropTable? && !Clean(s, ReadEvent(buffered))
    ensures var d := Step(s, ReadEvent(buffered)); Sound(d) && Orphaned(d)
  {
    assert s.startTs < s.log[s.cursor.index].ts;
    StepKeepsThrottled(s, ReadEvent(buffered));
    StepKeepsTimed(s, ReadEvent(buffered));
  }

  /** An orphaned copy leads on to a document that is still to be written. */
  lemma OrphanReads(s0: State, s: State) returns (t: State)
    requires Reaches(s0, s) && Sound(s) && Orphaned(s)
    ensures Reaches(s0, t) && Sound(t) && Orphaned(t) && t.scan.buffer != []
  {
    if s.scan.buffer != [] {
      return s;
    }
    var table, id := s.scan.table, IdAfter(s.scan.cursor);
    CommitOne(s0, s, DropTable(table));
    var dropped := Grown(s, DropTable(table));
    CommitOne(s0, dropped, Put(Key(table, id), ""));
    var created := Grown(dropped, Put(Key(table, id), ""));
    OnlyRowIsNext(SourceAt(s.log, |s.log|), table, s.scan.cursor);
    t := Step(created, ScanRead(|created.log|, id));
    ReadIs(created, |created.log|, id);
    ThenSound(s0, created, ScanRead(|created.log|, id), t);
  }

  function IdAfter(cursor: Option<int>): int {
    if cursor.Some? then cursor.value + 1 else 0
  }

  lemma OnlyRowIsNext(rows: Rows, table: int, cursor: Option<int>)
    ensures var id := IdAfter(cursor);
            NextKey(ApplyOp(ApplyOp(rows, DropTable(table)), Put(Key(table, id), "")), table, cursor, id)
  {
  }

  lemma ReadIs(s: State, at: nat, id: int)
    requires Enabled(s, ScanRead(at, id)) && Orphaned(s)
    ensures var t := Step(s, ScanRead(at, id));
            && Orphaned(t) && t.scan.buffer != []
            && t.log == s.log && t.streaming == s.streaming && t.running == s.running && t.snapshotDone == s.snapshotDone
  {
  }

  lemma OrphanWrites(s: State)
    requires Orphaned(s) && s.scan.buffer != []
    ensures var t := Step(s, ScanFlush(|s.scan.buffer|));
            && t == s.(scan := s.scan.(buffer := []), strays := t.strays) && Holds(t.strays, s.scan.serial, s.scan.buffer[0].0)
  {
    var docs, n := s.scan.buffer, s.scan.serial;
    assert docs[..|docs|] == docs && docs[|docs|..] == [] && Buffered(docs, docs[0].0);
    var doc := InsertMissingKey(map[], docs, docs[0].0);
  }

  /** It writes the document, the source drops the collection again, and the copy ends. */
  lemma OrphanDooms(s0: State, s: State) returns (t: State, n: nat, k: Key)
    requires Reaches(s0, s) && Sound(s) && Orphaned(s) && s.scan.buffer != []
    ensures Reaches(s0, t) && Doomed(t, n, k) && t.scan.Idle?
  {
    n, k := s.scan.serial, s.scan.buffer[0].0;
    OrphanWrites(s);
    var a := ScanFlush(|s.scan.buffer|);
    var w := Step(s, a);
    ThenSound(s0, s, a, w);
    CommitOne(s0, w, DropTable(k.table));
    t := FinishDoomed(s0, Grown(w, DropTable(k.table)), n, k);
  }

  lemma FinishDoomed(s0: State, s: State, n: nat, k: Key) returns (t: State)
    requires Reaches(s0, s) && Doomed(s, n, k) && s.scan.Scanning? && s.scan.buffer == [] && s.scan.since <= |s.log|
    requires forall r :: r in SourceAt(s.log, |s.log|) ==> r.table != s.scan.table
    ensures Reaches(s0, t) && Doomed(t, n, k) && t.scan.Idle?
  {
    var f := s;
    if !s.scan.finished {
      f := s.(scan := s.scan.(finished := true), scanHigh := Max(s.scanHigh, |s.log|));
      ThenSound(s0, s, ScanFinish(|s.log|), f);
    }
    FinishStaysDoomed(f, n, k);
    Then(s0, f, FinishTable);
    t := Step(f, FinishTable);
  }

  lemma FinishStaysDoomed(s: State, n: nat, k: Key)
    requires Doomed(s, n, k) && Enabled(s, FinishTable)
    ensures Doomed(Step(s, FinishTable), n, k) && Step(s, FinishTable).scan.Idle?
  {
    StepKeepsThrottled(s, FinishTable);
    StepKeepsTimed(s, FinishTable);
    MarkerIsAppended(s);
    EndWithMarker(s.log, Marker(s.log));
  }

  function Marker(log: Log): Entry {
    Entry(LastTs(log) + 1, Checkpoint(Standalone), 1)
  }

  lemma MarkerIsAppended(s: State)
    ensures WriteCheckpoint(s, Standalone) == s.(log := s.log + [Marker(s.log)])
  {
    assert Committed(LastTs(s.log) + 1, [Checkpoint(Standalone)], [1]) == [Marker(s.log)];
  }

  /** A barrier or marker at the end of the log changes no row. */
  lemma EndWithMarker(log: Log, e: Entry)
    requires e.op.Checkpoint?
    ensures SourceAt(log + [e], |log + [e]|) == SourceAt(log, |log|)
  {
    SourceAtPrefix(log, [e], |log|);
  }

  // ----- reading on to the end of the log -----

  /** Entries ahead that are not checkpoints. */
  ghost function Unread(log: Log, n: nat): nat
    requires n <= |log|
    decreases |log| - n
  {
    if n == |log| then 0 else (if log[n].op.Checkpoint? then 0 else 1) + Unread(log, n + 1)
  }

  lemma {:induction false} UnreadWithBarrier(log: Log, e: Entry, n: nat)
    requires n <= |log| && e.op.Checkpoint?
    ensures Unread(log + [e], n) == Unread(log, n)
    decreases |log| - n
  {
    if n == |log| {
      assert Unread(log + [e], n + 1) == 0;
    } else {
      UnreadWithBarrier(log, e, n + 1);
    }
  }

  function NextAction(s: State): Action
    requires s.cursor.index < |s.log|
  {
    if s.cursor.fragment + 1 < Fragments(s.log[s.cursor.index]) then ReadFragment else ReadEvent(false)
  }

  /** At most a barrier is appended, and only when the entry passed is a change. */
  ghost predicate BarrierFollows(log: Log, log': Log, i: nat)
    requires i < |log|
  {
    log' == log || (!log[i].op.Checkpoint? && exists e: Entry :: e.op.Checkpoint? && log' == log + [e])
  }

  /** The state has moved past one entry while no copy is under way and checkpoints are blocked. */
  ghost predicate MovedOn(s: State, t: State) {
    && s.cursor.index < |s.log| && t.cursor.index == s.cursor.index + 1
    && BarrierFollows(s.log, t.log, s.cursor.index)
    && t.strays == s.strays && t.scan == s.scan && !t.snapshotDone && t.streaming == s.streaming && t.running == s.running
  }

  lemma QueueChangeIs(h: State, key: Key, record: Record, at: nat)
    ensures var t, e := QueueChange(h, key, record, at), Entry(LastTs(h.log) + 1, Checkpoint(Own(h.instance)), 1);
            && t.log == (if h.wait.None? then h.log + [e] else h.log)
            && t.strays == h.strays && t.scan == h.scan
            && t.cursor == h.cursor && t.streaming == h.streaming && t.running == h.running
            && (t.snapshotDone ==> h.snapshotDone)
            && t.noCheckpointBefore == h.noCheckpointBefore && t.lastCheckpoint == h.lastCheckpoint
  {
    BarrierIsAppended(h);
    NoticeTableIs(if h.wait.None? then AwaitBarrier(h) else h, key.table, at);
  }

  lemma NoticeTableIs(b: State, table: int, at: nat)
    ensures var t := NoticeTable(b, table, at);
            t == b.(tables := t.tables, nextSerial := t.nextSerial, snapshotDone := t.snapshotDone) && (t.snapshotDone ==> b.snapshotDone)
  {
  }

  lemma BarrierIsAppended(s: State)
    ensures var e := Entry(LastTs(s.log) + 1, Checkpoint(Own(s.instance)), 1); AwaitBarrier(s) == s.(log := s.log + [e], wait := Some(e.ts))
  {
    assert Committed(LastTs(s.log) + 1, [Checkpoint(Own(s.instance))], [1]) == [Entry(LastTs(s.log) + 1, Checkpoint(Own(s.instance)), 1)];
  }

  lemma QueueChangeMovesOn(s: State, key: Key, record: Record)
    requires s.cursor.index < |s.log| && !s.log[s.cursor.index].op.Checkpoint? && !s.snapshotDone
    ensures MovedOn(s, QueueChange(Passing(s), key, record, s.cursor.index))
  {
    QueueChangeIs(Passing(s), key, record, s.cursor.index);
  }

  lemma DropMovesOn(s: State, table: int)
    requires s.cursor.index < |s.log| && !s.snapshotDone
    ensures MovedOn(s, HandleDrop(Passing(s), table))
  {
  }

  lemma CheckpointMovesOn(s: State)
    requires s.cursor.index < |s.log| && s.log[s.cursor.index].op.Checkpoint? && !s.snapshotDone
    ensures MovedOn(s, HandleCheckpoint(Passing(s), s.log[s.cursor.index], false))
  {
    var h, e := Passing(s), s.log[s.cursor.index];
    CheckpointIs(h, e, false);
    BlockedCommitMovesOn(s, Resolved(h.wait, e.ts), e.ts);
  }

  lemma BlockedCommitMovesOn(s: State, wait: Option<nat>, lsn: nat)
    requires s.cursor.index < |s.log| && !s.snapshotDone
    ensures MovedOn(s, Commit(Passing(s).(wait := wait), lsn))
  {
    assert !CanCheckpoint(Passing(s).(wait := wait), lsn);
  }

  lemma EventMovesOn(s: State)
    requires s.cursor.index < |s.log| && !s.snapshotDone
    ensures MovedOn(s, HandleEvent(s, false))
  {
    var e := s.log[s.cursor.index];
    if s.startTs < e.ts {
      match e.op
      case Put(key, v) => QueueChangeMovesOn(s, key, Row(v));
      case Remove(key) => QueueChangeMovesOn(s, key, Tombstone);
      case DropTable(table) => DropMovesOn(s, table);
      case Checkpoint(_) => CheckpointMovesOn(s);
    }
  }

  lemma MovedOnStaysDoomed(s: State, t: State, n: nat, k: Key)
    requires Doomed(s, n, k) && MovedOn(s, t) && Throttled(t) && Timed(t)
    ensures Doomed(t, n, k)
  {
    if t.log != s.log {
      var e: Entry :| e.op.Checkpoint? && t.log == s.log + [e];
      EndWithMarker(s.log, e);
    }
  }

  lemma MovedOnHasLess(s: State, t: State)
    requires MovedOn(s, t)
    ensures t.cursor.index <= |t.log|
    ensures var left, ahead := Unread(t.log, t.cursor.index), Unread(s.log, s.cursor.index);
            left < ahead || (left == ahead && |t.log| - t.cursor.index < |s.log| - s.cursor.index)
  {
    if t.log != s.log {
      var e: Entry :| e.op.Checkpoint? && t.log == s.log + [e];
      UnreadWithBarrier(s.log, e, s.cursor.index + 1);
    }
  }

  lemma ReadOne(s0: State, s: State, n: nat, k: Key)
    requires Reaches(s0, s) && Doomed(s, n, k) && s.scan.Idle? && s.cursor.index < |s.log|
    ensures var a := NextAction(s);
            && Enabled(s, a) && Reaches(s0, Step(s, a)) && Doomed(Step(s, a), n, k) && Step(s, a).scan.Idle?
            && (a.ReadEvent? ==> MovedOn(s, Step(s, a)))
  {
    var a := NextAction(s);
    Then(s0, s, a);
    StepKeepsThrottled(s, a);
    StepKeepsTimed(s, a);
    if a.ReadEvent? {
      EventMovesOn(s);
      MovedOnStaysDoomed(s, Step(s, a), n, k);
    }
  }

  lemma {:induction false} CatchUp(s0: State, s: State, n: nat, k: Key) returns (t: State)
    requires Reaches(s0, s) && Doomed(s, n, k) && s.scan.Idle?
    ensures Reaches(s0, t) && Doomed(t, n, k) && t.scan.Idle? && t.cursor.index == |t.log|
    decreases Unread(s.log, s.cursor.index), |s.log| - s.cursor.index,
              if s.cursor.index < |s.log| then Fragments(s.log[s.cursor.index]) - s.cursor.fragment else 0
  {
    if s.cursor.index == |s.log| {
      return s;
    }
    ReadOne(s0, s, n, k);
    var next := Step(s, NextAction(s));
    if NextAction(s).ReadEvent? {
      MovedOnHasLess(s, next);
    }
    t := CatchUp(s0, next, n, k);
  }

  // ----- finishing the snapshot -----

  /** The source drops a collection, and the stream sees it. */
  lemma DropOne(s0: State, s: State, n: nat, k: Key, table: int) returns (t: State)
    requires Reaches(s0, s) && Doomed(s, n, k) && s.scan.Idle? && s.cursor.index == |s.log| && table in s.tables
    ensures Reaches(s0, t) && Doomed(t, n, k) && t.scan.Idle? && t.cursor.index == |t.log| && t.tables == s.tables - {table}
  {
    CommitOne(s0, s, DropTable(table));
    var u := Grown(s, DropTable(table));
    ReadOne(s0, u, n, k);
    TimesAreBounded(s.log, s.startHead);
    LastDropIsSeen(u, table);
    t := Step(u, ReadEvent(false));
  }

  lemma LastDropIsSeen(u: State, table: int)
    requires u.streaming && u.cursor.index + 1 == |u.log| && u.log[u.cursor.index] == Entry(LastTs(u.log), DropTable(table), 1)
    requires u.startTs < LastTs(u.log)
    ensures NextAction(u) == ReadEvent(false)
    ensures var t := HandleEvent(u, false); t.tables == u.tables - {table} && t.cursor.index == |t.log|
  {
  }

  lemma {:induction false} DropAll(s0: State, s: State, n: nat, k: Key) returns (t: State)
    requires Reaches(s0, s) && Doomed(s, n, k) && s.scan.Idle? && s.cursor.index == |s.log|
    ensures Reaches(s0, t) && Doomed(t, n, k) && t.scan.Idle? && t.cursor.index == |t.log| && forall table :: table !in t.tables
    decreases s.tables.Keys
  {
    if table :| table in s.tables {
      var u := DropOne(s0, s, n, k, table);
      assert u.tables.Keys == s.tables.Keys - {table};
      t := DropAll(s0, u, n, k);
    } else {
      t := s;
    }
  }

  /** The snapshot is done and its markers are written. */
  function Marked(s: State): State {
    s.(log := s.log + [Marker(s.log), Marker(s.log + [Marker(s.log)])], snapshotDone := true, noCheckpointBefore := LastTs(s.log) + 1)
  }

  lemma MarkIsMarked(s: State)
    requires Enabled(s, MarkSnapshotDone) && s.noCheckpointBefore <= LastTs(s.log)
    ensures Step(s, MarkSnapshotDone) == Marked(s)
  {
    MarkerIsAppended(s);
    var w := WriteCheckpoint(s, Standalone).(snapshotDone := true, noCheckpointBefore := LastTs(s.log) + 1);
    MarkerIsAppended(w);
    assert s.log + [Marker(s.log)] + [Marker(w.log)] == s.log + [Marker(s.log), Marker(s.log + [Marker(s.log)])];
  }

  // ----- the wrong checkpoint -----

  /** The row is stored, nothing is left to copy, and the stream stands at the marker that opens the gate. */
  ghost predicate AtMarker(s: State, n: nat, k: Key) {
    && s.streaming && s.snapshotDone && s.wait.None? && Holds(s.strays, n, k)
    && s.cursor.index < |s.log| && k !in SourceAt(s.log, s.cursor.index + 1)
    && s.log[s.cursor.index] == Entry(s.noCheckpointBefore, Checkpoint(Standalone), 1)
    && s.lastCheckpoint <= s.noCheckpointBefore && s.startTs < s.noCheckpointBefore
  }

  lemma MarkerPublishes(s: State, n: nat, k: Key)
    requires AtMarker(s, n, k)
    ensures var a := ReadEvent(false); Enabled(s, a) && Clean(s, a) && EndsWrong(Step(s, a))
  {
    var ts := s.noCheckpointBefore;
    var t := Commit(Passing(s), ts);
    assert Step(s, ReadEvent(false)) == t;
    var c := Published(ts, s.cursor.index + 1, Visible(Effective(s)), s.strays);
    assert c == t.published[|s.published|] && c in t.published;
    assert Shows(c, k, s.strays[n][k].value);
  }

  lemma MarkerIsAhead(s: State, n: nat, k: Key)
    requires Doomed(s, n, k) && s.scan.Idle? && s.cursor.index == |s.log| && forall table :: table !in s.tables
    ensures Enabled(s, MarkSnapshotDone) && AtMarker(Marked(s), n, k)
  {
    TimesAreBounded(s.log, s.startHead);
    var t := Marked(s);
    SourceAtPrefix(s.log, t.log[|s.log|..], |s.log|);
    assert t.log == s.log + t.log[|s.log|..];
    assert SourceAt(t.log, |s.log| + 1) == ApplyOp(SourceAt(t.log, |s.log|), t.log[|s.log|].op);
    assert s.wait.None?;
  }

  lemma DoomedEndsWrong(s0: State, s: State, n: nat, k: Key) returns (end: State)
    requires Reaches(s0, s) && Doomed(s, n, k) && s.scan.Idle?
    ensures Reaches(s0, end) && EndsWrong(end)
  {
    var t := CatchUp(s0, s, n, k);
    t := DropAll(s0, t, n, k);
    MarkerIsAhead(t, n, k);
    MarkIsMarked(t);
    Then(s0, t, MarkSnapshotDone);
    MarkerPublishes(Marked(t), n, k);
    Then(s0, Marked(t), ReadEvent(false));
    end := Step(Marked(t), ReadEvent(false));
  }

  // ----- the theorem -----

  /** Whatever has happened so far, and wherever the stream meets the drop of a table whose copy is not at
      its end: the run can go on, with clean steps only, to a checkpoint that shows a row the source does
      not have. */
  lemma UnfinishedDropGoesWrong(s: State, run: seq<Action>, buffered: bool) returns (end: State)
    requires Initial(s) && IsCleanRun(s, run)
    requires var f := CleanFinal(s, run);
             Enabled(f, ReadEvent(buffered)) && f.log[f.cursor.index].op.DropTable? && !Clean(f, ReadEvent(buffered))
    ensures Reaches(Step(CleanFinal(s, run), ReadEvent(buffered)), end) && EndsWrong(end)
  {
    var f := CleanFinal(s, run);
    ReachableInv(s, run);
    InitialIsThrottled(s);
    RunKeepsTimed(s, run);
    DropOrphans(f, buffered);
    var d := Step(f, ReadEvent(buffered));
    assert IsCleanRun(d, []) && CleanFinal(d, []) == d;
    var r := OrphanReads(d, d);
    var t, n, k := OrphanDooms(d, r);
    end := DoomedEndsWrong(d, t, n, k);
  }

  lemma InvNeverEndsWrong(s: State, end: State)
    requires Inv(s) && Throttled(s) && Reaches(s, end)
    ensures !EndsWrong(end)
  {
    var more :| IsCleanRun(s, more) && CleanFinal(s, more) == end;
    CleanRunKeepsInv(s, more);
  }

  /** Every way on from the drop keeps every checkpoint exact if and only if the table is not being
      copied, or its copy has read and written everything. */
  lemma DropIsSafeIff(s: State, run: seq<Action>, buffered: bool)
    requires Initial(s) && IsCleanRun(s, run)
    requires var f := CleanFinal(s, run); Enabled(f, ReadEvent(buffered)) && f.log[f.cursor.index].op.DropTable?
    ensures var f := CleanFinal(s, run);
            (Copies(f, f.log[f.cursor.index].op.table) ==> f.scan.finished && f.scan.buffer == [])
            <==> forall end :: Reaches(Step(f, ReadEvent(buffered)), end) ==> !EndsWrong(end)
  {
    var f := CleanFinal(s, run);
    var a := ReadEvent(buffered);
    if Clean(f, a) {
      ReachableInv(s, run);
      CleanStepKeepsInv(f, a);
      StepKeepsThrottled(f, a);
      forall end | Reaches(Step(f, a), end) ensures !EndsWrong(end) {
        InvNeverEndsWrong(Step(f, a), end);
      }
    } else {
      var end := UnfinishedDropGoesWrong(s, run, buffered);
    }
  }
}
