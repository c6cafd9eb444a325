/** Handling one change stream event, whatever it carries, keeps the invariant. */
module ProtocolEvents {
  import opened SourceLog
  import opened Protocol
  import opened ProtocolInvariant
  import opened Throttling
  import opened ProtocolSteps
  import opened Wrappers

  /** After NoticeTable, a key of a newly registered table is not yet passed, and nothing it misses
      has changed since. */
  lemma NoticeKeepsKey(log: Log, high: nat, c: Coverage, m: Store, pos: nat, k: Key, table: int, serial: nat, at: nat)
    requires pos <= at + 1 <= |log| && GoodKey(log, high, c, m, pos, k)
    requires table !in c.tables && c.everDiscovered && RegistryOk(log, c.tables, c.scan, serial)
    requires pos == at + 1 && k !in m ==> !Affects(log[at].op, k)
    ensures GoodKey(log, high, c.(tables := c.tables[table := Pending(serial, None, at)]), m, pos, k)
  {
    var c' := c.(tables := c.tables[table := Pending(serial, None, at)]);
    assert Passed(c', k) ==> Passed(c, k);
  }

  /** The store seen by the stream after one more change. */
  lemma ChangeKeepsStream(log: Log, high: nat, c: Coverage, m: Store, i: nat, key: Key, record: Record)
    requires i < |log| && Good(log, high, c, m, i)
    requires forall k :: Affects(log[i].op, k) ==> k == key
    requires FitsAt(log, m[key := record], key, i + 1)
    ensures Good(log, high, c, m[key := record], i + 1)
  {
    var next := i + 1;
    var m' := m[key := record];
    forall k ensures GoodKey(log, high, c, m', next, k) {
      assert GoodKey(log, high, c, m, i, k);
      if k != key {
        GoodKeyAdvances(log, high, c, m, i, k);
        if k in m || Passed(c, k) {
          JustifiedSameKey(log, high, m, m', next, k);
        }
      }
    }
  }

  lemma NoticeKeepsGood(log: Log, high: nat, c: Coverage, m: Store, pos: nat, table: int, serial: nat, at: nat)
    requires pos <= at + 1 <= |log| && Good(log, high, c, m, pos)
    requires table !in c.tables && c.everDiscovered && RegistryOk(log, c.tables, c.scan, serial)
    requires pos == at + 1 ==> forall k :: Affects(log[at].op, k) ==> k in m
    ensures Good(log, high, c.(tables := c.tables[table := Pending(serial, None, at)]), m, pos)
  {
    var c' := c.(tables := c.tables[table := Pending(serial, None, at)]);
    forall k ensures GoodKey(log, high, c', m, pos, k) {
      assert GoodKey(log, high, c, m, pos, k);
      NoticeKeepsKey(log, high, c, m, pos, k, table, serial, at);
    }
  }

  /** The state after a queued change of a table that is known. */
  function Queued(s: State, key: Key, record: Record): State {
    s.(cursor := Position(s.cursor.index + 1, 0), held := 0, pending := s.pending + [Save(key, record, s.cursor.index + 1)])
  }

  lemma QueuedIs(s: State, key: Key, record: Record)
    ensures var s' := Queued(s, key, record);
            Effective(s') == Effective(s)[key := record] && High(s') == High(s) && CoverageOf(s') == CoverageOf(s)
  {
    var save := Save(key, record, s.cursor.index + 1);
    ApplySavesConcat(s.rows, s.pending, [save]);
    assert ApplySaves(Effective(s), [save]) == ApplySave(ApplySaves(Effective(s), [save][..0]), save);
  }

  lemma QueuedSavesOk(s: State, key: Key, record: Record)
    requires s.cursor.index < |s.log| && SavesOk(s.log, s.resume.index, s.cursor.index, s.pending)
    requires s.resume.index <= s.cursor.index && FitsAt(s.log, map[key := record], key, s.cursor.index + 1)
    ensures var s' := Queued(s, key, record); SavesOk(s.log, s.resume.index, s'.cursor.index, s'.pending)
  {
    var i := s.cursor.index;
    SavesAdvance(s.log, s.resume.index, i, i + 1, s.pending);
    assert SaveOk(s.log, s.resume.index, i + 1, Save(key, record, i + 1));
  }

  lemma QueuedStoresOk(s: State, key: Key, record: Record)
    requires PositionsOk(s) && StoresOk(s) && s.streaming && s.cursor.index < |s.log|
    requires forall k :: Affects(s.log[s.cursor.index].op, k) ==> k == key
    requires FitsAt(s.log, map[key := record], key, s.cursor.index + 1)
    ensures PositionsOk(Queued(s, key, record)) && StoresOk(Queued(s, key, record))
  {
    var i := s.cursor.index;
    QueuedIs(s, key, record);
    assert FitsAt(s.log, Effective(s)[key := record], key, i + 1);
    ChangeKeepsStream(s.log, High(s), CoverageOf(s), Effective(s), i, key, record);
    QueuedPositionsOk(s, key, record);
  }

  lemma QueuedPositionsOk(s: State, key: Key, record: Record)
    requires PositionsOk(s) && s.streaming && s.cursor.index < |s.log|
    ensures PositionsOk(Queued(s, key, record))
  {
  }

  /** Queue a change: the state once its table is registered and a barrier is ahead. */
  lemma QueuedChangeKeepsInv(s: State, key: Key, record: Record)
    requires Inv(s) && s.streaming && s.cursor.index < |s.log| && key.table in s.tables
    requires forall k :: Affects(s.log[s.cursor.index].op, k) ==> k == key
    requires FitsAt(s.log, map[key := record], key, s.cursor.index + 1)
    ensures Inv(Queued(s, key, record))
  {
    QueuedStoresOk(s, key, record);
    QueuedSavesOk(s, key, record);
    QueuedKeepsRest(s, key, record);
  }

  lemma QueuedKeepsRest(s: State, key: Key, record: Record)
    requires Inv(s) && s.cursor.index < |s.log| && key.table in s.tables
    requires forall k :: Affects(s.log[s.cursor.index].op, k) ==> k == key
    ensures var s' := Queued(s, key, record);
            ScanOk(s'.log, s'.tables, s'.scan, s'.scanHigh) && GateOk(s') && PublishedOk(s'.log, s'.published)
  {
  }

  lemma RegisteringKeepsScan(log: Log, tables: map<int, TableState>, scan: Scan, high: nat, table: int, serial: nat, i: nat)
    requires ScanOk(log, tables, scan, high) && table !in tables && RegistryOk(log, tables, scan, serial) && i <= |log|
    ensures ScanOk(log, tables[table := Pending(serial, None, i)], scan, high)
    ensures RegistryOk(log, tables[table := Pending(serial, None, i)], scan, serial + 1)
  {
  }

  /** Registering a table just before its first change is queued. */
  lemma NoticeTableKeepsInv(s: State, table: int)
    requires Inv(s) && s.streaming && s.cursor.index < |s.log|
    ensures Inv(NoticeTable(s, table, s.cursor.index))
    ensures var t := NoticeTable(s, table, s.cursor.index);
            table in t.tables && (t.tables[table].Pending? ==> !t.snapshotDone)
  {
    var i := s.cursor.index;
    var s' := NoticeTable(s, table, i);
    if table !in s.tables {
      var c := CoverageOf(s);
      NoticeKeepsGood(s.log, High(s), c, s.rows, s.resume.index, table, s.nextSerial, i);
      NoticeKeepsGood(s.log, High(s), c, Effective(s), i, table, s.nextSerial, i);
      assert CoverageOf(s') == c.(tables := c.tables[table := Pending(s.nextSerial, None, i)]);
      assert Effective(s') == Effective(s) && High(s') == High(s);
      assert PositionsOk(s') && StoresOk(s');
      RegisteringKeepsScan(s.log, s.tables, s.scan, s.scanHigh, table, s.nextSerial, i);
    } else if s.tables[table].Pending? {
      assert !s.snapshotDone;
    }
  }

  function Noticed(s: State, table: int): State {
    s.(tables := s.tables[table := Pending(s.nextSerial, None, s.cursor.index)], nextSerial := s.nextSerial + 1, snapshotDone := false)
  }

  lemma QueueChangeAwaits(s: State, key: Key, record: Record, at: nat)
    requires s.wait.None?
    ensures QueueChange(Passing(s), key, record, at) == QueueChange(Passing(AwaitBarrier(s)), key, record, at)
  {
  }

  lemma RegisteredChangeKeepsInv(s: State, key: Key, record: Record)
    requires Inv(s) && s.streaming && s.cursor.index < |s.log| && s.wait.Some?
    requires !s.log[s.cursor.index].op.Checkpoint?
    requires forall k :: Affects(s.log[s.cursor.index].op, k) ==> k == key
    requires FitsAt(s.log, map[key := record], key, s.cursor.index + 1)
    ensures Inv(QueueChange(Passing(s), key, record, s.cursor.index))
  {
    if key.table in s.tables {
      KnownTableChangeKeepsInv(s, key, record);
    } else {
      NoticeTableKeepsInv(s, key.table);
      NewTableChangeKeepsInv(s, Noticed(s, key.table), key, record);
    }
  }

  lemma KnownTableChangeKeepsInv(s: State, key: Key, record: Record)
    requires Inv(s) && s.streaming && s.cursor.index < |s.log| && s.wait.Some? && key.table in s.tables
    requires forall k :: Affects(s.log[s.cursor.index].op, k) ==> k == key
    requires FitsAt(s.log, map[key := record], key, s.cursor.index + 1)
    ensures Inv(QueueChange(Passing(s), key, record, s.cursor.index))
  {
    QueuedChangeKeepsInv(s, key, record);
    KnownTableChangeIs(s, key, record);
  }

  /** A pending table has the snapshot outstanding already. */
  lemma KnownTableChangeIs(s: State, key: Key, record: Record)
    requires GateOk(s) && s.wait.Some? && key.table in s.tables
    ensures QueueChange(Passing(s), key, record, s.cursor.index) == Queued(s, key, record)
  {
    assert s.tables[key.table].Pending? ==> !s.snapshotDone;
    assert NoticeTable(Passing(s), key.table, s.cursor.index) == Passing(s);
  }

  lemma NewTableChangeKeepsInv(s: State, t: State, key: Key, record: Record)
    requires Inv(t) && t.streaming && t.cursor.index < |t.log| && t.wait.Some?
    requires key.table !in s.tables
    requires t == Noticed(s, key.table)
    requires forall k :: Affects(t.log[t.cursor.index].op, k) ==> k == key
    requires FitsAt(t.log, map[key := record], key, t.cursor.index + 1)
    ensures Inv(QueueChange(Passing(s), key, record, s.cursor.index))
  {
    QueuedChangeKeepsInv(t, key, record);
    assert QueueChange(Passing(s), key, record, s.cursor.index) == Queued(t, key, record);
  }

  lemma QueueChangeKeepsInv(s: State, key: Key, record: Record)
    requires Inv(s) && s.streaming && s.cursor.index < |s.log|
    requires !s.log[s.cursor.index].op.Checkpoint?
    requires forall k :: Affects(s.log[s.cursor.index].op, k) ==> k == key
    requires FitsAt(s.log, map[key := record], key, s.cursor.index + 1)
    ensures Inv(QueueChange(Passing(s), key, record, s.cursor.index))
  {
    if s.wait.Some? {
      RegisteredChangeKeepsInv(s, key, record);
    } else {
      AwaitBarrierKeepsInv(s);
      AwaitedBarrierFits(s, key, record);
      RegisteredChangeKeepsInv(AwaitBarrier(s), key, record);
      QueueChangeAwaits(s, key, record, s.cursor.index);
    }
  }

  /** Writing a barrier does not change the entry about to be handled. */
  lemma AwaitedBarrierFits(s: State, key: Key, record: Record)
    requires s.cursor.index < |s.log| && FitsAt(s.log, map[key := record], key, s.cursor.index + 1)
    ensures var b := AwaitBarrier(s);
            b.cursor.index < |b.log| && b.log[b.cursor.index] == s.log[s.cursor.index]
            && FitsAt(b.log, map[key := record], key, b.cursor.index + 1)
  {
    SourceAtPrefix(s.log, Committed(LastTs(s.log) + 1, [Checkpoint(Own(s.instance))], [1]), s.cursor.index + 1);
  }

  /** Dropping a table forgets its rows; while the log before the drop is replayed again, their
      absence is justified by the drop still ahead. */
  lemma DropKeepsGood(log: Log, high: nat, c: Coverage, m: Store, pos: nat, table: int, i: nat)
    requires i < |log| && pos <= i + 1 && log[i].op == DropTable(table) && i + 1 <= Max(pos, high)
    requires forall k: Key :: k.table != table ==> GoodKey(log, high, c, m, pos, k)
    requires c.everDiscovered
    ensures Good(log, high, c.(tables := c.tables - {table}), WithoutTable(m, table), pos)
  {
    var c' := c.(tables := c.tables - {table});
    var m' := WithoutTable(m, table);
    forall k ensures GoodKey(log, high, c', m', pos, k) {
      if k.table == table {
        assert SourceAt(log, i + 1) == ApplyOp(SourceAt(log, i), log[i].op);
        assert FitsAt(log, m', k, i + 1);
      } else {
        assert Passed(c', k) == Passed(c, k);
        if k in m || Passed(c, k) {
          JustifiedSameKey(log, high, m, m', pos, k);
        }
      }
    }
  }

  function DropHigh(s: State): nat {
    Max(s.scanHigh, Max(s.streamHigh, s.cursor.index + 1))
  }

  lemma HandleDropKeepsStored(s: State, table: int)
    requires PositionsOk(s) && StoresOk(s) && s.streaming && s.cursor.index < |s.log|
    requires SavesOk(s.log, s.resume.index, s.cursor.index, s.pending)
    requires s.log[s.cursor.index].op == DropTable(table)
    ensures Good(s.log, DropHigh(s), CoverageOf(s).(tables := s.tables - {table}), WithoutTable(Effective(s), table), s.resume.index)
  {
    FlushKeepsStoreGood(s, |s.pending|);
    assert s.pending[..|s.pending|] == s.pending;
    var flushed := Max(s.scanHigh, Max(s.streamHigh, s.cursor.index));
    GoodHigher(s.log, flushed, DropHigh(s), CoverageOf(s), Effective(s), s.resume.index);
    DropKeepsGood(s.log, DropHigh(s), CoverageOf(s), Effective(s), s.resume.index, table, s.cursor.index);
  }

  lemma HandleDropKeepsSeen(s: State, table: int)
    requires PositionsOk(s) && StoresOk(s) && s.streaming && s.cursor.index < |s.log|
    requires s.log[s.cursor.index].op == DropTable(table)
    ensures Good(s.log, DropHigh(s), CoverageOf(s).(tables := s.tables - {table}), WithoutTable(Effective(s), table), s.cursor.index + 1)
  {
    var i, high := s.cursor.index, DropHigh(s);
    var next := i + 1;
    GoodHigher(s.log, High(s), high, CoverageOf(s), Effective(s), i);
    forall k: Key | k.table != table ensures GoodKey(s.log, high, CoverageOf(s), Effective(s), next, k) {
      GoodKeyAdvances(s.log, high, CoverageOf(s), Effective(s), i, k);
    }
    DropKeepsGood(s.log, high, CoverageOf(s), Effective(s), next, table, i);
  }

  lemma HandleDropKeepsRest(s: State, table: int)
    requires Inv(s) && s.streaming && s.cursor.index < |s.log|
    ensures var s' := HandleDrop(Passing(s), table); PositionsOk(s') && GateOk(s') && PublishedOk(s'.log, s'.published)
  {
  }

  /** A copy that is at its end outlives its table. */
  lemma DropKeepsScan(log: Log, tables: map<int, TableState>, scan: Scan, high: nat, next: nat, table: int)
    requires ScanOk(log, tables, scan, high) && RegistryOk(log, tables, scan, next)
    requires Registered(tables, scan) && scan.table == table ==> scan.finished && scan.buffer == []
    ensures ScanOk(log, tables - {table}, scan, high) && RegistryOk(log, tables - {table}, scan, next)
  {
  }

  lemma HandleDropKeepsInv(s: State, table: int)
    requires Inv(s) && s.streaming && s.cursor.index < |s.log|
    requires s.log[s.cursor.index].op == DropTable(table) && DropIsClean(s, DropTable(table))
    ensures Inv(HandleDrop(Passing(s), table))
  {
    HandleDropKeepsStored(s, table);
    HandleDropKeepsSeen(s, table);
    HandleDropKeepsRest(s, table);
    DropKeepsScan(s.log, s.tables, s.scan, s.scanHigh, s.nextSerial, table);
    HandleDropIs(s, table);
  }

  lemma HandleDropIs(s: State, table: int)
    ensures var s' := HandleDrop(Passing(s), table);
            && Effective(s') == s'.rows == WithoutTable(Effective(s), table)
            && CoverageOf(s') == CoverageOf(s).(tables := s.tables - {table}) && High(s') == DropHigh(s)
            && s'.cursor == Position(s.cursor.index + 1, 0) && s'.pending == []
  {
  }

  /** The position right after a checkpoint entry never splits a transaction. */
  lemma AfterCheckpointIsBoundary(log: Log, i: nat)
    requires WellFormed(log) && i < |log| && log[i].op.Checkpoint?
    ensures Boundary(log, i + 1) && TsAt(log, i + 1) == log[i].ts
  {
  }

  /** A commit happens only past where this instance started: its barriers are all written after
      that, and until the first is seen one is awaited. */
  lemma HandleCheckpointKeepsInv(s: State, buffered: bool)
    requires Inv(s) && Throttled(s) && s.streaming && s.cursor.index < |s.log|
    requires s.log[s.cursor.index].op.Checkpoint?
    ensures Inv(HandleCheckpoint(Passing(s), s.log[s.cursor.index], buffered))
  {
    var i := s.cursor.index;
    AfterCheckpointIsBoundary(s.log, i);
    PassKeepsInv(s);
    OwnIsPastStart(s);
    PassedCheckpointKeepsInv(Passing(s), s.log[i], buffered);
  }

  lemma OwnIsPastStart(s: State)
    requires Throttled(s) && s.streaming && s.cursor.index < |s.log|
    ensures s.wait.None? || IsOwn(s.log, s.instance, s.cursor.index) ==> s.startHead < s.cursor.index + 1
  {
  }

  lemma PassedCheckpointKeepsInv(h: State, e: Entry, buffered: bool)
    requires Inv(h) && h.streaming && e.op.Checkpoint?
    requires h.cursor.fragment == 0 && Boundary(h.log, h.cursor.index) && e.ts == TsAt(h.log, h.cursor.index)
    requires h.wait.None? || e.op.origin == Own(h.instance) ==> h.startHead < h.cursor.index
    ensures Inv(HandleCheckpoint(h, e, buffered))
  {
    CheckpointIs(h, e, buffered);
    AwaitBarrierKeepsInv(h);
    if h.wait.None? || e.op.origin == Own(h.instance) {
      var wait := Resolved(h.wait, e.ts);
      AnyWaitKeepsInv(h, wait);
      CommitKeepsInv(h.(wait := wait));
    }
  }

  lemma SourceAfterNext(log: Log, i: nat)
    requires i < |log|
    ensures SourceAt(log, i + 1) == ApplyOp(SourceAt(log, i), log[i].op)
  {
  }

  lemma DispatchKeepsInv(s: State, buffered: bool)
    requires Inv(s) && Throttled(s) && s.streaming && s.cursor.index < |s.log|
    requires DropIsClean(s, s.log[s.cursor.index].op)
    ensures Inv(Dispatch(Passing(s), s.log[s.cursor.index], s.cursor.index, buffered))
  {
    SourceAfterNext(s.log, s.cursor.index);
    match s.log[s.cursor.index].op
    case Put(k, v) => QueueChangeKeepsInv(s, k, Row(v));
    case Remove(k) => QueueChangeKeepsInv(s, k, Tombstone);
    case DropTable(t) => HandleDropKeepsInv(s, t);
    case Checkpoint(_) => HandleCheckpointKeepsInv(s, buffered);
  }

  /** One change stream event keeps the invariant: none is old enough to be skipped. */
  lemma HandleEventKeepsInv(s: State, buffered: bool)
    requires Inv(s) && Throttled(s) && s.streaming && s.cursor.index < |s.log|
    requires DropIsClean(s, s.log[s.cursor.index].op)
    ensures Inv(HandleEvent(s, buffered))
  {
    assert s.startTs < s.log[s.cursor.index].ts;
    DispatchKeepsInv(s, buffered);
  }
}
