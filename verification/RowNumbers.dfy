/** Row numbers. */
module RowNumbers {
  // The storage keys a row by the number its table was registered under and by its id. The protocol keeps the
  // rows of the tables as registered now in one map and all others in another; here the two are read as the
  // one store they stand for, over all runs, clean or not.

  import opened SourceLog
  import opened Protocol
  import opened ProtocolInvariant
  import opened Wrappers

  predicate IsCurrent(tables: map<int, TableState>, n: nat, k: Key) {
    k.table in tables && tables[k.table].serial == n
  }

  /** What is stored under a number and a key. */
  function Stored(s: State, n: nat, k: Key): Option<Record> {
    if IsCurrent(s.tables, n, k) then Lookup(s.rows, k)
    else if n in s.strays then Lookup(s.strays[n], k)
    else None
  }

  function Lookup(rows: Store, k: Key): Option<Record> {
    if k in rows then Some(rows[k]) else None
  }

  // ----- every row has a number -----

  ghost predicate RowsAddressed(rows: Store, tables: map<int, TableState>, pending: seq<Save>) {
    && (forall k :: k in rows ==> k.table in tables)
    && (forall i :: 0 <= i < |pending| ==> pending[i].key.table in tables)
  }

  ghost predicate StraysAddressed(strays: Strays, tables: map<int, TableState>, next: nat) {
    && (forall t :: t in tables ==> tables[t].serial < next)
    && (forall n, k :: n in strays && k in strays[n] ==> n < next && !IsCurrent(tables, n, k))
  }

  ghost predicate ScanAddressed(scan: Scan, next: nat) {
    scan.Scanning? ==> scan.serial < next && SameTable(scan.buffer, scan.table)
  }

  ghost predicate Addressed(s: State) {
    && RowsAddressed(s.rows, s.tables, s.pending)
    && StraysAddressed(s.strays, s.tables, s.nextSerial)
    && ScanAddressed(s.scan, s.nextSerial)
  }

  lemma {:induction false} SavesKeepAddressed(rows: Store, tables: map<int, TableState>, saves: seq<Save>)
    requires RowsAddressed(rows, tables, saves)
    ensures RowsAddressed(ApplySaves(rows, saves), tables, [])
  {
    if saves != [] {
      SavesKeepAddressed(rows, tables, saves[..|saves| - 1]);
    }
  }

  lemma InsertKeepsTables(rows: Store, docs: seq<(Key, string)>, k: Key)
    requires k in InsertMissing(rows, docs)
    ensures k in rows || Buffered(docs, k)
  {
    var doc := InsertMissingKey(rows, docs, k);
  }

  predicate SameTable(docs: seq<(Key, string)>, table: int) {
    forall i :: 0 <= i < |docs| ==> docs[i].0.table == table
  }

  lemma InsertKeepsTable(rows: Store, docs: seq<(Key, string)>, table: int)
    requires SameTable(docs, table)
    ensures forall k :: k in InsertMissing(rows, docs) ==> k in rows || k.table == table
  {
    forall k | k in InsertMissing(rows, docs) ensures k in rows || k.table == table {
      InsertKeepsTables(rows, docs, k);
    }
  }

  lemma WriteKeepsAddressed(s: State, docs: seq<(Key, string)>)
    requires Addressed(s) && s.scan.Scanning? && SameTable(docs, s.scan.table)
    ensures Addressed(WriteCopied(s, docs))
  {
    if Registered(s.tables, s.scan) {
      InsertKeepsTable(s.rows, docs, s.scan.table);
    } else {
      StrayInsertIsAddressed(s.strays, s.tables, s.nextSerial, s.scan, docs);
    }
  }

  lemma StrayInsertIsAddressed(strays: Strays, tables: map<int, TableState>, next: nat, scan: Scan, docs: seq<(Key, string)>)
    requires StraysAddressed(strays, tables, next) && ScanAddressed(scan, next)
    requires scan.Scanning? && !Registered(tables, scan) && SameTable(docs, scan.table)
    ensures StraysAddressed(strays[scan.serial := InsertMissing(Under(strays, scan.serial), docs)], tables, next)
  {
    InsertKeepsTable(Under(strays, scan.serial), docs, scan.table);
  }

  /** What is not touched stays addressed. */
  lemma SameKeepsAddressed(s: State, t: State)
    requires Addressed(s) && t.rows == s.rows && t.strays == s.strays && t.tables == s.tables && t.nextSerial == s.nextSerial
    requires t.pending == s.pending && t.scan == s.scan
    ensures Addressed(t)
  {
  }

  lemma FlushKeepsAddressed(s: State)
    requires Addressed(s)
    ensures Addressed(FlushAll(s))
  {
    SavesKeepAddressed(s.rows, s.tables, s.pending);
  }

  lemma CommitKeepsAddressed(s: State, lsn: nat)
    requires Addressed(s)
    ensures Addressed(Commit(s, lsn))
  {
    FlushKeepsAddressed(s);
  }

  lemma NoticeKeepsAddressed(s: State, table: int, at: nat)
    requires Addressed(s)
    ensures Addressed(NoticeTable(s, table, at)) && table in NoticeTable(s, table, at).tables
  {
    if table !in s.tables {
      NewNumberIsAddressed(s.strays, s.tables, s.nextSerial, table, at);
    }
  }

  lemma NewNumberIsAddressed(strays: Strays, tables: map<int, TableState>, next: nat, table: int, at: nat)
    requires StraysAddressed(strays, tables, next)
    ensures StraysAddressed(strays, tables[table := Pending(next, None, at)], next + 1)
  {
  }

  lemma QueueKeepsAddressed(s: State, key: Key, record: Record, at: nat)
    requires Addressed(s)
    ensures Addressed(QueueChange(s, key, record, at))
  {
    var b := if s.wait.None? then AwaitBarrier(s) else s;
    SameKeepsAddressed(s, b);
    NoticeKeepsAddressed(b, key.table, at);
    PushKeepsAddressed(NoticeTable(b, key.table, at), Save(key, record, at + 1));
  }

  lemma PushKeepsAddressed(s: State, save: Save)
    requires Addressed(s) && save.key.table in s.tables
    ensures Addressed(s.(pending := s.pending + [save]))
  {
  }

  lemma DropKeepsAddressed(s: State, table: int)
    requires Addressed(s)
    ensures Addressed(HandleDrop(s, table))
  {
    FlushKeepsAddressed(s);
  }

  lemma ResolveKeepsAddressed(s: State, wait: Option<nat>, lsn: nat)
    requires Addressed(s)
    ensures Addressed(Commit(s.(wait := wait), lsn))
  {
    SameKeepsAddressed(s, s.(wait := wait));
    CommitKeepsAddressed(s.(wait := wait), lsn);
  }

  lemma CheckpointKeepsAddressed(s: State, e: Entry, buffered: bool)
    requires Addressed(s) && e.op.Checkpoint?
    ensures Addressed(HandleCheckpoint(s, e, buffered))
  {
    CheckpointIs(s, e, buffered);
    SameKeepsAddressed(s, AwaitBarrier(s));
    ResolveKeepsAddressed(s, Resolved(s.wait, e.ts), e.ts);
  }

  lemma DispatchKeepsAddressed(s: State, e: Entry, at: nat, buffered: bool)
    requires Addressed(s)
    ensures Addressed(Dispatch(s, e, at, buffered))
  {
    match e.op
    case Put(k, v) => QueueKeepsAddressed(s, k, Row(v), at);
    case Remove(k) => QueueKeepsAddressed(s, k, Tombstone, at);
    case DropTable(t) => DropKeepsAddressed(s, t);
    case Checkpoint(_) => CheckpointKeepsAddressed(s, e, buffered);
  }

  lemma EventKeepsAddressed(s: State, buffered: bool)
    requires Addressed(s) && s.cursor.index < |s.log|
    ensures Addressed(HandleEvent(s, buffered))
  {
    SameKeepsAddressed(s, Passing(s));
    SameKeepsAddressed(s, Passing(s).(held := s.held));
    DispatchKeepsAddressed(Passing(s), s.log[s.cursor.index], s.cursor.index, buffered);
  }

  lemma FlushSomeKeepsAddressed(s: State, count: nat)
    requires Addressed(s) && Enabled(s, FlushSome(count))
    ensures Addressed(Step(s, FlushSome(count)))
  {
    SavesKeepAddressed(s.rows, s.tables, s.pending[..count]);
  }

  lemma ScanFlushKeepsAddressed(s: State, count: nat)
    requires Addressed(s) && Enabled(s, ScanFlush(count))
    ensures Addressed(Step(s, ScanFlush(count)))
  {
    WriteKeepsAddressed(s, s.scan.buffer[..count]);
  }

  lemma ScanKeepsAddressed(s: State, a: Action)
    requires Addressed(s) && Enabled(s, a)
    requires a.BeginScan? || a.ScanRead? || a.ScanFinish? || a.SaveProgress? || a.FinishTable?
    ensures Addressed(Step(s, a))
  {
    if a.SaveProgress? {
      SaveProgressIs(s, a.id);
    } else if a.FinishTable? {
      FinishTableIs(s);
    } else {
      ReadingStepIs(s, a);
    }
    SameNumbersKeepAddressed(s, Step(s, a));
  }

  lemma ReadingStepIs(s: State, a: Action)
    requires Addressed(s) && Enabled(s, a) && (a.BeginScan? || a.ScanRead? || a.ScanFinish?)
    ensures var t := Step(s, a);
            && t.rows == s.rows && t.strays == s.strays && t.pending == s.pending && t.nextSerial == s.nextSerial
            && t.tables == s.tables && ScanAddressed(t.scan, s.nextSerial)
  {
  }

  lemma SaveProgressIs(s: State, id: int)
    requires Enabled(s, SaveProgress(id))
    ensures var t := Step(s, SaveProgress(id)); t == s.(tables := t.tables) && SameNumbers(s.tables, t.tables)
  {
  }

  lemma FinishTableIs(s: State)
    requires Enabled(s, FinishTable)
    ensures var t := Step(s, FinishTable);
            && t.rows == s.rows && t.strays == s.strays && t.pending == s.pending && t.nextSerial == s.nextSerial
            && SameNumbers(s.tables, t.tables) && t.scan.Idle?
  {
  }

  predicate SameNumbers(tables: map<int, TableState>, tables': map<int, TableState>) {
    tables'.Keys == tables.Keys && forall t :: t in tables ==> tables'[t].serial == tables[t].serial
  }

  lemma SameNumbersKeepAddressed(s: State, t: State)
    requires Addressed(s) && t.rows == s.rows && t.strays == s.strays && t.pending == s.pending && t.nextSerial == s.nextSerial
    requires SameNumbers(s.tables, t.tables) && ScanAddressed(t.scan, s.nextSerial)
    ensures Addressed(t)
  {
  }

  lemma BatchEndKeepsAddressed(s: State, batchEnd: Position)
    requires Addressed(s) && Enabled(s, BatchEnd(batchEnd))
    ensures Addressed(Step(s, BatchEnd(batchEnd)))
  {
    FlushKeepsAddressed(s);
    SameKeepsAddressed(FlushAll(s), FlushAll(s).(resume := batchEnd));
  }

  lemma StreamStepKeepsAddressed(s: State, a: Action)
    requires Addressed(s) && Enabled(s, a)
    requires a.ReadFragment? || a.ReadEvent? || a.FlushSome? || a.BatchEnd? || a.IdleKeepalive?
    ensures Addressed(Step(s, a))
  {
    match a
    case ReadEvent(buffered) => EventKeepsAddressed(s, buffered);
    case FlushSome(count) => FlushSomeKeepsAddressed(s, count);
    case BatchEnd(batchEnd) => BatchEndKeepsAddressed(s, batchEnd);
    case IdleKeepalive => CommitKeepsAddressed(s, TimeOf(s.log, s.cursor));
    case ReadFragment =>
  }

  lemma OuterStepKeepsAddressed(s: State, a: Action)
    requires Addressed(s) && Enabled(s, a)
    requires a.SourceCommit? || a.Start? || a.OpenStream? || a.ExtraBarrier? || a.MarkSnapshotDone? || a.Crash?
    ensures Addressed(Step(s, a))
  {
  }

  lemma StepKeepsAddressed(s: State, a: Action)
    requires Addressed(s) && Enabled(s, a)
    ensures Addressed(Step(s, a))
  {
    if a.ReadFragment? || a.ReadEvent? || a.FlushSome? || a.BatchEnd? || a.IdleKeepalive? {
      StreamStepKeepsAddressed(s, a);
    } else if a.ScanFlush? {
      ScanFlushKeepsAddressed(s, a.count);
    } else if a.BeginScan? || a.ScanRead? || a.ScanFinish? || a.SaveProgress? || a.FinishTable? {
      ScanKeepsAddressed(s, a);
    } else {
      OuterStepKeepsAddressed(s, a);
    }
  }

  // ----- what the steps do to one number and key -----

  /** A drop removes what is stored under the number the table has, once all that is queued is stored, and
      nothing else. */
  lemma DropRemovesOneNumber(s: State, table: int, n: nat, k: Key)
    requires Addressed(s)
    ensures Stored(HandleDrop(s, table), n, k)
            == if k.table == table && IsCurrent(s.tables, n, k) then None else Stored(FlushAll(s), n, k)
  {
  }

  /** A table met for the first time, or met again after a drop, begins with nothing stored. */
  lemma NewNumberIsEmpty(s: State, table: int, at: nat, n: nat, k: Key)
    requires Addressed(s)
    ensures Stored(NoticeTable(s, table, at), n, k) == Stored(s, n, k)
    ensures table !in s.tables && k.table == table ==>
              var t := NoticeTable(s, table, at); Stored(t, t.tables[table].serial, k).None?
  {
  }

  /** Nothing there yet, and among the documents: then it is the row it was read as. Otherwise as it was. */
  ghost predicate InsertedAs(before: Option<Record>, after: Option<Record>, docs: seq<(Key, string)>, k: Key) {
    if before.None? && Buffered(docs, k)
    then exists i :: 0 <= i < |docs| && docs[i].0 == k && after == Some(Row(docs[i].1))
    else after == before
  }

  lemma InsertMissingIs(rows: Store, docs: seq<(Key, string)>, k: Key)
    ensures InsertedAs(Lookup(rows, k), Lookup(InsertMissing(rows, docs), k), docs, k)
  {
    var doc := InsertMissingKey(rows, docs, k);
  }

  /** Documents of one table written into the rows as registered now. */
  lemma RowsInsertIs(s: State, docs: seq<(Key, string)>, n: nat, k: Key)
    requires Registered(s.tables, s.scan) && SameTable(docs, s.scan.table)
    ensures var after := Stored(s.(rows := InsertMissing(s.rows, docs)), n, k);
            if n == s.scan.serial then InsertedAs(Stored(s, n, k), after, docs, k) else after == Stored(s, n, k)
  {
    InsertMissingIs(s.rows, docs, k);
  }

  /** And under a number that is nobody's. */
  lemma StraysInsertIs(s: State, docs: seq<(Key, string)>, n: nat, k: Key)
    requires s.scan.Scanning? && !Registered(s.tables, s.scan) && SameTable(docs, s.scan.table)
    ensures var under := s.strays[s.scan.serial := InsertMissing(Under(s.strays, s.scan.serial), docs)];
            var after := Stored(s.(strays := under), n, k);
            if n == s.scan.serial then InsertedAs(Stored(s, n, k), after, docs, k) else after == Stored(s, n, k)
  {
    InsertMissingIs(Under(s.strays, s.scan.serial), docs, k);
  }

  lemma WriteCopiedIs(s: State, docs: seq<(Key, string)>, n: nat, k: Key)
    requires s.scan.Scanning? && SameTable(docs, s.scan.table)
    ensures var after := Stored(WriteCopied(s, docs), n, k);
            if n == s.scan.serial then InsertedAs(Stored(s, n, k), after, docs, k) else after == Stored(s, n, k)
  {
    if Registered(s.tables, s.scan) {
      RowsInsertIs(s, docs, n, k);
    } else if docs != [] {
      StraysInsertIs(s, docs, n, k);
    }
  }

  lemma StoredReadsOnly(s: State, t: State, n: nat, k: Key)
    requires t.rows == s.rows && t.strays == s.strays && t.tables == s.tables
    ensures Stored(t, n, k) == Stored(s, n, k)
  {
  }

  /** A copy adds the documents that are missing under the number it began with, whatever has become of
      its table, and changes nothing else. */
  lemma CopyWritesUnderItsNumber(s: State, count: nat, n: nat, k: Key)
    requires Addressed(s) && Enabled(s, ScanFlush(count))
    ensures var after := Stored(Step(s, ScanFlush(count)), n, k);
            if n == s.scan.serial then InsertedAs(Stored(s, n, k), after, s.scan.buffer[..count], k)
            else after == Stored(s, n, k)
  {
    WriteCopiedIs(s, s.scan.buffer[..count], n, k);
    StoredReadsOnly(WriteCopied(s, s.scan.buffer[..count]), Step(s, ScanFlush(count)), n, k);
  }

  // ----- what nothing removes -----

  ghost predicate Kept(strays: Strays, strays': Strays) {
    forall n, k :: n in strays && k in strays[n] ==> n in strays' && k in strays'[n] && strays'[n][k] == strays[n][k]
  }

  lemma WriteKeepsStrays(s: State, docs: seq<(Key, string)>)
    requires s.scan.Scanning?
    ensures Kept(s.strays, WriteCopied(s, docs).strays)
  {
    if !Registered(s.tables, s.scan) {
      InsertKeepsAll(Under(s.strays, s.scan.serial), docs);
    }
  }

  lemma InsertKeepsAll(rows: Store, docs: seq<(Key, string)>)
    ensures forall k :: k in rows ==> k in InsertMissing(rows, docs) && InsertMissing(rows, docs)[k] == rows[k]
  {
    forall k | k in rows ensures Lookup(InsertMissing(rows, docs), k) == Some(rows[k]) {
      InsertMissingIs(rows, docs, k);
    }
  }

  lemma EventKeepsStrays(s: State, buffered: bool)
    requires s.cursor.index < |s.log|
    ensures HandleEvent(s, buffered).strays == s.strays
  {
    DispatchKeepsStrays(Passing(s), s.log[s.cursor.index], s.cursor.index, buffered);
  }

  lemma DispatchKeepsStrays(s: State, e: Entry, at: nat, buffered: bool)
    ensures Dispatch(s, e, at, buffered).strays == s.strays
  {
    match e.op
    case Put(k, v) => QueueKeepsStrays(s, k, Row(v), at);
    case Remove(k) => QueueKeepsStrays(s, k, Tombstone, at);
    case DropTable(t) => DropKeepsStrays(s, t);
    case Checkpoint(_) => CheckpointKeepsStrays(s, e, buffered);
  }

  lemma QueueKeepsStrays(s: State, key: Key, record: Record, at: nat)
    ensures QueueChange(s, key, record, at).strays == s.strays
  {
    assert AwaitBarrier(s).strays == s.strays;
  }

  lemma DropKeepsStrays(s: State, table: int)
    ensures HandleDrop(s, table).strays == s.strays
  {
  }

  lemma CommitKeepsStrays(s: State, lsn: nat)
    ensures Commit(s, lsn).strays == s.strays
  {
  }

  lemma CheckpointKeepsStrays(s: State, e: Entry, buffered: bool)
    requires e.op.Checkpoint?
    ensures HandleCheckpoint(s, e, buffered).strays == s.strays
  {
    CheckpointIs(s, e, buffered);
    CommitKeepsStrays(s.(wait := Resolved(s.wait, e.ts)), e.ts);
  }

  lemma StepKeepsStrays(s: State, a: Action)
    requires Enabled(s, a)
    ensures Kept(s.strays, Step(s, a).strays)
  {
    if a.ReadEvent? {
      EventKeepsStrays(s, a.buffered);
    } else if a.ScanFlush? {
      WriteKeepsStrays(s, s.scan.buffer[..a.count]);
    } else if a.BeginScan? || a.ScanRead? || a.ScanFinish? || a.SaveProgress? || a.FinishTable? || a.MarkSnapshotDone? {
      SnapshotKeepsStrays(s, a);
    } else {
      OthersKeepStrays(s, a);
    }
  }

  lemma SnapshotKeepsStrays(s: State, a: Action)
    requires Enabled(s, a)
    requires a.BeginScan? || a.ScanRead? || a.ScanFinish? || a.SaveProgress? || a.FinishTable? || a.MarkSnapshotDone?
    ensures Step(s, a).strays == s.strays
  {
    match a
    case BeginScan(_) =>
    case ScanRead(_, _) =>
    case ScanFinish(_) =>
    case SaveProgress(_) =>
    case FinishTable =>
    case MarkSnapshotDone =>
  }

  lemma OthersKeepStrays(s: State, a: Action)
    requires Enabled(s, a)
    requires a.SourceCommit? || a.Start? || a.OpenStream? || a.ReadFragment? || a.FlushSome? || a.BatchEnd?
             || a.IdleKeepalive? || a.ExtraBarrier? || a.Crash?
    ensures Step(s, a).strays == s.strays
  {
    match a
    case SourceCommit(_, _) =>
    case Start(_) =>
    case OpenStream =>
    case ReadFragment =>
    case FlushSome(_) =>
    case BatchEnd(_) =>
    case IdleKeepalive => CommitKeepsStrays(s, TimeOf(s.log, s.cursor));
    case ExtraBarrier =>
    case Crash =>
  }

  /** A row under a number that is nobody's stays as it is, in every run. */
  lemma {:induction false} StraysStay(s: State, run: seq<Action>, n: nat, k: Key)
    requires Addressed(s) && IsRun(s, run) && n in s.strays && k in s.strays[n]
    ensures Stored(Final(s, run), n, k) == Stored(s, n, k) == Some(s.strays[n][k])
    decreases |run|
  {
    if run != [] {
      StepKeepsAddressed(s, run[0]);
      StepKeepsStrays(s, run[0]);
      StraysStay(Step(s, run[0]), run[1..], n, k);
    }
  }

  lemma InitialIsAddressed(s: State)
    requires Initial(s)
    ensures Addressed(s)
  {
  }

  lemma {:induction false} RunKeepsAddressed(s: State, run: seq<Action>)
    requires Addressed(s) && IsRun(s, run)
    ensures Addressed(Final(s, run))
    decreases |run|
  {
    if run != [] {
      StepKeepsAddressed(s, run[0]);
      RunKeepsAddressed(Step(s, run[0]), run[1..]);
    }
  }

  /** In every run, clean or not, no row is without a number, and no number is used twice for one table. */
  lemma RunIsAddressed(s: State, run: seq<Action>)
    requires Initial(s) && IsRun(s, run)
    ensures Addressed(Final(s, run))
  {
    InitialIsAddressed(s);
    RunKeepsAddressed(s, run);
  }
}
