/** Replication of MongoDB. */
module Protocol {
  // A change stream replays the source log while a snapshotter copies tables in chunks that are not
  // atomic, both into one store. Barriers the process writes to the source gate its commits. A crash
  // loses the memory of the process and keeps the store; a restart resumes from the persisted position.

  import opened SourceLog
  import opened Wrappers

  /** A stored source record: the current row, or the mark of a deleted one. */
  datatype Record = Row(value: string) | Tombstone

  type Store = map<Key, Record>

  /** A place in the stream: entry index, and how many fragments of that entry came before. */
  datatype Position = Position(index: nat, fragment: nat)

  /** A source table known to the store, registered under a number that no other registration of it
      ever has. `since` is where its stream coverage begins. */
  datatype TableState = Pending(serial: nat, lastKey: Option<int>, since: nat) | Done(serial: nat)

  datatype Scan =
    | Idle
    | Scanning(table: int, serial: nat, since: nat, cursor: Option<int>, buffer: seq<(Key, string)>, finished: bool, resumeFrom: nat)

  /** A queued write of the stream; `at` is the log position just after the change it carries. */
  datatype Save = Save(key: Key, record: Record, at: nat)

  /** Rows stored under numbers that no table is registered under any more. No step removes them. */
  type Strays = map<nat, Store>

  /** What a client is given at a checkpoint. */
  datatype Published = Published(lsn: nat, index: nat, rows: Rows, strays: Strays)

  datatype State = State(
    log: Log,
    // persisted
    rows: Store,        // of the tables as they are registered now
    strays: Strays,
    tables: map<int, TableState>,
    nextSerial: nat,
    resume: Position,
    snapshotDone: bool,
    noCheckpointBefore: nat,
    lastCheckpoint: nat,
    published: seq<Published>,
    // memory of the process
    instance: nat,
    running: bool,
    streaming: bool,
    cursor: Position,
    held: nat,
    startTs: nat,
    pending: seq<Save>,
    wait: Option<nat>,
    scan: Scan,
    // history, read by no step
    everDiscovered: bool,
    committed: nat,
    scanHigh: nat,
    streamHigh: nat,
    startHead: nat
  )

  datatype Action =
    | SourceCommit(ops: seq<Op>, fragments: seq<nat>)
    | Start(at: nat)
    | OpenStream
    | ReadFragment
    | ReadEvent(buffered: bool)
    | FlushSome(count: nat)
    | BatchEnd(batchEnd: Position)
    | IdleKeepalive
    | ExtraBarrier
    | BeginScan(table: int)
    | ScanRead(at: nat, id: int)
    | ScanFinish(at: nat)
    | ScanFlush(count: nat)
    | SaveProgress(id: int)
    | FinishTable
    | MarkSnapshotDone
    | Crash

  // ----- store -----

  function ApplySave(rows: Store, save: Save): Store {
    rows[save.key := save.record]
  }

  function ApplySaves(rows: Store, saves: seq<Save>): Store {
    if saves == [] then rows
    else ApplySave(ApplySaves(rows, saves[..|saves| - 1]), saves[|saves| - 1])
  }

  /** Snapshot writes skip a key that has a record, a tombstone included. */
  function InsertMissing(rows: Store, docs: seq<(Key, string)>): Store {
    if docs == [] then rows
    else
      var before := InsertMissing(rows, docs[..|docs| - 1]);
      var (key, value) := docs[|docs| - 1];
      if key in before then before else before[key := Row(value)]
  }

  function Visible(rows: Store): Rows {
    map k | k in rows && rows[k].Row? :: rows[k].value
  }

  function WithoutTombstones(rows: Store): Store {
    map k | k in rows && rows[k].Row? :: rows[k]
  }

  function WithoutTable(rows: Store, table: int): Store {
    map k | k in rows && k.table != table :: rows[k]
  }

  /** The client sees this row, whatever number it is stored under. */
  ghost predicate Shows(c: Published, k: Key, value: string) {
    || (k in c.rows && c.rows[k] == value)
    || (exists n :: n in c.strays && k in c.strays[n] && c.strays[n][k] == Row(value))
  }

  /** The client sees the source's rows at the position of the checkpoint, and no others. */
  ghost predicate IsExact(log: Log, c: Published)
    requires c.index <= |log|
  {
    var source := SourceAt(log, c.index);
    forall k, value :: Shows(c, k, value) <==> k in source && source[k] == value
  }

  function Effective(s: State): Store {
    ApplySaves(s.rows, s.pending)
  }

  function Max(a: nat, b: nat): nat {
    if a < b then b else a
  }

  // ----- pieces of the steps -----

  function Append(s: State, ops: seq<Op>, fragments: seq<nat>): State
    requires |ops| == |fragments|
  {
    s.(log := s.log + Committed(LastTs(s.log) + 1, ops, fragments))
  }

  function WriteCheckpoint(s: State, origin: Origin): State {
    Append(s, [Checkpoint(origin)], [1])
  }

  /** Write a batch barrier and wait for it. */
  function AwaitBarrier(s: State): State {
    WriteCheckpoint(s, Own(s.instance)).(wait := Some(LastTs(s.log) + 1))
  }

  predicate CanCheckpoint(s: State, lsn: nat) {
    s.snapshotDone && s.lastCheckpoint <= lsn && s.noCheckpointBefore <= lsn
  }

  function FlushAll(s: State): State {
    s.(rows := Effective(s), pending := [], streamHigh := Max(s.streamHigh, s.cursor.index))
  }

  /** Flush, then checkpoint unless blocked; the resume position only moves forward. */
  function Commit(s: State, lsn: nat): State {
    var free := CanCheckpoint(s, lsn);
    FlushAll(s).(
      committed := s.cursor.index,
      resume := if NotAfter(s.resume, s.cursor) then s.cursor else s.resume,
      lastCheckpoint := if free then lsn else s.lastCheckpoint,
      published := if free then s.published + [Published(lsn, s.cursor.index, Visible(Effective(s)), s.strays)] else s.published,
      rows := if free then WithoutTombstones(Effective(s)) else Effective(s))
  }

  function Halt(s: State): State {
    s.(running := false, streaming := false, pending := [], scan := Idle, wait := None, held := 0)
  }

  function TablesOf(rows: Rows): set<int> {
    set k | k in rows :: k.table
  }

  /** The first change seen on an unknown table registers it and reopens the snapshot. */
  function NoticeTable(s: State, table: int, at: nat): State {
    var known := table in s.tables;
    s.(tables := if known then s.tables else s.tables[table := Pending(s.nextSerial, None, at)],
       nextSerial := if known then s.nextSerial else s.nextSerial + 1,
       snapshotDone := s.snapshotDone && known && s.tables[table].Done?)
  }

  function QueueChange(s: State, key: Key, record: Record, at: nat): State {
    var b := if s.wait.None? then AwaitBarrier(s) else s;
    var t := NoticeTable(b, key.table, at);
    t.(pending := t.pending + [Save(key, record, at + 1)])
  }

  /** The table is still registered as it was when its copy began. */
  predicate Registered(tables: map<int, TableState>, scan: Scan) {
    scan.Scanning? && scan.table in tables && tables[scan.table].serial == scan.serial
  }

  function SavedAt(tables: map<int, TableState>, scan: Scan, id: int): map<int, TableState> {
    if Registered(tables, scan) && tables[scan.table].Pending? then tables[scan.table := tables[scan.table].(lastKey := Some(id))]
    else tables
  }

  predicate Copies(s: State, table: int) {
    Registered(s.tables, s.scan) && s.scan.table == table
  }

  /** The rows and the record of the table go; a copy of it under way goes on, under a number that is
      now nobody's. */
  function HandleDrop(s: State, table: int): State {
    var f := FlushAll(s);
    f.(rows := WithoutTable(f.rows, table), tables := f.tables - {table})
  }

  function Under(strays: Strays, n: nat): Store {
    if n in strays then strays[n] else map[]
  }

  /** A copy writes under the number it began with. */
  function WriteCopied(s: State, docs: seq<(Key, string)>): State
    requires s.scan.Scanning?
  {
    var n, current := s.scan.serial, Registered(s.tables, s.scan);
    s.(rows := if current then InsertMissing(s.rows, docs) else s.rows,
       strays := if current || docs == [] then s.strays else s.strays[n := InsertMissing(Under(s.strays, n), docs)])
  }

  /** The barrier waited for once everything up to this time is seen. */
  function Resolved(wait: Option<nat>, ts: nat): Option<nat> {
    if wait.Some? && wait.value <= ts then None else wait
  }

  function HandleCheckpoint(s: State, e: Entry, buffered: bool): State
    requires e.op.Checkpoint?
  {
    match e.op.origin
    case Standalone =>
      if s.wait.Some? then s
      else if buffered then AwaitBarrier(s)
      else Commit(s, e.ts)
    case Own(stream) =>
      if stream != s.instance then s
      else Commit(s.(wait := Resolved(s.wait, e.ts)), e.ts)
    case Other => s
  }

  /** A checkpoint is passed over, put off until a barrier, or followed by a commit. */
  lemma CheckpointIs(s: State, e: Entry, buffered: bool)
    requires e.op.Checkpoint?
    ensures var t := HandleCheckpoint(s, e, buffered);
            || t == s || (buffered && s.wait.None? && t == AwaitBarrier(s))
            || ((s.wait.None? || e.op.origin == Own(s.instance)) && t == Commit(s.(wait := Resolved(s.wait, e.ts)), e.ts))
  {
  }

  function Passing(s: State): State {
    s.(cursor := Position(s.cursor.index + 1, 0), held := 0)
  }

  function Dispatch(h: State, e: Entry, at: nat, buffered: bool): State {
    match e.op
    case Put(k, v) => QueueChange(h, k, Row(v), at)
    case Remove(k) => QueueChange(h, k, Tombstone, at)
    case DropTable(t) => HandleDrop(h, t)
    case Checkpoint(_) => HandleCheckpoint(h, e, buffered)
  }

  function HandleEvent(s: State, buffered: bool): State
    requires s.cursor.index < |s.log|
  {
    var e := s.log[s.cursor.index];
    if e.ts <= s.startTs then Passing(s).(held := s.held)
    else Dispatch(Passing(s), e, s.cursor.index, buffered)
  }

  predicate After(id: int, cursor: Option<int>) {
    cursor.None? || cursor.value < id
  }

  /** `id` is the next key a scan standing at `cursor` finds in `rows`. */
  ghost predicate NextKey(rows: Rows, table: int, cursor: Option<int>, id: int) {
    && Key(table, id) in rows && After(id, cursor)
    && forall k :: k in rows && k.table == table && After(k.id, cursor) ==> id <= k.id
  }

  ghost predicate NoKeyAfter(rows: Rows, table: int, cursor: Option<int>) {
    forall k :: k in rows && k.table == table ==> !After(k.id, cursor)
  }

  predicate IsPosition(log: Log, p: Position) {
    p.index <= |log| && (p.fragment == 0 || (p.index < |log| && p.fragment < Fragments(log[p.index])))
  }

  predicate NotAfter(p: Position, q: Position) {
    p.index < q.index || (p.index == q.index && p.fragment <= q.fragment)
  }

  /** The time a stored position carries: that of the change it is inside, or of the one before it. */
  function TimeOf(log: Log, p: Position): nat {
    if p.fragment > 0 && p.index < |log| then log[p.index].ts
    else if p.index <= |log| then TsAt(log, p.index)
    else 0
  }

  /** Between two transactions, and between two changes. */
  predicate AtRest(s: State) {
    s.cursor.fragment == 0 && s.cursor.index <= |s.log| && Boundary(s.log, s.cursor.index)
  }

  // ----- steps -----

  ghost predicate Enabled(s: State, a: Action) {
    match a
    case SourceCommit(ops, fragments) =>
      |ops| == |fragments| && OneCommit(ops) && (forall i :: 0 <= i < |ops| ==> ops[i] != Checkpoint(Own(s.instance)))
      && (forall i :: 0 <= i < |ops| && ops[i].Checkpoint? ==> !ops[i].origin.Own?)
    case Start(at) => !s.running && s.resume.index <= at <= |s.log|
    case OpenStream => s.running && !s.streaming
    case ReadFragment =>
      s.streaming && s.cursor.index < |s.log| && s.cursor.fragment + 1 < Fragments(s.log[s.cursor.index])
    case ReadEvent(_) =>
      s.streaming && s.cursor.index < |s.log| && s.cursor.fragment + 1 >= Fragments(s.log[s.cursor.index])
    case FlushSome(count) => s.streaming && count <= |s.pending|
    case BatchEnd(batchEnd) => s.streaming && s.held == 0 && IsPosition(s.log, batchEnd) && NotAfter(s.cursor, batchEnd)
    case IdleKeepalive => s.streaming && s.wait.None? && s.cursor.index <= |s.log|
    case ExtraBarrier => s.running
    case BeginScan(table) => s.running && s.scan.Idle? && table in s.tables && s.tables[table].Pending?
                             && s.resume.index <= |s.log|
    case ScanRead(at, id) =>
      && s.scan.Scanning? && !s.scan.finished && s.scan.since <= at <= |s.log|
      && NextKey(SourceAt(s.log, at), s.scan.table, s.scan.cursor, id)
    case ScanFinish(at) =>
      && s.scan.Scanning? && !s.scan.finished && s.scan.since <= at <= |s.log|
      && NoKeyAfter(SourceAt(s.log, at), s.scan.table, s.scan.cursor)
    case ScanFlush(count) => s.scan.Scanning? && count <= |s.scan.buffer|
    case SaveProgress(id) =>
      && s.scan.Scanning? && s.scan.cursor.Some? && id <= s.scan.cursor.value
      && (forall i :: 0 <= i < |s.scan.buffer| ==> id < s.scan.buffer[i].0.id)
    case FinishTable => s.scan.Scanning? && s.scan.finished && s.scan.buffer == []
    case MarkSnapshotDone =>
      s.running && !s.snapshotDone && s.scan.Idle? && forall t :: t in s.tables ==> s.tables[t].Done?
    case Crash => s.running
  }

  ghost function Step(s: State, a: Action): State
    requires Enabled(s, a)
  {
    match a
    case SourceCommit(ops, fragments) => Append(s, ops, fragments)
    case Start(at) =>
      var r := s.(running := true, instance := s.instance + 1, cursor := s.resume, held := 0,
                  startTs := TimeOf(s.log, s.resume), startHead := |s.log|);
      if s.snapshotDone then r
      else
        var found := map t | t in TablesOf(SourceAt(s.log, at)) && t !in s.tables :: Pending(s.nextSerial, None, s.resume.index);
        r.(tables := s.tables + found, nextSerial := s.nextSerial + 1, everDiscovered := true, scanHigh := Max(s.scanHigh, at))
    case OpenStream => AwaitBarrier(s).(streaming := true)
    case ReadFragment =>
      s.(cursor := Position(s.cursor.index, s.cursor.fragment + 1),
         held := if s.log[s.cursor.index].ts <= s.startTs then s.held else s.held + 1)
    case ReadEvent(buffered) => HandleEvent(s, buffered)
    case FlushSome(count) =>
      s.(rows := ApplySaves(s.rows, s.pending[..count]), pending := s.pending[count..],
         streamHigh := Max(s.streamHigh, s.cursor.index))
    case BatchEnd(batchEnd) =>
      var f := FlushAll(s);
      if batchEnd == s.cursor then f.(resume := s.cursor) else Halt(f.(resume := batchEnd))
    case IdleKeepalive => Commit(s, TimeOf(s.log, s.cursor))
    case ExtraBarrier => WriteCheckpoint(s, Own(s.instance))
    case BeginScan(table) =>
      var t := s.tables[table];
      s.(scan := Scanning(table, t.serial, t.since, t.lastKey, [], false, TimeOf(s.log, s.resume)))
    case ScanRead(at, id) =>
      var key := Key(s.scan.table, id);
      s.(scan := s.scan.(cursor := Some(id), buffer := s.scan.buffer + [(key, SourceAt(s.log, at)[key])]),
         scanHigh := Max(s.scanHigh, at))
    case ScanFinish(at) =>
      s.(scan := s.scan.(finished := true), scanHigh := Max(s.scanHigh, at))
    case ScanFlush(count) =>
      WriteCopied(s, s.scan.buffer[..count]).(scan := s.scan.(buffer := s.scan.buffer[count..]))
    case SaveProgress(id) =>
      s.(tables := SavedAt(s.tables, s.scan, id))
    case FinishTable =>
      var w := WriteCheckpoint(s, Standalone);
      var done := w.(scan := Idle,
                     tables := if Registered(s.tables, s.scan) then s.tables[s.scan.table := Done(s.scan.serial)] else s.tables,
                     noCheckpointBefore := Max(s.noCheckpointBefore, LastTs(w.log)));
      var free := CanCheckpoint(done, s.scan.resumeFrom);
      done.(published := if free then s.published + [Published(s.scan.resumeFrom, s.resume.index, Visible(s.rows), s.strays)] else s.published,
            lastCheckpoint := if free then s.scan.resumeFrom else s.lastCheckpoint)
    case MarkSnapshotDone =>
      var w := WriteCheckpoint(s, Standalone);
      WriteCheckpoint(w.(snapshotDone := true, noCheckpointBefore := Max(s.noCheckpointBefore, LastTs(w.log))), Standalone)
    case Crash => Halt(s)
  }

  /** The store right after the first resume position was taken: nothing copied, nothing replayed. */
  ghost predicate Initial(s: State) {
    && WellFormed(s.log)
    && s.rows == map[] && s.strays == map[] && s.tables == map[] && s.published == []
    && s.resume.index <= |s.log| && s.resume.fragment == 0 && Boundary(s.log, s.resume.index)
    && !s.snapshotDone && s.noCheckpointBefore == 0 && s.lastCheckpoint == 0
    && !s.running && !s.streaming && s.pending == [] && s.wait.None? && s.scan.Idle? && s.held == 0
    && s.cursor == Position(0, 0) && s.instance == 0
    && (forall i :: 0 <= i < |s.log| && s.log[i].op.Checkpoint? ==> !s.log[i].op.origin.Own?)
    && !s.everDiscovered && s.committed == 0 && s.scanHigh == 0 && s.streamHigh == 0 && s.startHead == 0
  }

  ghost predicate IsRun(s: State, actions: seq<Action>)
    decreases |actions|
  {
    actions == [] || (Enabled(s, actions[0]) && IsRun(Step(s, actions[0]), actions[1..]))
  }

  ghost function Final(s: State, actions: seq<Action>): State
    requires IsRun(s, actions)
    decreases |actions|
  {
    if actions == [] then s else Final(Step(s, actions[0]), actions[1..])
  }

  /** A run may be extended by one enabled step. */
  lemma {:induction false} RunThen(s: State, run: seq<Action>, a: Action)
    requires IsRun(s, run) && Enabled(Final(s, run), a)
    ensures IsRun(s, run + [a]) && Final(s, run + [a]) == Step(Final(s, run), a)
    decreases |run|
  {
    if run == [] {
      assert run + [a] == [a] && [a][1..] == [];
      assert IsRun(Step(s, a), []);
    } else {
      RunThen(Step(s, run[0]), run[1..], a);
      assert (run + [a])[1..] == run[1..] + [a];
    }
  }

  /** The three situations the loop does not handle: a position persisted past events it has not
      processed, a position persisted inside a transaction or a change, and a drop seen while the copy of
      that table has more to read or to write. */
  ghost predicate Clean(s: State, a: Action)
    requires Enabled(s, a)
  {
    match a
    case BatchEnd(batchEnd) => batchEnd == s.cursor && AtRest(s)
    case IdleKeepalive => AtRest(s)
    case ReadEvent(_) => DropIsClean(s, s.log[s.cursor.index].op)
    case _ => true
  }

  /** A table that is dropped is not being copied, or its copy has read and written all it ever will. */
  predicate DropIsClean(s: State, op: Op) {
    op.DropTable? && Copies(s, op.table) ==> s.scan.finished && s.scan.buffer == []
  }

  ghost predicate IsCleanRun(s: State, actions: seq<Action>)
    decreases |actions|
  {
    actions == [] || (Enabled(s, actions[0]) && Clean(s, actions[0]) && IsCleanRun(Step(s, actions[0]), actions[1..]))
  }
}
