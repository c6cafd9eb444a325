/** The snapshot's steps, from the first read to the last marker, and the small steps of the stream, keep the
    invariant. */
module ProtocolScan {
  import opened SourceLog
  import opened Protocol
  import opened ProtocolInvariant
  import opened ProtocolSteps
  import opened Wrappers

  // ----- what a chunk read shows -----

  /** A key missing from the store that a read did not return either is justified by its absence:
      at the read, or at the stream's position when the stream is past the read. */
  lemma AbsentIsJustified(log: Log, high: nat, m: Store, since: nat, pos: nat, k: Key, at: nat)
    requires pos <= |log| && since <= at <= |log|
    requires k !in m && Untouched(log, k, since, pos) && k !in SourceAt(log, at)
    ensures Justified(log, Max(high, at), m, pos, k)
  {
    if pos <= at {
      assert FitsAt(log, m, k, at);
    } else {
      UntouchedIsSame(log, k, at, pos);
      assert FitsAt(log, m, k, pos);
    }
  }

  /** The scan may move past keys that a read has just shown to be absent. */
  lemma ScanAdvances(log: Log, high: nat, c: Coverage, scan: Scan, m: Store, pos: nat, at: nat)
    requires pos <= |log| && Good(log, high, c, m, pos) && at <= |log|
    requires scan.Scanning? && IsPending(c, scan.table) && c.tables[scan.table].since <= at
    requires forall k :: Passed(c.(scan := scan), k) && !Passed(c, k) ==> k.table == scan.table && k !in SourceAt(log, at)
    ensures Good(log, Max(high, at), c.(scan := scan), m, pos)
  {
    forall k ensures GoodKey(log, Max(high, at), c.(scan := scan), m, pos, k) {
      assert GoodKey(log, high, c, m, pos, k);
      if k in m || Passed(c, k) {
        JustifiedHigher(log, high, Max(high, at), m, pos, k);
      } else if Passed(c.(scan := scan), k) {
        AbsentIsJustified(log, high, m, c.tables[scan.table].since, pos, k, at);
      }
    }
  }

  /** How inserting copied documents that are not there yet changes one key. */
  ghost predicate Inserted(m: Store, m': Store, docs: seq<(Key, string)>, k: Key) {
    && (k in m ==> k in m' && m'[k] == m[k])
    && (k in m' && k !in m ==> exists i :: 0 <= i < |docs| && docs[i].0 == k && m'[k] == Row(docs[i].1))
    && (Buffered(docs, k) ==> k in m')
  }

  /** A copied document added to the store is justified by the read it came from, or by the stream's
      position when the stream is past that read: the key has not changed in between. */
  lemma CopyIsJustified(log: Log, high: nat, since: nat, m: Store, m': Store, pos: nat, doc: (Key, string))
    requires pos <= |log| && doc.0 !in m && Untouched(log, doc.0, since, pos) && ReadFrom(log, since, high, doc)
    requires doc.0 in m' && m'[doc.0] == Row(doc.1)
    ensures Justified(log, high, m', pos, doc.0)
  {
    var a :| since <= a <= high && a <= |log| && doc.0 in SourceAt(log, a) && SourceAt(log, a)[doc.0] == doc.1;
    if pos <= a {
      assert FitsAt(log, m', doc.0, a);
    } else {
      UntouchedIsSame(log, doc.0, a, pos);
      assert FitsAt(log, m', doc.0, pos);
    }
  }

  lemma InsertKeepsGood(log: Log, high: nat, c: Coverage, scan: Scan, m: Store, m': Store, pos: nat, docs: seq<(Key, string)>)
    requires pos <= |log| && Good(log, high, c, m, pos)
    requires scan.Scanning? && IsPending(c, scan.table) && AllRead(log, c.tables[scan.table].since, high, docs)
    requires forall i :: 0 <= i < |docs| ==> docs[i].0.table == scan.table
    requires forall k :: Inserted(m, m', docs, k)
    requires forall k :: Passed(c.(scan := scan), k) ==> Passed(c, k) || Buffered(docs, k)
    ensures Good(log, high, c.(scan := scan), m', pos)
  {
    forall k ensures GoodKey(log, high, c.(scan := scan), m', pos, k) {
      assert GoodKey(log, high, c, m, pos, k) && Inserted(m, m', docs, k);
      if k in m || k !in m' {
        if k in m || Passed(c, k) {
          JustifiedSameKey(log, high, m, m', pos, k);
        }
      } else {
        var i :| 0 <= i < |docs| && docs[i].0 == k && m'[k] == Row(docs[i].1);
        CopyIsJustified(log, high, c.tables[scan.table].since, m, m', pos, docs[i]);
      }
    }
  }

  // ----- the steps of the scan -----

  lemma BeginScanKeepsInv(s: State, table: int)
    requires Inv(s) && Enabled(s, BeginScan(table))
    ensures Inv(Step(s, BeginScan(table)))
  {
    BeginScanKeepsStores(s, Step(s, BeginScan(table)).scan);
  }

  lemma BeginScanKeepsStores(s: State, scan: Scan)
    requires PositionsOk(s) && StoresOk(s) && s.running && s.scan.Idle?
    requires Registered(s.tables, scan) && s.tables[scan.table].Pending?
    requires scan.cursor == s.tables[scan.table].lastKey && scan.buffer == [] && !scan.finished
    ensures var s' := s.(scan := scan); PositionsOk(s') && StoresOk(s')
  {
    var s' := s.(scan := scan);
    assert Effective(s') == Effective(s) && High(s') == High(s);
    BeginKeepsPassed(CoverageOf(s), scan);
    SamePassedKeepsGood(s.log, High(s), CoverageOf(s), CoverageOf(s'), s.rows, s.resume.index);
    SamePassedKeepsGood(s.log, High(s), CoverageOf(s), CoverageOf(s'), Effective(s), s.cursor.index);
  }

  /** A copy begins where the saved key says. */
  lemma BeginKeepsPassed(c: Coverage, scan: Scan)
    requires c.scan.Idle? && Registered(c.tables, scan) && IsPending(c, scan.table)
    requires scan.cursor == c.tables[scan.table].lastKey && scan.buffer == [] && !scan.finished
    ensures forall k :: Passed(c.(scan := scan), k) == Passed(c, k)
  {
  }

  lemma ScanAdvanceKeepsStores(s: State, scan: Scan, at: nat)
    requires PositionsOk(s) && StoresOk(s) && ScanOk(s.log, s.tables, s.scan, s.scanHigh)
    requires Registered(s.tables, s.scan) && scan.Scanning? && scan.table == s.scan.table && s.scan.since <= at <= |s.log|
    requires var c := CoverageOf(s);
             forall k :: Passed(c.(scan := scan), k) && !Passed(c, k) ==> k.table == scan.table && k !in SourceAt(s.log, at)
    ensures var s' := s.(scan := scan, scanHigh := Max(s.scanHigh, at)); PositionsOk(s') && StoresOk(s')
  {
    var s' := s.(scan := scan, scanHigh := Max(s.scanHigh, at));
    ScanAdvances(s.log, High(s), CoverageOf(s), scan, s.rows, s.resume.index, at);
    ScanAdvances(s.log, High(s), CoverageOf(s), scan, Effective(s), s.cursor.index, at);
    assert Effective(s') == Effective(s) && High(s') == Max(High(s), at);
    assert CoverageOf(s') == CoverageOf(s).(scan := scan);
  }

  lemma ScanReadKeepsStores(s: State, at: nat, id: int)
    requires Inv(s) && Enabled(s, ScanRead(at, id))
    ensures PositionsOk(Step(s, ScanRead(at, id))) && StoresOk(Step(s, ScanRead(at, id)))
  {
    var scan := Step(s, ScanRead(at, id)).scan;
    var c := CoverageOf(s);
    forall k | Passed(c.(scan := scan), k) && !Passed(c, k)
      ensures k.table == scan.table && k !in SourceAt(s.log, at)
    {
      var n := |s.scan.buffer|;
      assert scan.buffer[n].0 == Key(scan.table, id);
      assert forall i :: 0 <= i < n ==> scan.buffer[i] == s.scan.buffer[i];
      if k.table == scan.table {
        assert !Buffered(s.scan.buffer, k);
        assert k.id != id;
      }
    }
    ScanAdvanceKeepsStores(s, scan, at);
  }

  lemma ScanReadKeepsScan(s: State, at: nat, id: int)
    requires Inv(s) && Enabled(s, ScanRead(at, id))
    ensures var s' := Step(s, ScanRead(at, id)); ScanOk(s'.log, s'.tables, s'.scan, s'.scanHigh)
  {
    ReadIsRead(s, at, id);
    ReadKeepsBuffer(s, at, id);
  }

  lemma ReadIsRead(s: State, at: nat, id: int)
    requires Enabled(s, ScanRead(at, id)) && AllRead(s.log, s.scan.since, s.scanHigh, s.scan.buffer)
    ensures var s' := Step(s, ScanRead(at, id)); AllRead(s'.log, s'.scan.since, s'.scanHigh, s'.scan.buffer)
  {
    var s' := Step(s, ScanRead(at, id));
    AllReadGrows(s.log, [], s.scan.since, s.scanHigh, s'.scanHigh, s.scan.buffer);
    assert s.log + [] == s.log;
    assert Key(s.scan.table, id) in SourceAt(s.log, at);
    forall i | 0 <= i < |s'.scan.buffer| ensures ReadFrom(s.log, s.scan.since, s'.scanHigh, s'.scan.buffer[i]) {
      assert i < |s.scan.buffer| ==> s'.scan.buffer[i] == s.scan.buffer[i];
    }
  }

  lemma ReadKeepsBuffer(s: State, at: nat, id: int)
    requires ScanOk(s.log, s.tables, s.scan, s.scanHigh) && Enabled(s, ScanRead(at, id))
    ensures var s' := Step(s, ScanRead(at, id));
            BufferOk(s'.scan, s.tables[s.scan.table].lastKey)
  {
    var s' := Step(s, ScanRead(at, id));
    var n := |s.scan.buffer|;
    assert s'.scan.buffer[n].0 == Key(s.scan.table, id);
    assert forall i :: 0 <= i < n ==> s'.scan.buffer[i] == s.scan.buffer[i];
  }

  lemma ScanReadKeepsInv(s: State, at: nat, id: int)
    requires Inv(s) && Enabled(s, ScanRead(at, id))
    ensures Inv(Step(s, ScanRead(at, id)))
  {
    ScanReadKeepsStores(s, at, id);
    ScanReadKeepsScan(s, at, id);
    var s' := Step(s, ScanRead(at, id));
    assert GateOk(s');
  }

  lemma ScanFinishKeepsInv(s: State, at: nat)
    requires Inv(s) && Enabled(s, ScanFinish(at))
    ensures Inv(Step(s, ScanFinish(at)))
  {
    var s' := Step(s, ScanFinish(at));
    ScanAdvanceKeepsStores(s, s'.scan, at);
    ScanGrows(s.log, [], s.tables, s.scan, s.scanHigh, s'.scanHigh);
    assert s.log + [] == s.log;
    assert GateOk(s');
  }

  lemma {:induction false} ApplySavesOver(rows: Store, rows': Store, saves: seq<Save>, k: Key)
    ensures (exists i :: 0 <= i < |saves| && saves[i].key == k) ==>
              k in ApplySaves(rows, saves) && k in ApplySaves(rows', saves)
              && ApplySaves(rows, saves)[k] == ApplySaves(rows', saves)[k]
    ensures (forall i :: 0 <= i < |saves| ==> saves[i].key != k) ==>
              && (k in ApplySaves(rows, saves) <==> k in rows)
              && (k in rows ==> ApplySaves(rows, saves)[k] == rows[k])
  {
    if saves != [] {
      var n := |saves| - 1;
      ApplySavesOver(rows, rows', saves[..n], k);
      if exists i :: 0 <= i < |saves| && saves[i].key == k && i < n {
        var i :| 0 <= i < n && saves[i].key == k;
        assert saves[..n][i].key == k;
      }
    }
  }

  lemma CopyIsInserted(rows: Store, docs: seq<(Key, string)>, saves: seq<Save>, k: Key)
    ensures Inserted(rows, InsertMissing(rows, docs), docs, k)
    ensures Inserted(ApplySaves(rows, saves), ApplySaves(InsertMissing(rows, docs), saves), docs, k)
  {
    var doc := InsertMissingKey(rows, docs, k);
    ApplySavesOver(rows, InsertMissing(rows, docs), saves, k);
    ApplySavesOver(InsertMissing(rows, docs), rows, saves, k);
  }

  lemma FlushKeepsGood(log: Log, high: nat, c: Coverage, m: Store, m': Store, pos: nat, count: nat)
    requires pos <= |log| && Good(log, high, c, m, pos) && Registered(c.tables, c.scan) && count <= |c.scan.buffer|
    requires IsPending(c, c.scan.table) && c.tables[c.scan.table].since == c.scan.since
    requires AllRead(log, c.scan.since, high, c.scan.buffer)
    requires forall i :: 0 <= i < |c.scan.buffer| ==> c.scan.buffer[i].0.table == c.scan.table
    requires forall k :: Inserted(m, m', c.scan.buffer[..count], k)
    ensures Good(log, high, c.(scan := c.scan.(buffer := c.scan.buffer[count..])), m', pos)
  {
    FlushPasses(c, c.scan, count);
    InsertKeepsGood(log, high, c, c.scan.(buffer := c.scan.buffer[count..]), m, m', pos, c.scan.buffer[..count]);
  }

  lemma ScanFlushIs(s: State, count: nat)
    requires Enabled(s, ScanFlush(count)) && Registered(s.tables, s.scan)
    ensures var s' := Step(s, ScanFlush(count));
            && CoverageOf(s') == CoverageOf(s).(scan := s.scan.(buffer := s.scan.buffer[count..]))
            && High(s') == High(s) && s'.log == s.log && s'.resume == s.resume && s'.cursor == s.cursor && s'.running == s.running
            && s'.rows == InsertMissing(s.rows, s.scan.buffer[..count])
            && Effective(s') == ApplySaves(InsertMissing(s.rows, s.scan.buffer[..count]), s.pending)
  {
  }

  /** A copy of a registered table writes its documents into the store. */
  lemma ScanFlushKeepsStores(s: State, count: nat)
    requires PositionsOk(s) && StoresOk(s) && ScanOk(s.log, s.tables, s.scan, s.scanHigh)
    requires Enabled(s, ScanFlush(count)) && Registered(s.tables, s.scan)
    ensures PositionsOk(Step(s, ScanFlush(count))) && StoresOk(Step(s, ScanFlush(count)))
  {
    var docs := s.scan.buffer[..count];
    var rows := InsertMissing(s.rows, docs);
    forall k ensures Inserted(s.rows, rows, docs, k) && Inserted(Effective(s), ApplySaves(rows, s.pending), docs, k) {
      CopyIsInserted(s.rows, docs, s.pending, k);
    }
    AllReadGrows(s.log, [], s.scan.since, s.scanHigh, High(s), s.scan.buffer);
    assert s.log + [] == s.log;
    FlushKeepsGood(s.log, High(s), CoverageOf(s), s.rows, rows, s.resume.index, count);
    if s.running {
      FlushKeepsGood(s.log, High(s), CoverageOf(s), Effective(s), ApplySaves(rows, s.pending), s.cursor.index, count);
    }
    ScanFlushIs(s, count);
    ScanFlushKeepsPositions(s, count);
  }

  lemma ScanFlushKeepsPositions(s: State, count: nat)
    requires PositionsOk(s) && Enabled(s, ScanFlush(count))
    ensures PositionsOk(Step(s, ScanFlush(count)))
  {
  }

  /** What is written is passed, and nothing else is. */
  lemma FlushPasses(c: Coverage, scan: Scan, count: nat)
    requires Registered(c.tables, scan) && c.scan == scan && count <= |scan.buffer|
    ensures forall k :: Passed(c.(scan := scan.(buffer := scan.buffer[count..])), k) ==> Passed(c, k) || Buffered(scan.buffer[..count], k)
  {
    forall k | Passed(c.(scan := scan.(buffer := scan.buffer[count..])), k) ensures Passed(c, k) || Buffered(scan.buffer[..count], k) {
      SplitBuffer(scan.buffer, count, k);
    }
  }

  lemma SplitBuffer(buffer: seq<(Key, string)>, count: nat, k: Key)
    requires count <= |buffer|
    ensures Buffered(buffer, k) ==> Buffered(buffer[..count], k) || Buffered(buffer[count..], k)
  {
    if Buffered(buffer, k) {
      var i :| 0 <= i < |buffer| && buffer[i].0 == k;
      assert i < count ==> buffer[..count][i].0 == k;
      assert count <= i ==> buffer[count..][i - count].0 == k;
    }
  }

  /** A copy whose table was dropped is at its end, and writes nothing under its old number. */
  lemma ScanFlushKeepsInv(s: State, count: nat)
    requires Inv(s) && Enabled(s, ScanFlush(count))
    ensures Inv(Step(s, ScanFlush(count)))
  {
    if Registered(s.tables, s.scan) {
      ScanFlushKeepsStores(s, count);
      FlushKeepsScan(s.log, s.tables, s.scan, s.scanHigh, count);
    } else {
      assert s.scan.buffer[..count] == [] && s.scan.buffer[count..] == s.scan.buffer;
      assert Step(s, ScanFlush(count)) == s;
    }
  }

  lemma FlushKeepsScan(log: Log, tables: map<int, TableState>, scan: Scan, high: nat, count: nat)
    requires ScanOk(log, tables, scan, high) && Registered(tables, scan) && count <= |scan.buffer|
    ensures ScanOk(log, tables, scan.(buffer := scan.buffer[count..]), high)
  {
    var rest := scan.buffer[count..];
    assert forall i :: 0 <= i < |rest| ==> rest[i] == scan.buffer[i + count];
  }

  /** Moving table states and the scan without changing what is passed, or what is still pending
      for longer, keeps the stores good. */
  lemma SamePassedKeepsGood(log: Log, high: nat, c: Coverage, c': Coverage, m: Store, pos: nat)
    requires pos <= |log| && Good(log, high, c, m, pos)
    requires forall k :: Passed(c', k) ==> Passed(c, k)
    requires forall t :: IsPending(c', t) ==> IsPending(c, t) && c.tables[t].since == c'.tables[t].since
    ensures Good(log, high, c', m, pos)
  {
    forall k ensures GoodKey(log, high, c', m, pos, k) {
      assert GoodKey(log, high, c, m, pos, k);
    }
  }

  lemma SaveProgressKeepsInv(s: State, id: int)
    requires Inv(s) && Enabled(s, SaveProgress(id))
    ensures Inv(Step(s, SaveProgress(id)))
  {
    var s' := Step(s, SaveProgress(id));
    var c, c' := CoverageOf(s), CoverageOf(s');
    ProgressKeepsScan(s.log, s.tables, s.scan, s.scanHigh, id);
    ProgressKeepsPassed(c, id);
    SamePassedKeepsGood(s.log, High(s), c, c', s.rows, s.resume.index);
    SamePassedKeepsGood(s.log, High(s), c, c', Effective(s), s.cursor.index);
    assert Effective(s') == Effective(s) && High(s') == High(s);
    assert PositionsOk(s') && StoresOk(s') && GateOk(s');
  }

  predicate MaySave(scan: Scan, id: int) {
    && scan.Scanning? && scan.cursor.Some? && id <= scan.cursor.value
    && (forall i :: 0 <= i < |scan.buffer| ==> id < scan.buffer[i].0.id)
  }

  lemma ProgressKeepsScan(log: Log, tables: map<int, TableState>, scan: Scan, high: nat, id: int)
    requires ScanOk(log, tables, scan, high) && MaySave(scan, id)
    ensures var tables' := SavedAt(tables, scan, id);
            && ScanOk(log, tables', scan, high) && tables'.Keys == tables.Keys
            && (forall t :: t in tables ==> tables'[t].Done? == tables[t].Done? && tables'[t].serial == tables[t].serial)
            && (forall t :: t in tables && tables[t].Pending? ==> tables'[t].since == tables[t].since)
  {
  }

  /** While its copy goes on, the saved key of a table plays no part. */
  lemma ProgressKeepsPassed(c: Coverage, id: int)
    ensures var c' := c.(tables := SavedAt(c.tables, c.scan, id)); forall k :: Passed(c', k) ==> Passed(c, k)
  {
  }

  /** The state once a table's copy is complete; its marker is still to be written. */
  function Finished(s: State): State
    requires s.scan.Scanning?
  {
    s.(scan := Idle, tables := if Registered(s.tables, s.scan) then s.tables[s.scan.table := Done(s.scan.serial)] else s.tables)
  }

  lemma FinishedKeepsInv(s: State)
    requires Inv(s) && Enabled(s, FinishTable)
    ensures Inv(Finished(s)) && !Finished(s).snapshotDone && Finished(s).running
  {
    var s' := Finished(s);
    var c, c' := CoverageOf(s), CoverageOf(s');
    SamePassedKeepsGood(s.log, High(s), c, c', s.rows, s.resume.index);
    SamePassedKeepsGood(s.log, High(s), c, c', Effective(s), s.cursor.index);
    assert Effective(s') == Effective(s) && High(s') == High(s);
    assert PositionsOk(s') && StoresOk(s') && GateOk(s');
  }

  /** A snapshot marker raises the position below which nothing may be published. */
  lemma RaiseGateKeepsInv(s: State, marker: nat)
    requires Inv(s)
    ensures Inv(s.(noCheckpointBefore := Max(s.noCheckpointBefore, marker)))
  {
    var s' := s.(noCheckpointBefore := Max(s.noCheckpointBefore, marker));
    assert Effective(s') == Effective(s) && High(s') == High(s) && CoverageOf(s') == CoverageOf(s);
    assert PositionsOk(s') && StoresOk(s');
    assert GateOk(s');
  }

  lemma FinishTableKeepsInv(s: State)
    requires Inv(s) && Enabled(s, FinishTable)
    ensures Inv(Step(s, FinishTable))
  {
    FinishedKeepsInv(s);
    AppendKeepsInv(Finished(s), [Checkpoint(Standalone)], [1]);
    var w := WriteCheckpoint(Finished(s), Standalone);
    RaiseGateKeepsInv(w, LastTs(w.log));
    FinishTableIs(s);
  }

  /** The snapshot writer's own commit is always blocked: a copy is never complete while it is made. */
  lemma FinishTableIs(s: State)
    requires Inv(s) && Enabled(s, FinishTable)
    ensures var w := WriteCheckpoint(Finished(s), Standalone);
            Step(s, FinishTable) == w.(noCheckpointBefore := Max(s.noCheckpointBefore, LastTs(w.log)))
    ensures Step(s, FinishTable).published == s.published
  {
    assert !s.snapshotDone;
  }

  lemma OpenGateKeepsInv(s: State, marker: nat)
    requires Inv(s) && s.running && s.scan.Idle? && forall t :: t in s.tables ==> s.tables[t].Done?
    requires forall i :: 0 <= i < s.scanHigh ==> s.log[i].ts < marker
    ensures Inv(s.(snapshotDone := true, noCheckpointBefore := Max(s.noCheckpointBefore, marker)))
  {
    RaiseGateKeepsInv(s, marker);
    var s' := s.(snapshotDone := true, noCheckpointBefore := Max(s.noCheckpointBefore, marker));
    assert Effective(s') == Effective(s) && High(s') == High(s) && CoverageOf(s') == CoverageOf(s);
    assert PositionsOk(s') && StoresOk(s') && GateOk(s');
  }

  lemma MarkSnapshotDoneKeepsInv(s: State)
    requires Inv(s) && Enabled(s, MarkSnapshotDone)
    ensures Inv(Step(s, MarkSnapshotDone))
  {
    AppendKeepsInv(s, [Checkpoint(Standalone)], [1]);
    var w := WriteCheckpoint(s, Standalone);
    MarkerIsPast(s);
    OpenGateKeepsInv(w, LastTs(w.log));
    AppendKeepsInv(w.(snapshotDone := true, noCheckpointBefore := Max(s.noCheckpointBefore, LastTs(w.log))), [Checkpoint(Standalone)], [1]);
  }

  lemma MarkerIsPast(s: State)
    requires PositionsOk(s)
    ensures var w := WriteCheckpoint(s, Standalone);
            LastTs(w.log) == LastTs(s.log) + 1 && forall i :: 0 <= i < s.scanHigh ==> w.log[i].ts < LastTs(w.log)
  {
    var w := WriteCheckpoint(s, Standalone);
    forall i | 0 <= i < s.scanHigh ensures w.log[i].ts < LastTs(w.log) {
      assert w.log[i] == s.log[i] && s.log[i].ts <= LastTs(s.log);
    }
  }

  // ----- the small steps of the stream -----

  lemma OpenStreamKeepsInv(s: State)
    requires Inv(s) && Enabled(s, OpenStream)
    ensures Inv(Step(s, OpenStream))
  {
    AwaitBarrierKeepsInv(s);
    var b := AwaitBarrier(s);
    var s' := b.(streaming := true);
    assert Effective(s') == Effective(b) && High(s') == High(b) && CoverageOf(s') == CoverageOf(b);
    assert PositionsOk(s') && StoresOk(s');
  }

  lemma ReadFragmentKeepsInv(s: State)
    requires Inv(s) && Enabled(s, ReadFragment)
    ensures Inv(Step(s, ReadFragment))
  {
    var s' := Step(s, ReadFragment);
    assert s.startTs < s.log[s.cursor.index].ts;
    assert Effective(s') == Effective(s) && High(s') == High(s) && CoverageOf(s') == CoverageOf(s);
    assert PositionsOk(s') && StoresOk(s');
  }
}
