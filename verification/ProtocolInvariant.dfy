/** The invariant of replication, and the facts its steps need: what a stored row owes to the log. */
module ProtocolInvariant {
  import opened SourceLog
  import opened Protocol
  import opened Wrappers

  /** The stored state of one key is the source's state of that key at position a. */
  ghost predicate FitsAt(log: Log, m: Store, k: Key, a: nat)
    requires a <= |log|
  {
    if k in m && m[k].Row? then k in SourceAt(log, a) && SourceAt(log, a)[k] == m[k].value
    else k !in SourceAt(log, a)
  }

  /** It fits at some position the stream has reached or has yet to catch up with. */
  ghost predicate Justified(log: Log, high: nat, m: Store, pos: nat, k: Key) {
    exists a :: pos <= a <= Max(pos, high) && a <= |log| && FitsAt(log, m, k, a)
  }

  function High(s: State): nat {
    Max(s.scanHigh, s.streamHigh)
  }

  predicate Buffered(buffer: seq<(Key, string)>, k: Key) {
    exists i :: 0 <= i < |buffer| && buffer[i].0 == k
  }

  /** What decides how far the snapshot has come. */
  datatype Coverage = Coverage(tables: map<int, TableState>, scan: Scan, everDiscovered: bool)

  function CoverageOf(s: State): Coverage {
    Coverage(s.tables, s.scan, s.everDiscovered)
  }

  predicate IsPending(c: Coverage, table: int) {
    table in c.tables && c.tables[table].Pending?
  }

  /** The snapshot has accounted for this key: no later chunk can return it. */
  predicate Passed(c: Coverage, k: Key) {
    if k.table !in c.tables then c.everDiscovered
    else
      match c.tables[k.table]
      case Done(_) => true
      case Pending(_, lastKey, _) =>
        if Registered(c.tables, c.scan) && c.scan.table == k.table
        then (c.scan.finished || !After(k.id, c.scan.cursor)) && !Buffered(c.scan.buffer, k)
        else !After(k.id, lastKey)
  }

  /** A key that is stored, or can no longer be copied, is justified; a key of a table still being
      copied that is not stored has not changed since the table was registered. */
  ghost predicate GoodKey(log: Log, high: nat, c: Coverage, m: Store, pos: nat, k: Key)
    requires pos <= |log|
  {
    && (k in m || Passed(c, k) ==> Justified(log, high, m, pos, k))
    && (k !in m && IsPending(c, k.table) ==> Untouched(log, k, c.tables[k.table].since, pos))
  }

  ghost predicate Good(log: Log, high: nat, c: Coverage, m: Store, pos: nat)
    requires pos <= |log|
  {
    forall k :: GoodKey(log, high, c, m, pos, k)
  }

  ghost predicate PositionsOk(s: State) {
    && WellFormed(s.log)
    && s.resume.index <= |s.log| && s.resume.fragment == 0 && Boundary(s.log, s.resume.index)
    && s.cursor.index <= |s.log|
    && s.scanHigh <= |s.log| && s.streamHigh <= |s.log| && s.startHead <= |s.log|
    && (s.streaming ==> s.running)
    && (!s.running ==> s.pending == [] && s.scan.Idle?)
    && (s.running ==>
          && s.resume.index <= s.cursor.index
          && s.held == s.cursor.fragment
          && s.streamHigh <= Max(s.cursor.index, s.startHead)
          && (forall i :: s.cursor.index <= i < |s.log| ==> s.startTs < s.log[i].ts)
          && s.startTs <= LastTs(s.log)
          && s.everDiscovered)
  }

  ghost predicate StoresOk(s: State)
    requires PositionsOk(s)
  {
    && Good(s.log, High(s), CoverageOf(s), s.rows, s.resume.index)
    && (s.running ==> Good(s.log, High(s), CoverageOf(s), Effective(s), s.cursor.index))
  }

  ghost predicate SaveOk(log: Log, lo: nat, hi: nat, save: Save) {
    && lo <= save.at <= hi <= |log|
    && (match save.record
        case Row(v) => save.key in SourceAt(log, save.at) && SourceAt(log, save.at)[save.key] == v
        case Tombstone => save.key !in SourceAt(log, save.at))
  }

  ghost predicate SavesOk(log: Log, lo: nat, hi: nat, saves: seq<Save>) {
    forall i :: 0 <= i < |saves| ==> SaveOk(log, lo, hi, saves[i])
  }

  /** A copied document was in the source at some position since the table was registered. */
  ghost predicate ReadFrom(log: Log, lo: nat, hi: nat, doc: (Key, string)) {
    exists a :: lo <= a <= hi && a <= |log| && doc.0 in SourceAt(log, a) && SourceAt(log, a)[doc.0] == doc.1
  }

  ghost predicate AllRead(log: Log, lo: nat, hi: nat, docs: seq<(Key, string)>) {
    forall i :: 0 <= i < |docs| ==> ReadFrom(log, lo, hi, docs[i])
  }

  /** The documents still to be written are in order, behind the cursor and ahead of the saved key. */
  ghost predicate BufferOk(scan: Scan, lastKey: Option<int>)
    requires scan.Scanning?
  {
    && (forall i :: 0 <= i < |scan.buffer| ==> scan.buffer[i].0.table == scan.table && !After(scan.buffer[i].0.id, scan.cursor))
    && (forall i :: 0 <= i < |scan.buffer| ==> After(scan.buffer[i].0.id, lastKey))
    && (forall i, j :: 0 <= i < j < |scan.buffer| ==> scan.buffer[i].0.id < scan.buffer[j].0.id)
  }

  /** A copy whose table is registered anew, or not at all, has nothing left to do. */
  ghost predicate ScanOk(log: Log, tables: map<int, TableState>, scan: Scan, scanHigh: nat) {
    scan.Scanning? ==>
      if Registered(tables, scan) then
        var t := tables[scan.table];
        && t.Pending? && t.since == scan.since && BufferOk(scan, t.lastKey)
        && (t.lastKey.Some? ==> scan.cursor.Some? && t.lastKey.value <= scan.cursor.value)
        && AllRead(log, scan.since, scanHigh, scan.buffer)
      else scan.finished && scan.buffer == []
  }

  /** The next number was never used, and what is registered begins within the log. */
  ghost predicate RegistryOk(log: Log, tables: map<int, TableState>, scan: Scan, next: nat) {
    && (forall t :: t in tables ==> tables[t].serial < next && (tables[t].Pending? ==> tables[t].since <= |log|))
    && (scan.Scanning? ==> scan.serial < next && scan.since <= |log|)
  }

  /** Checkpoints are possible only when no copy is outstanding, and only past everything copied. */
  ghost predicate GateOk(s: State) {
    s.snapshotDone ==>
      && s.everDiscovered && s.scan.Idle?
      && (forall t :: t in s.tables ==> s.tables[t].Done?)
      && (forall i :: 0 <= i < s.scanHigh && i < |s.log| ==> s.log[i].ts < s.noCheckpointBefore)
  }

  ghost predicate PublishedOk(log: Log, published: seq<Published>) {
    forall c :: c in published ==>
      c.index <= |log| && c.lsn == TsAt(log, c.index) && c.rows == SourceAt(log, c.index) && c.strays == map[]
  }

  ghost predicate Inv(s: State) {
    && PositionsOk(s)
    && StoresOk(s)
    && SavesOk(s.log, s.resume.index, s.cursor.index, s.pending)
    && ScanOk(s.log, s.tables, s.scan, s.scanHigh)
    && RegistryOk(s.log, s.tables, s.scan, s.nextSerial)
    && s.strays == map[]
    && GateOk(s)
    && PublishedOk(s.log, s.published)
  }

  // ----- facts about the store -----

  lemma {:induction false} ApplySavesConcat(rows: Store, a: seq<Save>, b: seq<Save>)
    ensures ApplySaves(rows, a + b) == ApplySaves(ApplySaves(rows, a), b)
    decreases |b|
  {
    if b == [] {
      assert a + b == a;
    } else {
      var n := |b| - 1;
      ApplySavesConcat(rows, a, b[..n]);
      assert (a + b)[..|a + b| - 1] == a + b[..n];
      assert (a + b)[|a + b| - 1] == b[n];
    }
  }

  /** After queued writes a key holds its last write, or what it held before. */
  lemma {:induction false} ApplySavesKey(rows: Store, saves: seq<Save>, k: Key) returns (last: Option<nat>)
    ensures last.Some? ==> last.value < |saves| && saves[last.value].key == k
                           && k in ApplySaves(rows, saves) && ApplySaves(rows, saves)[k] == saves[last.value].record
    ensures last.None? ==> (forall i :: 0 <= i < |saves| ==> saves[i].key != k)
                           && (k in ApplySaves(rows, saves) <==> k in rows)
                           && (k in rows ==> ApplySaves(rows, saves)[k] == rows[k])
  {
    if saves == [] {
      return None;
    }
    var n := |saves| - 1;
    if saves[n].key == k {
      return Some(n);
    }
    last := ApplySavesKey(rows, saves[..n], k);
  }

  /** Inserting a copied chunk leaves every present key alone and adds the rest as read. */
  lemma {:induction false} InsertMissingKey(rows: Store, docs: seq<(Key, string)>, k: Key) returns (doc: Option<nat>)
    ensures k in rows ==> k in InsertMissing(rows, docs) && InsertMissing(rows, docs)[k] == rows[k]
    ensures k !in rows && !Buffered(docs, k) ==> k !in InsertMissing(rows, docs)
    ensures Buffered(docs, k) ==> k in InsertMissing(rows, docs)
    ensures k !in rows && Buffered(docs, k) ==>
              doc.Some? && doc.value < |docs| && docs[doc.value].0 == k
              && InsertMissing(rows, docs)[k] == Row(docs[doc.value].1)
  {
    if docs == [] {
      return None;
    }
    var n := |docs| - 1;
    var init := docs[..n];
    doc := InsertMissingKey(rows, init, k);
    if Buffered(docs, k) && !Buffered(init, k) {
      var i :| 0 <= i < |docs| && docs[i].0 == k;
      assert forall j :: 0 <= j < n ==> init[j] == docs[j];
      assert i == n;
      doc := Some(n);
    }
    if Buffered(init, k) {
      var i :| 0 <= i < |init| && init[i].0 == k;
      assert docs[i].0 == k;
    }
  }

  // ----- how the parts survive -----

  lemma JustifiedGrows(log: Log, more: Log, high: nat, high': nat, m: Store, pos: nat, k: Key)
    requires Justified(log, high, m, pos, k) && high <= high'
    ensures Justified(log + more, high', m, pos, k)
  {
    var a :| pos <= a <= Max(pos, high) && a <= |log| && FitsAt(log, m, k, a);
    SourceAtPrefix(log, more, a);
    assert FitsAt(log + more, m, k, a);
  }

  lemma JustifiedHigher(log: Log, high: nat, high': nat, m: Store, pos: nat, k: Key)
    requires Justified(log, high, m, pos, k) && high <= high'
    ensures Justified(log, high', m, pos, k)
  {
    JustifiedGrows(log, [], high, high', m, pos, k);
    assert log + [] == log;
  }

  lemma JustifiedSameKey(log: Log, high: nat, m: Store, m': Store, pos: nat, k: Key)
    requires Justified(log, high, m, pos, k)
    requires k in m <==> k in m'
    requires k in m ==> m[k] == m'[k]
    ensures Justified(log, high, m', pos, k)
  {
    var a :| pos <= a <= Max(pos, high) && a <= |log| && FitsAt(log, m, k, a);
    assert FitsAt(log, m', k, a);
  }

  /** Passing an entry that does not affect a key keeps the key justified. */
  lemma JustifiedAdvances(log: Log, high: nat, m: Store, pos: nat, k: Key)
    requires pos < |log| && Justified(log, high, m, pos, k) && !Affects(log[pos].op, k)
    ensures Justified(log, high, m, pos + 1, k)
  {
    var a :| pos <= a <= Max(pos, high) && a <= |log| && FitsAt(log, m, k, a);
    if a == pos {
      assert SourceAt(log, pos + 1) == ApplyOp(SourceAt(log, pos), log[pos].op);
      assert FitsAt(log, m, k, pos + 1);
    } else {
      assert pos + 1 <= a <= Max(pos + 1, high);
    }
  }

  lemma GoodKeyAdvances(log: Log, high: nat, c: Coverage, m: Store, pos: nat, k: Key)
    requires pos < |log| && GoodKey(log, high, c, m, pos, k) && !Affects(log[pos].op, k)
    ensures GoodKey(log, high, c, m, pos + 1, k)
  {
    if k in m || Passed(c, k) {
      JustifiedAdvances(log, high, m, pos, k);
    }
  }

  lemma UntouchedGrows(log: Log, more: Log, k: Key, lo: nat, hi: nat)
    requires hi <= |log| && Untouched(log, k, lo, hi)
    ensures Untouched(log + more, k, lo, hi)
  {
    forall i | lo <= i < hi ensures !Affects((log + more)[i].op, k) {
      assert (log + more)[i] == log[i];
    }
  }

  /** Appending to the log keeps every key good. */
  lemma GoodGrows(log: Log, more: Log, high: nat, c: Coverage, m: Store, pos: nat)
    requires pos <= |log| && Good(log, high, c, m, pos)
    ensures Good(log + more, high, c, m, pos)
  {
    forall k ensures GoodKey(log + more, high, c, m, pos, k) {
      assert GoodKey(log, high, c, m, pos, k);
      if k in m || Passed(c, k) {
        JustifiedGrows(log, more, high, high, m, pos, k);
      }
      if k !in m && IsPending(c, k.table) {
        UntouchedGrows(log, more, k, c.tables[k.table].since, pos);
      }
    }
  }

  lemma GoodHigher(log: Log, high: nat, high': nat, c: Coverage, m: Store, pos: nat)
    requires pos <= |log| && high <= high' && Good(log, high, c, m, pos)
    ensures Good(log, high', c, m, pos)
  {
    forall k ensures GoodKey(log, high', c, m, pos, k) {
      assert GoodKey(log, high, c, m, pos, k);
      if k in m || Passed(c, k) {
        JustifiedHigher(log, high, high', m, pos, k);
      }
    }
  }

  lemma SavesGrow(log: Log, more: Log, lo: nat, hi: nat, saves: seq<Save>)
    requires SavesOk(log, lo, hi, saves)
    ensures SavesOk(log + more, lo, hi, saves)
  {
    forall i | 0 <= i < |saves| ensures SaveOk(log + more, lo, hi, saves[i]) {
      assert SaveOk(log, lo, hi, saves[i]);
      SourceAtPrefix(log, more, saves[i].at);
    }
  }

  lemma AllReadGrows(log: Log, more: Log, lo: nat, hi: nat, hi': nat, docs: seq<(Key, string)>)
    requires AllRead(log, lo, hi, docs) && hi <= hi'
    ensures AllRead(log + more, lo, hi', docs)
  {
    forall i | 0 <= i < |docs| ensures ReadFrom(log + more, lo, hi', docs[i]) {
      var doc := docs[i];
      var a :| lo <= a <= hi && a <= |log| && doc.0 in SourceAt(log, a) && SourceAt(log, a)[doc.0] == doc.1;
      SourceAtPrefix(log, more, a);
      assert a <= hi';
    }
  }

  lemma ScanGrows(log: Log, more: Log, tables: map<int, TableState>, scan: Scan, high: nat, high': nat)
    requires ScanOk(log, tables, scan, high) && high <= high'
    ensures ScanOk(log + more, tables, scan, high')
  {
    if Registered(tables, scan) {
      AllReadGrows(log, more, scan.since, high, high', scan.buffer);
    }
  }

  lemma PublishedGrows(log: Log, more: Log, published: seq<Published>)
    requires PublishedOk(log, published)
    ensures PublishedOk(log + more, published)
  {
    forall c | c in published
      ensures c.lsn == TsAt(log + more, c.index) && c.rows == SourceAt(log + more, c.index) && c.strays == map[]
    {
      SourceAtPrefix(log, more, c.index);
    }
  }

  /** When the stream has caught up with everything stored, and nothing is left to copy, the
      visible rows are the source's rows. */
  lemma CaughtUpIsExact(log: Log, high: nat, c: Coverage, m: Store, pos: nat)
    requires pos <= |log| && Good(log, high, c, m, pos) && high <= pos
    requires c.everDiscovered && forall t :: t in c.tables ==> c.tables[t].Done?
    ensures Visible(m) == SourceAt(log, pos)
    ensures forall k :: k in m && m[k].Tombstone? ==> k !in SourceAt(log, pos)
  {
    forall k
      ensures k in Visible(m) <==> k in SourceAt(log, pos)
      ensures k in Visible(m) ==> Visible(m)[k] == SourceAt(log, pos)[k]
      ensures k in m && m[k].Tombstone? ==> k !in SourceAt(log, pos)
    {
      assert GoodKey(log, high, c, m, pos, k);
      assert Passed(c, k);
      var a :| pos <= a <= Max(pos, high) && a <= |log| && FitsAt(log, m, k, a);
      assert a == pos;
    }
  }
}
