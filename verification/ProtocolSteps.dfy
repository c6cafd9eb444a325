/** The steps that append to the log, flush, commit, start or crash keep the invariant of replication. */
module ProtocolSteps {
  import opened SourceLog
  import opened Protocol
  import opened ProtocolInvariant
  import opened Throttling
  import opened Wrappers

  // ----- the source and the barriers -----

  lemma AppendKeepsInv(s: State, ops: seq<Op>, fragments: seq<nat>)
    requires Inv(s) && |ops| == |fragments| && OneCommit(ops)
    ensures Inv(Append(s, ops, fragments))
  {
    var more := Committed(LastTs(s.log) + 1, ops, fragments);
    AppendKeepsPositions(s, ops, fragments);
    GoodGrows(s.log, more, High(s), CoverageOf(s), s.rows, s.resume.index);
    if s.running {
      GoodGrows(s.log, more, High(s), CoverageOf(s), Effective(s), s.cursor.index);
    }
    SavesGrow(s.log, more, s.resume.index, s.cursor.index, s.pending);
    ScanGrows(s.log, more, s.tables, s.scan, s.scanHigh, s.scanHigh);
    PublishedGrows(s.log, more, s.published);
    assert GateOk(Append(s, ops, fragments));
  }

  lemma AppendKeepsPositions(s: State, ops: seq<Op>, fragments: seq<nat>)
    requires PositionsOk(s) && |ops| == |fragments| && OneCommit(ops)
    ensures PositionsOk(Append(s, ops, fragments))
  {
    CommitKeepsWellFormed(s.log, ops, fragments);
    AppendedIsNewer(s.log, ops, fragments, s.resume.index, s.cursor.index, s.startTs);
  }

  /** What is appended begins a new transaction, later than all before. */
  lemma AppendedIsNewer(log: Log, ops: seq<Op>, fragments: seq<nat>, n: nat, cursor: nat, startTs: nat)
    requires |ops| == |fragments| && n <= |log| && Boundary(log, n)
    ensures var log' := log + Committed(LastTs(log) + 1, ops, fragments);
            && Boundary(log', n) && LastTs(log) <= LastTs(log')
            && (startTs <= LastTs(log) && (forall i :: cursor <= i < |log| ==> startTs < log[i].ts) ==>
                  forall i :: cursor <= i < |log'| ==> startTs < log'[i].ts)
  {
    var log' := log + Committed(LastTs(log) + 1, ops, fragments);
    assert forall i :: 0 <= i < |log| ==> log'[i] == log[i];
    assert forall i :: |log| <= i < |log'| ==> log'[i].ts == LastTs(log) + 1;
  }

  /** Writing a barrier and waiting for it. */
  lemma AwaitBarrierKeepsInv(s: State)
    requires Inv(s)
    ensures Inv(AwaitBarrier(s))
  {
    AppendKeepsInv(s, [Checkpoint(Own(s.instance))], [1]);
    AnyWaitKeepsInv(WriteCheckpoint(s, Own(s.instance)), Some(LastTs(s.log) + 1));
  }

  // ----- restart and crash -----

  lemma NotInTables(rows: Rows, k: Key)
    requires k.table !in TablesOf(rows)
    ensures k !in rows
  {
  }

  /** Discovery at a position registers every table found there: a key of none of them was not there. */
  lemma DiscoveryKeepsGood(log: Log, high: nat, c: Coverage, m: Store, pos: nat, at: nat, found: map<int, TableState>)
    requires pos <= at <= |log| && Good(log, high, c, m, pos) && c.scan.Idle?
    requires forall t :: t in TablesOf(SourceAt(log, at)) ==> t in c.tables || t in found
    requires forall t :: t in found ==> t !in c.tables && found[t].Pending? && found[t].lastKey.None? && found[t].since == pos
    ensures Good(log, Max(high, at), Coverage(c.tables + found, c.scan, true), m, pos)
  {
    var c' := Coverage(c.tables + found, c.scan, true);
    forall k ensures GoodKey(log, Max(high, at), c', m, pos, k) {
      assert GoodKey(log, high, c, m, pos, k);
      if k in m || Passed(c, k) {
        JustifiedHigher(log, high, Max(high, at), m, pos, k);
      } else if k.table !in c'.tables {
        NotInTables(SourceAt(log, at), k);
        assert FitsAt(log, m, k, at);
      }
    }
  }

  lemma StartKeepsStores(s: State, at: nat)
    requires PositionsOk(s) && StoresOk(s) && GateOk(s) && Enabled(s, Start(at))
    ensures var s' := Step(s, Start(at));
            Good(s.log, High(s'), CoverageOf(s'), s.rows, s.resume.index)
  {
    if !s.snapshotDone {
      var found := map t | t in TablesOf(SourceAt(s.log, at)) && t !in s.tables :: Pending(s.nextSerial, None, s.resume.index);
      DiscoveryKeepsGood(s.log, High(s), CoverageOf(s), s.rows, s.resume.index, at, found);
    }
  }

  lemma StartKeepsPositions(s: State, at: nat)
    requires PositionsOk(s) && (s.snapshotDone ==> s.everDiscovered) && Enabled(s, Start(at))
    ensures PositionsOk(Step(s, Start(at)))
  {
    assert forall i :: s.resume.index <= i < |s.log| ==> TsAt(s.log, s.resume.index) < s.log[i].ts;
  }

  lemma StartKeepsRegistry(s: State, at: nat)
    requires s.resume.index <= |s.log| && RegistryOk(s.log, s.tables, s.scan, s.nextSerial) && Enabled(s, Start(at))
    ensures var s' := Step(s, Start(at));
            RegistryOk(s'.log, s'.tables, s'.scan, s'.nextSerial) && (s.snapshotDone ==> s'.tables == s.tables)
  {
  }

  lemma StartKeepsInv(s: State, at: nat)
    requires Inv(s) && Enabled(s, Start(at))
    ensures Inv(Step(s, Start(at)))
  {
    StartKeepsStores(s, at);
    StartKeepsPositions(s, at);
    StartKeepsRegistry(s, at);
    var s' := Step(s, Start(at));
    assert s'.pending == [] && s'.scan.Idle? && Effective(s') == s.rows;
    assert s'.log == s.log && s'.published == s.published && s'.resume == s.resume == s'.cursor;
    assert StoresOk(s');
  }

  lemma HaltKeepsInv(s: State)
    requires Inv(s)
    ensures Inv(Halt(s))
  {
    var s' := Halt(s);
    forall k ensures GoodKey(s.log, High(s), CoverageOf(s'), s.rows, s.resume.index, k) {
      assert GoodKey(s.log, High(s), CoverageOf(s), s.rows, s.resume.index, k);
      if Passed(CoverageOf(s'), k) {
        assert Passed(CoverageOf(s), k);
      }
    }
  }

  // ----- flushing -----

  /** Writing out any prefix of the queued saves keeps the store good for a later resume. */
  lemma FlushKeepsStoreGood(s: State, n: nat)
    requires PositionsOk(s) && Good(s.log, High(s), CoverageOf(s), s.rows, s.resume.index)
    requires SavesOk(s.log, s.resume.index, s.cursor.index, s.pending) && n <= |s.pending|
    ensures Good(s.log, Max(s.scanHigh, Max(s.streamHigh, s.cursor.index)), CoverageOf(s),
                 ApplySaves(s.rows, s.pending[..n]), s.resume.index)
  {
    var saves := s.pending[..n];
    var m := ApplySaves(s.rows, saves);
    var high := Max(s.scanHigh, Max(s.streamHigh, s.cursor.index));
    forall k ensures GoodKey(s.log, high, CoverageOf(s), m, s.resume.index, k) {
      var last := ApplySavesKey(s.rows, saves, k);
      assert GoodKey(s.log, High(s), CoverageOf(s), s.rows, s.resume.index, k);
      if last.Some? {
        var save := s.pending[last.value];
        assert SaveOk(s.log, s.resume.index, s.cursor.index, save);
        assert FitsAt(s.log, m, k, save.at);
      } else if k in s.rows || Passed(CoverageOf(s), k) {
        JustifiedSameKey(s.log, High(s), s.rows, m, s.resume.index, k);
        JustifiedHigher(s.log, High(s), high, m, s.resume.index, k);
      }
    }
  }

  lemma FlushSomeKeepsStores(s: State, n: nat)
    requires PositionsOk(s) && StoresOk(s) && Enabled(s, FlushSome(n))
    requires SavesOk(s.log, s.resume.index, s.cursor.index, s.pending)
    ensures PositionsOk(Step(s, FlushSome(n))) && StoresOk(Step(s, FlushSome(n)))
  {
    FlushKeepsStoreGood(s, n);
    FlushSomeIs(s, n);
    GoodHigher(s.log, High(s), High(Step(s, FlushSome(n))), CoverageOf(s), Effective(s), s.cursor.index);
  }

  lemma FlushSomeIs(s: State, n: nat)
    requires PositionsOk(s) && Enabled(s, FlushSome(n))
    ensures var s' := Step(s, FlushSome(n));
            && PositionsOk(s') && Effective(s') == Effective(s) && CoverageOf(s') == CoverageOf(s)
            && High(s') == Max(s.scanHigh, Max(s.streamHigh, s.cursor.index))
            && s'.rows == ApplySaves(s.rows, s.pending[..n])
            && s'.log == s.log && s'.resume == s.resume && s'.cursor == s.cursor && s'.running == s.running
  {
    ApplySavesConcat(s.rows, s.pending[..n], s.pending[n..]);
    assert s.pending[..n] + s.pending[n..] == s.pending;
  }

  lemma FlushSomeKeepsInv(s: State, n: nat)
    requires Inv(s) && Enabled(s, FlushSome(n))
    ensures Inv(Step(s, FlushSome(n)))
  {
    FlushSomeKeepsStores(s, n);
    assert SavesOk(s.log, s.resume.index, s.cursor.index, s.pending[n..]);
  }

  lemma FlushAllKeepsInv(s: State)
    requires Inv(s) && s.running
    ensures Inv(FlushAll(s))
    ensures Good(s.log, High(FlushAll(s)), CoverageOf(s), Effective(s), s.cursor.index)
  {
    FlushKeepsStoreGood(s, |s.pending|);
    assert s.pending[..|s.pending|] == s.pending;
    var f := FlushAll(s);
    GoodHigher(s.log, High(s), High(f), CoverageOf(s), Effective(s), s.cursor.index);
    assert Effective(f) == Effective(s);
    assert PositionsOk(f);
  }

  lemma BatchEndKeepsInv(s: State)
    requires Inv(s) && Enabled(s, BatchEnd(s.cursor)) && Clean(s, BatchEnd(s.cursor))
    ensures Inv(Step(s, BatchEnd(s.cursor)))
  {
    FlushAllKeepsInv(s);
    var s' := Step(s, BatchEnd(s.cursor));
    assert Effective(s') == Effective(s);
    assert PositionsOk(s');
  }

  // ----- committing -----

  /** Past its own start, the stream stands at or after everything ever stored when the gates open. */
  lemma GatesOpenMeansCaughtUp(s: State)
    requires PositionsOk(s) && GateOk(s) && s.running && s.startHead < s.cursor.index
    requires s.snapshotDone && s.noCheckpointBefore <= TsAt(s.log, s.cursor.index)
    ensures High(s) <= s.cursor.index
  {
    assert s.log[s.cursor.index - 1].ts == TsAt(s.log, s.cursor.index);
  }

  /** The rows published by a commit are the source's rows at its position; what is left stored
      afterwards is still good. */
  lemma CheckpointIsExact(f: State)
    requires Inv(f) && f.running && f.pending == [] && f.startHead < f.cursor.index
    requires CanCheckpoint(f, TsAt(f.log, f.cursor.index))
    ensures Visible(f.rows) == SourceAt(f.log, f.cursor.index)
    ensures Good(f.log, High(f), CoverageOf(f), WithoutTombstones(f.rows), f.cursor.index)
  {
    var pos := f.cursor.index;
    assert Effective(f) == f.rows;
    GatesOpenMeansCaughtUp(f);
    CaughtUpIsExact(f.log, High(f), CoverageOf(f), f.rows, pos);
    var left := WithoutTombstones(f.rows);
    forall k ensures GoodKey(f.log, High(f), CoverageOf(f), left, pos, k) {
      assert k in left <==> k in Visible(f.rows);
      assert FitsAt(f.log, left, k, pos);
    }
  }

  function Flushed(s: State): State {
    FlushAll(s).(committed := s.cursor.index, resume := if NotAfter(s.resume, s.cursor) then s.cursor else s.resume)
  }

  lemma FlushedKeepsInv(s: State)
    requires Inv(s) && s.streaming && s.cursor.fragment == 0 && Boundary(s.log, s.cursor.index)
    requires s.startHead < s.cursor.index
    ensures Inv(Flushed(s))
  {
    FlushAllKeepsInv(s);
    var f := Flushed(s);
    assert f.resume.index == s.cursor.index && f.pending == [] && Effective(f) == f.rows;
    assert PositionsOk(f);
    assert StoresOk(f);
  }

  lemma PublishKeepsInv(f: State)
    requires Inv(f) && f.running && f.pending == [] && f.startHead < f.cursor.index && f.resume.index == f.cursor.index
    requires CanCheckpoint(f, TsAt(f.log, f.cursor.index))
    ensures Inv(f.(lastCheckpoint := TsAt(f.log, f.cursor.index),
                   published := f.published + [Published(TsAt(f.log, f.cursor.index), f.cursor.index, Visible(f.rows), f.strays)],
                   rows := WithoutTombstones(f.rows)))
  {
    CheckpointIsExact(f);
    var s' := f.(lastCheckpoint := TsAt(f.log, f.cursor.index),
                 published := f.published + [Published(TsAt(f.log, f.cursor.index), f.cursor.index, Visible(f.rows), f.strays)],
                 rows := WithoutTombstones(f.rows));
    assert Effective(s') == s'.rows && High(s') == High(f) && CoverageOf(s') == CoverageOf(f);
    assert PositionsOk(s') && StoresOk(s');
    assert PublishedOk(f.log, s'.published);
  }

  lemma CommitIs(s: State, lsn: nat)
    ensures var f := Flushed(s);
            Commit(s, lsn)
            == if CanCheckpoint(f, lsn) then
                 f.(lastCheckpoint := lsn, published := f.published + [Published(lsn, f.cursor.index, Visible(f.rows), f.strays)],
                    rows := WithoutTombstones(f.rows))
               else f
  {
  }

  lemma CommitKeepsInv(s: State)
    requires Inv(s) && s.streaming && s.startHead < s.cursor.index && s.cursor.fragment == 0
    requires Boundary(s.log, s.cursor.index)
    ensures Inv(Commit(s, TsAt(s.log, s.cursor.index)))
  {
    FlushedKeepsInv(s);
    CommitIs(s, TsAt(s.log, s.cursor.index));
    if CanCheckpoint(Flushed(s), TsAt(s.log, s.cursor.index)) {
      PublishKeepsInv(Flushed(s));
    }
  }

  // ----- events -----

  lemma SavesAdvance(log: Log, lo: nat, hi: nat, hi': nat, saves: seq<Save>)
    requires SavesOk(log, lo, hi, saves) && hi <= hi' <= |log|
    ensures SavesOk(log, lo, hi', saves)
  {
    forall j | 0 <= j < |saves| ensures SaveOk(log, lo, hi', saves[j]) {
      assert SaveOk(log, lo, hi, saves[j]);
    }
  }

  lemma PassKeepsStores(log: Log, high: nat, c: Coverage, m: Store, i: nat)
    requires i < |log| && log[i].op.Checkpoint? && Good(log, high, c, m, i)
    ensures Good(log, high, c, m, i + 1)
  {
    var next := i + 1;
    forall k ensures GoodKey(log, high, c, m, next, k) {
      GoodKeyAdvances(log, high, c, m, i, k);
    }
  }

  /** Passing an event that changes no row. */
  lemma PassKeepsInv(s: State)
    requires Inv(s) && s.streaming && s.cursor.index < |s.log| && s.log[s.cursor.index].op.Checkpoint?
    ensures Inv(Passing(s))
  {
    var i := s.cursor.index;
    var s' := Passing(s);
    PassKeepsStores(s.log, High(s), CoverageOf(s), Effective(s), i);
    SavesAdvance(s.log, s.resume.index, i, i + 1, s.pending);
    assert Effective(s') == Effective(s) && High(s') == High(s) && CoverageOf(s') == CoverageOf(s);
    assert PositionsOk(s') && StoresOk(s');
  }

  /** The barrier being awaited plays no part in what is stored. */
  lemma AnyWaitKeepsInv(s: State, wait: Option<nat>)
    requires Inv(s)
    ensures Inv(s.(wait := wait))
  {
    var s' := s.(wait := wait);
    assert Effective(s') == Effective(s) && High(s') == High(s) && CoverageOf(s') == CoverageOf(s);
    assert PositionsOk(s') && StoresOk(s');
  }
}
