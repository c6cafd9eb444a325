/** Four runs that are not clean, each with a checkpoint at its end that is not the source. */
module ReplicationLimits {
  import opened SourceLog
  import opened Protocol
  import opened Replication
  import DroppedCopy
  import opened Wrappers

  ghost predicate Reaches(s: State, t: State) {
    exists run :: IsRun(s, run) && Final(s, run) == t
  }

  lemma Then(s: State, t: State, a: Action, u: State)
    requires Reaches(s, t) && Enabled(t, a) && u == Step(t, a)
    ensures Reaches(s, u)
  {
    var run :| IsRun(s, run) && Final(s, run) == t;
    RunThen(s, run, a);
  }

  lemma Begin(s: State, a: Action, u: State)
    requires Enabled(s, a) && u == Step(s, a)
    ensures Reaches(s, u)
  {
    assert IsRun(s, []) && Final(s, []) == s;
    Then(s, s, a, u);
  }

  lemma CleanlyReached(s: State, t: State)
    requires DroppedCopy.Reaches(s, t)
    ensures Reaches(s, t)
  {
    var run :| IsCleanRun(s, run) && CleanFinal(s, run) == t;
    CleanRunIsRun(s, run);
  }

  lemma CleanlyThen(s: State, t: State, a: Action, u: State)
    requires DroppedCopy.Reaches(s, t) && Enabled(t, a) && Clean(t, a) && u == Step(t, a)
    ensures DroppedCopy.Reaches(s, u)
  {
    DroppedCopy.Then(s, t, a);
  }

  lemma ShowWrong(s: State, c: Published, k: Key)
    requires c in s.published && c.index <= |s.log| && k in SourceAt(s.log, c.index)
    requires c.strays == map[] && k !in c.rows
    ensures DroppedCopy.EndsWrong(s)
  {
    assert !Shows(c, k, SourceAt(s.log, c.index)[k]);
  }

  function Empty(log: Log, at: nat): State {
    State(log, map[], map[], map[], 0, Position(at, 0), false, 0, 0, [],
          0, false, false, Position(0, 0), 0, 0, [], None, Idle,
          false, 0, 0, 0, 0)
  }

  const A := Key(1, 1)

  // ----- a batch cut short by an abort -----

  const Markers: Log := [Entry(1, Checkpoint(Standalone), 1), Entry(2, Checkpoint(Standalone), 1)]
  const Opened: Log :=
    [Entry(1, Checkpoint(Standalone), 1), Entry(2, Checkpoint(Standalone), 1), Entry(3, Checkpoint(Own(1)), 1)]
  const Changed: Log :=
    [Entry(1, Checkpoint(Standalone), 1), Entry(2, Checkpoint(Standalone), 1), Entry(3, Checkpoint(Own(1)), 1),
     Entry(4, Put(A, "new"), 1)]
  const Reopened: Log :=
    [Entry(1, Checkpoint(Standalone), 1), Entry(2, Checkpoint(Standalone), 1), Entry(3, Checkpoint(Own(1)), 1),
     Entry(4, Put(A, "new"), 1), Entry(5, Checkpoint(Own(2)), 1)]

  const Fresh: State := Empty([], 0)
  const Begun: State := Fresh.(instance := 1, running := true, everDiscovered := true, nextSerial := 1)
  const Ready: State := Begun.(log := Markers, snapshotDone := true, noCheckpointBefore := 1)
  const Listening: State := Ready.(log := Opened, streaming := true, wait := Some(3))
  const Behind: State := Listening.(log := Changed)
  const Aborted: State := Ready.(log := Changed, resume := Position(4, 0), running := false)
  const Restarted: State :=
    Aborted.(instance := 2, running := true, cursor := Position(4, 0), startTs := 4, startHead := 4)
  const Resumed: State := Restarted.(log := Reopened, streaming := true, wait := Some(5))

  lemma BegunIsReached()
    ensures Initial(Fresh) && Reaches(Fresh, Begun)
  {
    assert TablesOf(SourceAt([], 0)) == {};
    assert Step(Fresh, Start(0)).tables == map[];
    Begin(Fresh, Start(0), Begun);
  }

  lemma ReadyIsReached()
    ensures Reaches(Fresh, Ready)
  {
    BegunIsReached();
    assert WriteCheckpoint(Begun, Standalone).log == [Entry(1, Checkpoint(Standalone), 1)];
    assert Step(Begun, MarkSnapshotDone).log == Markers;
    Then(Fresh, Begun, MarkSnapshotDone, Ready);
  }

  lemma ListeningIsReached()
    ensures Reaches(Fresh, Listening)
  {
    ReadyIsReached();
    assert Step(Ready, OpenStream).log == Opened;
    Then(Fresh, Ready, OpenStream, Listening);
  }

  lemma BehindIsReached()
    ensures Reaches(Fresh, Behind)
  {
    ListeningIsReached();
    var change := SourceCommit([Put(A, "new")], [1]);
    assert Step(Listening, change).log == Changed;
    Then(Fresh, Listening, change, Behind);
  }

  /** The stream has read nothing of the batch, and its end is stored. */
  lemma AbortedIsReached()
    ensures Reaches(Fresh, Aborted)
  {
    BehindIsReached();
    assert Effective(Behind) == map[];
    Then(Fresh, Behind, BatchEnd(Position(4, 0)), Aborted);
  }

  lemma RestartedIsReached()
    ensures Reaches(Fresh, Restarted)
  {
    AbortedIsReached();
    assert TsAt(Changed, 4) == 4;
    Then(Fresh, Aborted, Start(4), Restarted);
  }

  lemma ResumedIsReached()
    ensures Reaches(Fresh, Resumed)
  {
    RestartedIsReached();
    assert Step(Restarted, OpenStream).log == Reopened;
    Then(Fresh, Restarted, OpenStream, Resumed);
  }

  /** The stream resumes past the change, and its own barrier publishes without it. */
  lemma ResumedPublishesWithout()
    ensures Enabled(Resumed, ReadEvent(false)) && DroppedCopy.EndsWrong(Step(Resumed, ReadEvent(false)))
  {
    assert SourceAt(Reopened, 1) == map[];
    assert SourceAt(Reopened, 2) == map[];
    assert SourceAt(Reopened, 3) == map[];
    assert SourceAt(Reopened, 4) == map[A := "new"];
    assert SourceAt(Reopened, 5) == map[A := "new"];
    var end := HandleEvent(Resumed, false);
    assert |Reopened| == 5 && Reopened[4] == Entry(5, Checkpoint(Own(2)), 1);
    assert Visible(Effective(Resumed)) == map[];
    assert end.published == [Published(5, 5, map[], map[])];
    ShowWrong(end, Published(5, 5, map[], map[]), A);
  }

  /** An abort leaves the events of a batch unread, but the position after the batch is stored: the
      change is never replicated, and the next checkpoint lacks it. */
  lemma AbortedBatchLosesChange() returns (end: State)
    ensures Initial(Fresh) && Reaches(Fresh, end) && DroppedCopy.EndsWrong(end)
  {
    BegunIsReached();
    ResumedIsReached();
    ResumedPublishesWithout();
    end := Step(Resumed, ReadEvent(false));
    Then(Fresh, Resumed, ReadEvent(false), end);
  }

  // ----- a keepalive between two fragments -----

  const Large: Log :=
    [Entry(1, Checkpoint(Standalone), 1), Entry(2, Checkpoint(Standalone), 1), Entry(3, Checkpoint(Own(1)), 1),
     Entry(4, Put(A, "new"), 2)]
  const LargeReopened: Log :=
    [Entry(1, Checkpoint(Standalone), 1), Entry(2, Checkpoint(Standalone), 1), Entry(3, Checkpoint(Own(1)), 1),
     Entry(4, Put(A, "new"), 2), Entry(5, Checkpoint(Own(2)), 1)]

  const FirstCheckpoint: Published := Published(3, 3, map[], map[])
  const Current: State :=
    Listening.(cursor := Position(3, 0), wait := None, committed := 3, resume := Position(3, 0), streamHigh := 3,
               lastCheckpoint := 3, published := [FirstCheckpoint])
  const HalfSeen: State := Current.(log := Large, cursor := Position(3, 1), held := 1)
  const KeptAlive: State :=
    HalfSeen.(resume := Position(3, 1), lastCheckpoint := 4, published := [FirstCheckpoint, Published(4, 3, map[], map[])])
  const Stopped: State := KeptAlive.(running := false, streaming := false, held := 0)
  const Revived: State :=
    Stopped.(running := true, instance := 2, cursor := Position(3, 1), startTs := 4, startHead := 4)
  const Rejoined: State := Revived.(log := LargeReopened, streaming := true, wait := Some(5))

  lemma CurrentIsReached()
    ensures Reaches(Fresh, Current)
  {
    ListeningIsReached();
    assert |Opened| == 3;
    Then(Fresh, Listening, ReadEvent(true), Listening.(cursor := Position(1, 0)));
    Then(Fresh, Listening.(cursor := Position(1, 0)), ReadEvent(true), Listening.(cursor := Position(2, 0)));
    var before := Listening.(cursor := Position(2, 0));
    BarrierPublishes(before);
    Then(Fresh, before, ReadEvent(false), Current);
  }

  lemma BarrierPublishes(before: State)
    requires before == Listening.(cursor := Position(2, 0))
    ensures Enabled(before, ReadEvent(false)) && Step(before, ReadEvent(false)) == Current
  {
    assert |Opened| == 3 && Opened[2] == Entry(3, Checkpoint(Own(1)), 1);
    assert Effective(before) == map[] && Visible(map[]) == map[] && WithoutTombstones(map[]) == map[];
  }

  lemma HalfSeenIsReached()
    ensures Reaches(Fresh, HalfSeen)
  {
    CurrentIsReached();
    var change := SourceCommit([Put(A, "new")], [2]);
    assert Step(Current, change).log == Large;
    Then(Fresh, Current, change, Current.(log := Large));
    assert Large[3] == Entry(4, Put(A, "new"), 2) && |Large| == 4;
    Then(Fresh, Current.(log := Large), ReadFragment, HalfSeen);
  }

  lemma KeptAliveIsReached()
    ensures Reaches(Fresh, KeptAlive)
  {
    HalfSeenIsReached();
    assert TimeOf(Large, Position(3, 1)) == 4;
    assert Effective(HalfSeen) == map[] && Visible(map[]) == map[] && WithoutTombstones(map[]) == map[];
    assert Step(HalfSeen, IdleKeepalive) == KeptAlive;
    Then(Fresh, HalfSeen, IdleKeepalive, KeptAlive);
  }

  lemma RejoinedIsReached()
    ensures Reaches(Fresh, Rejoined)
  {
    KeptAliveIsReached();
    Then(Fresh, KeptAlive, Crash, Stopped);
    assert TimeOf(Large, Position(3, 1)) == 4;
    Then(Fresh, Stopped, Start(4), Revived);
    assert Step(Revived, OpenStream).log == LargeReopened;
    Then(Fresh, Revived, OpenStream, Rejoined);
  }

  /** The rest of the change has the time of the stored position, and is dropped as already seen. */
  lemma RestIsDropped()
    ensures Reaches(Fresh, Rejoined.(cursor := Position(4, 0)))
  {
    RejoinedIsReached();
    assert |LargeReopened| == 5 && LargeReopened[3].ts == 4;
    Then(Fresh, Rejoined, ReadEvent(true), Rejoined.(cursor := Position(4, 0)));
  }

  lemma RestIsMissing()
    ensures var s := Rejoined.(cursor := Position(4, 0));
            Enabled(s, ReadEvent(false)) && DroppedCopy.EndsWrong(Step(s, ReadEvent(false)))
  {
    assert SourceAt(LargeReopened, 1) == map[];
    assert SourceAt(LargeReopened, 2) == map[];
    assert SourceAt(LargeReopened, 3) == map[];
    assert SourceAt(LargeReopened, 4) == map[A := "new"];
    assert SourceAt(LargeReopened, 5) == SourceAt(LargeReopened, 4);
    var s := Rejoined.(cursor := Position(4, 0));
    assert |LargeReopened| == 5 && LargeReopened[4] == Entry(5, Checkpoint(Own(2)), 1);
    assert Visible(Effective(s)) == map[];
    var end := HandleEvent(s, false);
    assert end.published == s.published + [Published(5, 5, map[], map[])];
    assert end.published[2] == Published(5, 5, map[], map[]);
    ShowWrong(end, Published(5, 5, map[], map[]), A);
  }

  /** The keepalive of an idle stream may come between the fragments of a change. The position it stores is
      inside that change, so a restart drops the rest of it, and the next checkpoint lacks it. */
  lemma KeepaliveInsideChangeLosesIt() returns (end: State)
    ensures Initial(Fresh) && Reaches(Fresh, end) && DroppedCopy.EndsWrong(end)
  {
    BegunIsReached();
    RestIsDropped();
    RestIsMissing();
    var s := Rejoined.(cursor := Position(4, 0));
    end := Step(s, ReadEvent(false));
    Then(Fresh, s, ReadEvent(false), end);
  }

  // ----- a table dropped while it is copied -----

  const Old: Log := [Entry(1, Put(A, "old"), 1)]
  const Dropped: Log := [Entry(1, Put(A, "old"), 1), Entry(2, DropTable(1), 1)]
  const Dropping: Log := [Entry(1, Put(A, "old"), 1), Entry(2, DropTable(1), 1), Entry(3, Checkpoint(Own(1)), 1)]
  const Filled: State := Empty(Old, 1)
  const Started: State :=
    Filled.(tables := map[1 := Pending(0, None, 1)], nextSerial := 1, instance := 1, running := true, cursor := Position(1, 0), startTs := 1,
            everDiscovered := true, scanHigh := 1, startHead := 1)
  const Scanned: State := Started.(scan := Scanning(1, 0, 1, None, [], false, 1))
  const Copying: State := Started.(scan := Scanning(1, 0, 1, Some(1), [(A, "old")], false, 1))
  const Hearing: State := Copying.(log := Dropping, streaming := true, wait := Some(3))
  lemma StartedIsReached()
    ensures Initial(Filled) && DroppedCopy.Reaches(Filled, Started)
  {
    assert SourceAt(Old, 1) == map[A := "old"];
    assert A in SourceAt(Old, 1) && TablesOf(SourceAt(Old, 1)) == {1};
    assert Step(Filled, Start(1)).tables == map[1 := Pending(0, None, 1)];
    assert IsCleanRun(Filled, []) && CleanFinal(Filled, []) == Filled;
    CleanlyThen(Filled, Filled, Start(1), Started);
  }

  lemma CopyingIsReached()
    ensures DroppedCopy.Reaches(Filled, Copying)
  {
    StartedIsReached();
    CleanlyThen(Filled, Started, BeginScan(1), Scanned);
    assert SourceAt(Old, 1) == map[A := "old"];
    assert NextKey(SourceAt(Old, 1), 1, None, 1);
    assert A == Key(1, 1) && SourceAt(Old, 1)[A] == "old" && |Old| == 1;
    assert Step(Scanned, ScanRead(1, 1)).scan == Copying.scan;
    CleanlyThen(Filled, Scanned, ScanRead(1, 1), Copying);
  }

  lemma DroppedIsReached()
    ensures DroppedCopy.Reaches(Filled, Copying.(log := Dropped))
  {
    CopyingIsReached();
    var drop := SourceCommit([DropTable(1)], [1]);
    assert Step(Copying, drop).log == Dropped;
    CleanlyThen(Filled, Copying, drop, Copying.(log := Dropped));
  }

  lemma HearingIsReached()
    ensures DroppedCopy.Reaches(Filled, Hearing)
  {
    DroppedIsReached();
    assert Step(Copying.(log := Dropped), OpenStream).log == Dropping;
    CleanlyThen(Filled, Copying.(log := Dropped), OpenStream, Hearing);
  }

  /** A document read before a drop is still to be written when the drop is handled: a client is given a
      row of a dropped table. */
  lemma DropDuringCopyLeavesRows() returns (end: State)
    ensures Initial(Filled) && DroppedCopy.Reaches(Filled, Hearing) && Enabled(Hearing, ReadEvent(true))
    ensures DroppedCopy.Reaches(Step(Hearing, ReadEvent(true)), end) && DroppedCopy.EndsWrong(end)
  {
    StartedIsReached();
    HearingIsReached();
    assert |Dropping| == 3 && Dropping[1].op == DropTable(1) && Dropping[2].op.Checkpoint?;
    var run :| IsCleanRun(Filled, run) && CleanFinal(Filled, run) == Hearing;
    end := DroppedCopy.UnfinishedDropGoesWrong(Filled, run, true);
  }

  // ----- a position inside a transaction -----

  const B := Key(1, 2)

  const Copied3: Log :=
    [Entry(1, Put(A, "old"), 1), Entry(2, Checkpoint(Standalone), 1), Entry(3, Checkpoint(Standalone), 1),
     Entry(4, Checkpoint(Standalone), 1)]
  const Paired: Log :=
    [Entry(1, Put(A, "old"), 1), Entry(2, Checkpoint(Standalone), 1), Entry(3, Checkpoint(Standalone), 1),
     Entry(4, Checkpoint(Standalone), 1), Entry(5, Put(A, "new"), 1), Entry(5, Put(B, "new"), 1)]
  const PairedOpened: Log :=
    [Entry(1, Put(A, "old"), 1), Entry(2, Checkpoint(Standalone), 1), Entry(3, Checkpoint(Standalone), 1),
     Entry(4, Checkpoint(Standalone), 1), Entry(5, Put(A, "new"), 1), Entry(5, Put(B, "new"), 1),
     Entry(6, Checkpoint(Own(1)), 1)]
  const PairedReopened: Log :=
    [Entry(1, Put(A, "old"), 1), Entry(2, Checkpoint(Standalone), 1), Entry(3, Checkpoint(Standalone), 1),
     Entry(4, Checkpoint(Standalone), 1), Entry(5, Put(A, "new"), 1), Entry(5, Put(B, "new"), 1),
     Entry(6, Checkpoint(Own(1)), 1), Entry(7, Checkpoint(Own(2)), 1)]

  const Stored: State :=
    Started.(rows := map[A := Row("old")], scan := Scanning(1, 0, 1, Some(1), [], false, 1))
  const StoredAll: State := Stored.(scan := Scanning(1, 0, 1, Some(1), [], true, 1))
  const CopyDone: State :=
    Stored.(scan := Idle, log := Copied3[..2], tables := map[1 := Done(0)], noCheckpointBefore := 2)
  const CopyMarked: State := CopyDone.(log := Copied3, snapshotDone := true, noCheckpointBefore := 3)
  const CopyHeard: State := CopyMarked.(log := PairedOpened, streaming := true, wait := Some(6))
  const HalfRead: State := CopyHeard.(cursor := Position(5, 0), pending := [Save(A, Row("new"), 5)])
  const HalfStored: State :=
    HalfRead.(rows := map[A := Row("new")], pending := [], resume := Position(5, 0), streamHigh := 5)
  const HalfCrashed: State := HalfStored.(running := false, streaming := false, wait := None)
  const HalfRestarted: State :=
    HalfCrashed.(running := true, instance := 2, startTs := 5, startHead := 7)
  const HalfResumed: State :=
    HalfRestarted.(log := PairedReopened, streaming := true, wait := Some(7))

  lemma StoredIsReached()
    ensures Reaches(Filled, Stored)
  {
    CopyingIsReached();
    CleanlyReached(Filled, Copying);
    var docs := Copying.scan.buffer;
    assert docs[..1] == docs && docs[1..] == [] && docs[..0] == [];
    assert InsertMissing(map[], docs) == map[A := Row("old")];
    Then(Filled, Copying, ScanFlush(1), Stored);
  }

  lemma CopyDoneStep()
    ensures Enabled(StoredAll, FinishTable) && Step(StoredAll, FinishTable) == CopyDone
  {
    assert Step(StoredAll, FinishTable).log == Copied3[..2];
  }

  lemma CopyDoneIsReached()
    ensures Reaches(Filled, CopyDone)
  {
    StoredIsReached();
    assert SourceAt(Old, 1) == map[A := "old"];
    Then(Filled, Stored, ScanFinish(1), StoredAll);
    CopyDoneStep();
    Then(Filled, StoredAll, FinishTable, CopyDone);
  }

  lemma CopyMarkedIsReached()
    ensures Reaches(Filled, CopyMarked)
  {
    CopyDoneIsReached();
    CopyMarkedStep();
    Then(Filled, CopyDone, MarkSnapshotDone, CopyMarked);
  }

  lemma CopyMarkedStep()
    ensures Enabled(CopyDone, MarkSnapshotDone) && Step(CopyDone, MarkSnapshotDone) == CopyMarked
  {
    assert Step(CopyDone, MarkSnapshotDone).log == Copied3;
  }

  lemma PairedIsReached()
    ensures Reaches(Filled, CopyMarked.(log := Paired))
  {
    CopyMarkedIsReached();
    var pair := SourceCommit([Put(A, "new"), Put(B, "new")], [1, 1]);
    assert Step(CopyMarked, pair).log == Paired;
    Then(Filled, CopyMarked, pair, CopyMarked.(log := Paired));
  }

  lemma CopyHeardIsReached()
    ensures Reaches(Filled, CopyHeard)
  {
    PairedIsReached();
    assert Step(CopyMarked.(log := Paired), OpenStream).log == PairedOpened;
    Then(Filled, CopyMarked.(log := Paired), OpenStream, CopyHeard);
  }

  /** The standalone markers are passed while the barrier is awaited. */
  lemma MarkersPassed()
    ensures Reaches(Filled, CopyHeard.(cursor := Position(4, 0)))
  {
    CopyHeardIsReached();
    assert |PairedOpened| == 7 && forall i :: 1 <= i < 4 ==> PairedOpened[i] == Entry(i + 1, Checkpoint(Standalone), 1);
    MarkerPassed(1);
    MarkerPassed(2);
    MarkerPassed(3);
  }

  lemma MarkerPassed(i: nat)
    requires 1 <= i < 4 && Reaches(Filled, CopyHeard.(cursor := Position(i, 0)))
    requires |PairedOpened| == 7 && PairedOpened[i] == Entry(i + 1, Checkpoint(Standalone), 1)
    ensures Reaches(Filled, CopyHeard.(cursor := Position(i + 1, 0)))
  {
    var s := CopyHeard.(cursor := Position(i, 0));
    Then(Filled, s, ReadEvent(true), s.(cursor := Position(i + 1, 0)));
  }

  lemma HalfReadIsReached()
    ensures Reaches(Filled, HalfRead)
  {
    MarkersPassed();
    var before := CopyHeard.(cursor := Position(4, 0));
    assert PairedOpened[4] == Entry(5, Put(A, "new"), 1) && A.table == 1;
    assert Step(before, ReadEvent(true)) == HalfRead;
    Then(Filled, before, ReadEvent(true), HalfRead);
  }

  /** The batch ends between the two changes of the transaction. */
  lemma HalfStoredIsReached()
    ensures Reaches(Filled, HalfStored)
  {
    HalfReadIsReached();
    assert HalfRead.pending[..0] == [];
    assert ApplySaves(map[A := Row("old")], HalfRead.pending) == map[A := Row("new")];
    Then(Filled, HalfRead, BatchEnd(Position(5, 0)), HalfStored);
  }

  lemma HalfRestartedIsReached()
    ensures Reaches(Filled, HalfRestarted)
  {
    HalfStoredIsReached();
    Then(Filled, HalfStored, Crash, HalfCrashed);
    assert TsAt(PairedOpened, 5) == 5;
    Then(Filled, HalfCrashed, Start(7), HalfRestarted);
  }

  lemma HalfResumedIsReached()
    ensures Reaches(Filled, HalfResumed)
  {
    HalfRestartedIsReached();
    assert Step(HalfRestarted, OpenStream).log == PairedReopened;
    Then(Filled, HalfRestarted, OpenStream, HalfResumed);
  }

  /** The second change has the time of the stored position, and is dropped as already seen. */
  lemma SecondHalfIsDropped()
    ensures Reaches(Filled, HalfResumed.(cursor := Position(7, 0)))
  {
    HalfResumedIsReached();
    assert |PairedReopened| == 8 && PairedReopened[5].ts == 5 && PairedReopened[6].op == Checkpoint(Own(1));
    Then(Filled, HalfResumed, ReadEvent(true), HalfResumed.(cursor := Position(6, 0)));
    Then(Filled, HalfResumed.(cursor := Position(6, 0)), ReadEvent(true), HalfResumed.(cursor := Position(7, 0)));
  }

  lemma HalfIsPublished()
    ensures var s := HalfResumed.(cursor := Position(7, 0));
            Enabled(s, ReadEvent(false)) && DroppedCopy.EndsWrong(Step(s, ReadEvent(false)))
  {
    assert SourceAt(PairedReopened, 6) == SourceAt(PairedReopened, 5)[B := "new"];
    assert SourceAt(PairedReopened, 7) == SourceAt(PairedReopened, 6);
    assert SourceAt(PairedReopened, 8) == SourceAt(PairedReopened, 7);
    var s := HalfResumed.(cursor := Position(7, 0));
    assert |PairedReopened| == 8 && PairedReopened[7] == Entry(7, Checkpoint(Own(2)), 1);
    HalfIsGiven(s);
    ShowWrong(HandleEvent(s, false), Published(7, 8, map[A := "new"], map[]), B);
  }

  lemma HalfIsGiven(s: State)
    requires s == HalfResumed.(cursor := Position(7, 0)) && PairedReopened[7] == Entry(7, Checkpoint(Own(2)), 1)
    ensures HandleEvent(s, false).published == [Published(7, 8, map[A := "new"], map[])]
    ensures HandleEvent(s, false).log == PairedReopened
  {
    assert Visible(Effective(s)) == map[A := "new"];
  }

  /** A batch may end inside a transaction. The position it stores has the time of the events still to
      come, so a restart drops them, and the next checkpoint lacks them. */
  lemma SplitTransactionLosesChange() returns (end: State)
    ensures Initial(Filled) && Reaches(Filled, end) && DroppedCopy.EndsWrong(end)
  {
    StartedIsReached();
    SecondHalfIsDropped();
    HalfIsPublished();
    var s := HalfResumed.(cursor := Position(7, 0));
    end := Step(s, ReadEvent(false));
    Then(Filled, s, ReadEvent(false), end);
  }
}
