/** Replication from Convex. */
module Convex {
  // A paged copy of a pinned snapshot, then pages of deltas from that snapshot on, with crashes
  // anywhere.

  import opened Wrappers

  datatype Key = Key(table: nat, id: string)

  datatype Doc = Doc(key: Key, value: string)

  /** A change with the full document, or a deletion. */
  datatype Delta = Delta(key: Key, value: Option<string>)

  type Rows = map<Key, string>

  function Apply(rows: Rows, d: Delta): Rows {
    if d.value.Some? then rows[d.key := d.value.value] else rows - {d.key}
  }

  function ApplyAll(rows: Rows, ds: seq<Delta>): Rows {
    if ds == [] then rows else Apply(ApplyAll(rows, ds[..|ds| - 1]), ds[|ds| - 1])
  }

  /** Snapshot writes skip rows that are there already. */
  function Insert(rows: Rows, doc: Doc): Rows {
    if doc.key in rows then rows else rows[doc.key := doc.value]
  }

  function InsertAll(rows: Rows, docs: seq<Doc>): Rows {
    if docs == [] then rows else Insert(InsertAll(rows, docs[..|docs| - 1]), docs[|docs| - 1])
  }

  datatype Published = Published(index: nat, rows: Rows)

  datatype Work = Nothing | Copying(table: nat, page: nat, docs: seq<Doc>) | Streaming(page: nat, changes: seq<Delta>)

  datatype State = State(
    // the source: the pinned snapshot, table by table, and every delta since
    tables: seq<seq<Doc>>,
    deltas: seq<Delta>,
    // persisted
    rows: Rows,
    progress: seq<nat>,
    done: seq<bool>,
    snapshotDone: bool,
    resume: nat,
    published: seq<Published>,
    // memory of the process: where its polling has come, and what is not flushed yet
    cursor: nat,
    work: Work,
    // history: for each key a delta was stored of, the position just after the last one stored
    last: map<Key, nat>
  )

  datatype Action =
    | SourceWrite(d: Delta)
    | Crash
    | BeginTable(table: nat)
    | ReadPage(count: nat)
    | FlushSome(count: nat)
    | SaveProgress
    | FinishTable
    | MarkDone
    | ReadDeltas(count: nat)
    | EndPage(committed: bool)

  /** The rows of the snapshot. */
  ghost predicate IsSnapshot(tables: seq<seq<Doc>>, snap: Rows) {
    && (forall t, i :: 0 <= t < |tables| && 0 <= i < |tables[t]| ==>
          tables[t][i].key in snap && snap[tables[t][i].key] == tables[t][i].value)
    && (forall k :: k in snap ==> exists t, i :: 0 <= t < |tables| && 0 <= i < |tables[t]| && tables[t][i].key == k)
  }

  /** The source after n deltas. */
  function SourceAt(snap: Rows, deltas: seq<Delta>, n: nat): Rows
    requires n <= |deltas|
  {
    ApplyAll(snap, deltas[..n])
  }

  /** The position up to which the deltas of this polling are stored. */
  function At(s: State): nat {
    if s.work.Streaming? && |s.work.changes| <= s.work.page then s.work.page - |s.work.changes| else s.cursor
  }

  /** Storing deltas from a position on. */
  function Stored(last: map<Key, nat>, ds: seq<Delta>, pos: nat): map<Key, nat> {
    if ds == [] then last else Stored(last, ds[..|ds| - 1], pos)[ds[|ds| - 1].key := pos + |ds|]
  }

  predicate Enabled(s: State, a: Action) {
    match a
    case SourceWrite(_) => true
    case Crash => true
    case BeginTable(table) => !s.snapshotDone && s.work.Nothing? && table < |s.tables| && table < |s.done| && table < |s.progress|
                              && !s.done[table] && s.progress[table] <= |s.tables[table]|
    case ReadPage(count) => s.work.Copying? && s.work.docs == [] && s.work.table < |s.tables| && s.work.table < |s.progress|
                            && s.work.page == s.progress[s.work.table] && s.work.page + count <= |s.tables[s.work.table]|
    case FlushSome(count) => (s.work.Copying? && count <= |s.work.docs|) || (s.work.Streaming? && count <= |s.work.changes|)
    case SaveProgress => s.work.Copying? && s.work.docs == [] && s.work.table < |s.progress|
    case FinishTable => s.work.Copying? && s.work.docs == [] && s.work.table < |s.progress| && s.work.table < |s.tables| && s.work.table < |s.done|
                        && s.progress[s.work.table] == |s.tables[s.work.table]|
    case MarkDone => !s.snapshotDone && s.work.Nothing? && |s.done| == |s.tables| && forall t :: 0 <= t < |s.done| ==> s.done[t]
    case ReadDeltas(count) => s.snapshotDone && s.work.Nothing? && s.cursor + count <= |s.deltas|
    case EndPage(committed) => s.work.Streaming? && (!committed ==> s.work.page == s.cursor)
  }

  function Step(s: State, a: Action): State
    requires Enabled(s, a)
  {
    match a
    case SourceWrite(d) => s.(deltas := s.deltas + [d])
    case Crash => s.(cursor := s.resume, work := Nothing)
    case BeginTable(table) => s.(work := Copying(table, s.progress[table], []))
    case ReadPage(count) =>
      s.(work := s.work.(page := s.work.page + count, docs := s.tables[s.work.table][s.work.page..s.work.page + count]))
    case FlushSome(count) =>
      (match s.work
       case Copying(_, _, docs) => s.(rows := InsertAll(s.rows, docs[..count]), work := s.work.(docs := docs[count..]))
       case Streaming(page, changes) =>
         s.(rows := ApplyAll(s.rows, changes[..count]), work := s.work.(changes := changes[count..]),
            last := Stored(s.last, changes[..count], At(s)))
       case Nothing => s)
    case SaveProgress => s.(progress := s.progress[s.work.table := s.work.page])
    case FinishTable => s.(done := s.done[s.work.table := true], work := Nothing)
    case MarkDone => s.(snapshotDone := true, cursor := s.resume, published := s.published + [Published(0, s.rows)])
    case ReadDeltas(count) => s.(work := Streaming(s.cursor + count, s.deltas[s.cursor..s.cursor + count]))
    case EndPage(committed) =>
      var f := s.(rows := ApplyAll(s.rows, s.work.changes), cursor := s.work.page, work := Nothing,
                  last := Stored(s.last, s.work.changes, At(s)));
      if committed then f.(resume := s.work.page, published := s.published + [Published(s.work.page, f.rows)]) else f
  }

  ghost predicate Initial(s: State) {
    && s.rows == map[] && s.published == [] && !s.snapshotDone && s.resume == 0 && s.cursor == 0 && s.work.Nothing? && s.last == map[]
    && |s.progress| == |s.tables| && (forall t :: 0 <= t < |s.progress| ==> s.progress[t] == 0)
    && |s.done| == |s.tables| && (forall t :: 0 <= t < |s.done| ==> !s.done[t])
  }

  ghost predicate IsRun(s: State, actions: seq<Action>)
    decreases |actions|
  {
    actions == [] || (Enabled(s, actions[0]) && IsRun(Step(s, actions[0]), actions[1..]))
  }

  ghost function Final(s: State, actions: seq<Action>): State
    requires IsRun(s, actions)
    decreases |actions|
  {
    if actions == [] then s else Final(Step(s, actions[0]), actions[1..])
  }

  // ----- the invariant -----

  /** While copying: what is stored is the snapshot's, and what has been passed is stored. */
  ghost predicate CopyOk(s: State, snap: Rows) {
    && |s.progress| == |s.tables| && |s.done| == |s.tables|
    && (forall t :: 0 <= t < |s.tables| ==> s.progress[t] <= |s.tables[t]| && (s.done[t] ==> s.progress[t] == |s.tables[t]|))
    && (!s.snapshotDone ==>
          && (forall k :: k in s.rows ==> k in snap && snap[k] == s.rows[k])
          && (forall t, i :: 0 <= t < |s.tables| && 0 <= i < s.progress[t] ==> s.tables[t][i].key in s.rows)
          && s.resume == 0 && s.last == map[] && !s.work.Streaming?)
    && (s.work.Copying? ==> !s.snapshotDone && WorkOk(s.tables, s.progress, s.rows, s.work))
  }

  ghost predicate WorkOk(tables: seq<seq<Doc>>, progress: seq<nat>, rows: Rows, work: Work)
    requires work.Copying? && |progress| == |tables|
  {
    && work.table < |tables| && progress[work.table] <= work.page <= |tables[work.table]|
    && (forall d :: d in work.docs ==> d in tables[work.table])
    && (forall i :: progress[work.table] <= i < work.page ==> tables[work.table][i].key in rows || tables[work.table][i] in work.docs)
  }

  predicate SameAt(a: Rows, b: Rows, k: Key) {
    (k in a <==> k in b) && (k in a ==> a[k] == b[k])
  }

  ghost predicate Touched(deltas: seq<Delta>, lo: nat, hi: nat, k: Key) {
    exists i :: lo <= i < hi && i < |deltas| && deltas[i].key == k
  }

  function Last(last: map<Key, nat>, k: Key): nat {
    if k in last then last[k] else 0
  }

  /** A stored row is as the source had it after the last delta stored of it, and no delta in between
      is missing, as far as this polling has come. */
  ghost predicate RowOk(snap: Rows, deltas: seq<Delta>, rows: Rows, last: map<Key, nat>, pos: nat, k: Key) {
    && Last(last, k) <= |deltas| && SameAt(rows, SourceAt(snap, deltas, Last(last, k)), k)
    && !Touched(deltas, Last(last, k), pos, k)
  }

  ghost predicate RowsOk(snap: Rows, deltas: seq<Delta>, rows: Rows, last: map<Key, nat>, pos: nat) {
    forall k :: RowOk(snap, deltas, rows, last, pos, k)
  }

  ghost predicate StreamOk(s: State, snap: Rows) {
    && s.resume <= s.cursor <= |s.deltas|
    && (s.work.Streaming? ==>
          s.snapshotDone && s.cursor <= s.work.page <= |s.deltas| && |s.work.changes| <= s.work.page - s.cursor
          && s.work.changes == s.deltas[s.work.page - |s.work.changes|..s.work.page])
    && (s.snapshotDone ==> RowsOk(snap, s.deltas, s.rows, s.last, At(s)))
  }

  ghost predicate Inv(s: State, snap: Rows) {
    IsSnapshot(s.tables, snap) && CopyOk(s, snap) && StreamOk(s, snap)
  }

  /** A checkpoint holds the snapshot with exactly the deltas up to its position. */
  ghost predicate Exact(snap: Rows, deltas: seq<Delta>, c: Published) {
    c.index <= |deltas| && c.rows == SourceAt(snap, deltas, c.index)
  }

  // ----- copying -----

  lemma {:induction false} InsertAllKeeps(rows: Rows, docs: seq<Doc>, snap: Rows)
    requires forall k :: k in rows ==> k in snap && snap[k] == rows[k]
    requires forall d :: d in docs ==> d.key in snap && snap[d.key] == d.value
    ensures var r := InsertAll(rows, docs);
            (forall k :: k in rows ==> k in r) && (forall d :: d in docs ==> d.key in r) && (forall k :: k in r ==> k in snap && snap[k] == r[k])
  {
    if docs != [] {
      var init := docs[..|docs| - 1];
      assert docs == init + [docs[|docs| - 1]];
      InsertAllKeeps(rows, init, snap);
    }
  }

  lemma FlushCopyKeepsInv(s: State, snap: Rows, count: nat)
    requires Inv(s, snap) && s.work.Copying? && count <= |s.work.docs|
    ensures Inv(Step(s, FlushSome(count)), snap)
  {
    DocsAreSnapshot(s.tables, snap, s.work.table, s.work.docs);
    FlushKeepsCopy(s, snap, count);
  }

  lemma FlushKeepsCopy(s: State, snap: Rows, count: nat)
    requires CopyOk(s, snap) && s.work.Copying? && count <= |s.work.docs|
    requires forall d :: d in s.work.docs ==> d.key in snap && snap[d.key] == d.value
    ensures CopyOk(Step(s, FlushSome(count)), snap)
  {
    var docs := s.work.docs[..count];
    assert s.work.docs == docs + s.work.docs[count..];
    InsertAllKeeps(s.rows, docs, snap);
    FlushKeepsWork(s.tables, s.progress, s.rows, InsertAll(s.rows, docs), s.work, count);
  }

  lemma DocsAreSnapshot(tables: seq<seq<Doc>>, snap: Rows, table: nat, docs: seq<Doc>)
    requires IsSnapshot(tables, snap) && table < |tables| && forall d :: d in docs ==> d in tables[table]
    ensures forall d :: d in docs ==> d.key in snap && snap[d.key] == d.value
  {
    forall d | d in docs ensures d.key in snap && snap[d.key] == d.value {
      var i :| 0 <= i < |tables[table]| && tables[table][i] == d;
    }
  }

  lemma FlushKeepsWork(tables: seq<seq<Doc>>, progress: seq<nat>, rows: Rows, rows': Rows, work: Work, count: nat)
    requires work.Copying? && |progress| == |tables| && WorkOk(tables, progress, rows, work) && count <= |work.docs|
    requires forall k :: k in rows ==> k in rows'
    requires forall d :: d in work.docs[..count] ==> d.key in rows'
    ensures WorkOk(tables, progress, rows', work.(docs := work.docs[count..]))
  {
    assert work.docs == work.docs[..count] + work.docs[count..];
  }

  lemma CopyStepKeepsInv(s: State, snap: Rows, a: Action)
    requires Inv(s, snap) && Enabled(s, a) && (a.BeginTable? || a.ReadPage? || a.SaveProgress? || a.FinishTable?)
    ensures Inv(Step(s, a), snap)
  {
    if a.ReadPage? {
      ReadKeepsWork(s.tables, s.progress, s.rows, s.work, a.count);
    }
  }

  lemma ReadKeepsWork(tables: seq<seq<Doc>>, progress: seq<nat>, rows: Rows, work: Work, count: nat)
    requires work.Copying? && |progress| == |tables| && WorkOk(tables, progress, rows, work)
    requires work.docs == [] && work.page + count <= |tables[work.table]|
    ensures WorkOk(tables, progress, rows, work.(page := work.page + count, docs := tables[work.table][work.page..work.page + count]))
  {
    var docs := tables[work.table][work.page..work.page + count];
    assert forall i :: 0 <= i < |docs| ==> docs[i] == tables[work.table][work.page + i];
    forall i | work.page <= i < work.page + count ensures tables[work.table][i] in docs {
      assert docs[i - work.page] == tables[work.table][i];
    }
  }

  /** Once every table is copied, the stored rows are the snapshot. */
  lemma CopiedIsSnapshot(s: State, snap: Rows)
    requires Inv(s, snap) && Enabled(s, MarkDone)
    ensures s.rows == snap
  {
    forall k | k in snap ensures k in s.rows {
      var t, i :| 0 <= t < |s.tables| && 0 <= i < |s.tables[t]| && s.tables[t][i].key == k;
      assert s.done[t];
    }
  }

  lemma MarkDoneKeepsInv(s: State, snap: Rows)
    requires Inv(s, snap) && Enabled(s, MarkDone)
    ensures Inv(Step(s, MarkDone), snap)
  {
    CopiedIsSnapshot(s, snap);
    var t := Step(s, MarkDone);
    assert s.deltas[..0] == [];
    assert SourceAt(snap, s.deltas, 0) == snap;
    assert RowsOk(snap, t.deltas, t.rows, map[], 0);
  }

  // ----- streaming -----

  lemma SourceNext(snap: Rows, deltas: seq<Delta>, n: nat)
    requires n < |deltas|
    ensures SourceAt(snap, deltas, n + 1) == Apply(SourceAt(snap, deltas, n), deltas[n])
  {
    assert deltas[..n + 1][..n] == deltas[..n];
  }

  lemma SourceGrows(snap: Rows, deltas: seq<Delta>, d: Delta, n: nat)
    requires n <= |deltas|
    ensures SourceAt(snap, deltas + [d], n) == SourceAt(snap, deltas, n)
  {
    assert (deltas + [d])[..n] == deltas[..n];
  }

  /** A key no delta touches in between has one value at both ends. */
  lemma {:induction false} UntouchedIsSame(snap: Rows, deltas: seq<Delta>, lo: nat, hi: nat, k: Key)
    requires lo <= hi <= |deltas| && !Touched(deltas, lo, hi, k)
    ensures SameAt(SourceAt(snap, deltas, lo), SourceAt(snap, deltas, hi), k)
    decreases hi
  {
    if lo < hi {
      UntouchedIsSame(snap, deltas, lo, hi - 1, k);
      SourceNext(snap, deltas, hi - 1);
      assert deltas[hi - 1].key != k;
    }
  }

  /** Storing the next delta. */
  lemma StoreOne(snap: Rows, deltas: seq<Delta>, rows: Rows, last: map<Key, nat>, pos: nat)
    requires pos < |deltas| && RowsOk(snap, deltas, rows, last, pos)
    ensures RowsOk(snap, deltas, Apply(rows, deltas[pos]), last[deltas[pos].key := pos + 1], pos + 1)
  {
    var d, next := deltas[pos], pos + 1;
    var last' := last[d.key := next];
    SourceNext(snap, deltas, pos);
    forall k ensures RowOk(snap, deltas, Apply(rows, d), last', next, k) {
      assert RowOk(snap, deltas, rows, last, pos, k);
    }
  }

  lemma {:induction false} StoreAll(snap: Rows, deltas: seq<Delta>, rows: Rows, last: map<Key, nat>, pos: nat, count: nat)
    requires pos + count <= |deltas| && RowsOk(snap, deltas, rows, last, pos)
    ensures var ds := deltas[pos..pos + count]; RowsOk(snap, deltas, ApplyAll(rows, ds), Stored(last, ds, pos), pos + count)
    decreases count
  {
    var ds := deltas[pos..pos + count];
    if count > 0 {
      StoreAll(snap, deltas, rows, last, pos, count - 1);
      assert ds[..count - 1] == deltas[pos..pos + count - 1];
      StoreOne(snap, deltas, ApplyAll(rows, ds[..count - 1]), Stored(last, ds[..count - 1], pos), pos + count - 1);
    }
  }

  lemma StoreKeepsInv(s: State, snap: Rows, count: nat)
    requires Inv(s, snap) && s.work.Streaming? && count <= |s.work.changes|
    ensures RowsOk(snap, s.deltas, ApplyAll(s.rows, s.work.changes[..count]), Stored(s.last, s.work.changes[..count], At(s)), At(s) + count)
  {
    assert s.work.changes[..count] == s.deltas[At(s)..At(s) + count];
    StoreAll(snap, s.deltas, s.rows, s.last, At(s), count);
  }

  lemma FlushStreamKeepsInv(s: State, snap: Rows, count: nat)
    requires Inv(s, snap) && s.work.Streaming? && count <= |s.work.changes|
    ensures Inv(Step(s, FlushSome(count)), snap)
  {
    StoreKeepsInv(s, snap, count);
    var t := Step(s, FlushSome(count));
    assert t.work.changes == t.deltas[t.work.page - |t.work.changes|..t.work.page];
    assert At(t) == At(s) + count;
  }

  lemma EndPageKeepsInv(s: State, snap: Rows, committed: bool)
    requires Inv(s, snap) && Enabled(s, EndPage(committed))
    ensures Inv(Step(s, EndPage(committed)), snap)
  {
    StoreKeepsInv(s, snap, |s.work.changes|);
    assert s.work.changes[..|s.work.changes|] == s.work.changes;
  }

  /** A crash goes back to an earlier position; what is stored stays. */
  lemma CrashKeepsInv(s: State, snap: Rows)
    requires Inv(s, snap)
    ensures Inv(Step(s, Crash), snap)
  {
    if s.snapshotDone {
      forall k ensures RowOk(snap, s.deltas, s.rows, s.last, s.resume, k) {
        assert RowOk(snap, s.deltas, s.rows, s.last, At(s), k);
      }
    }
  }

  lemma WriteKeepsInv(s: State, snap: Rows, d: Delta)
    requires Inv(s, snap)
    ensures Inv(Step(s, SourceWrite(d)), snap)
  {
    var t := Step(s, SourceWrite(d));
    if s.snapshotDone {
      forall k ensures RowOk(snap, t.deltas, t.rows, t.last, At(t), k) {
        assert RowOk(snap, s.deltas, s.rows, s.last, At(s), k);
        SourceGrows(snap, s.deltas, d, Last(s.last, k));
        assert forall i :: 0 <= i < |s.deltas| ==> t.deltas[i] == s.deltas[i];
      }
    }
    assert s.work.Streaming? ==> s.work.changes == t.deltas[s.work.page - |s.work.changes|..s.work.page];
  }

  lemma StepKeepsInv(s: State, snap: Rows, a: Action)
    requires Inv(s, snap) && Enabled(s, a)
    ensures Inv(Step(s, a), snap)
  {
    match a
    case SourceWrite(d) => WriteKeepsInv(s, snap, d);
    case Crash => CrashKeepsInv(s, snap);
    case FlushSome(count) => if s.work.Copying? { FlushCopyKeepsInv(s, snap, count); } else { FlushStreamKeepsInv(s, snap, count); }
    case MarkDone => MarkDoneKeepsInv(s, snap);
    case ReadDeltas(count) => assert At(Step(s, a)) == s.cursor;
    case EndPage(committed) => EndPageKeepsInv(s, snap, committed);
    case _ => CopyStepKeepsInv(s, snap, a);
  }

  lemma {:induction false} RunKeepsInv(s: State, snap: Rows, actions: seq<Action>)
    requires Inv(s, snap) && IsRun(s, actions)
    ensures Inv(Final(s, actions), snap)
    decreases |actions|
  {
    if actions != [] {
      StepKeepsInv(s, snap, actions[0]);
      RunKeepsInv(Step(s, actions[0]), snap, actions[1..]);
    }
  }

  // ----- which checkpoints are exact -----

  /** The last delta stored of a key is past a position, and gave it another value than it has there. */
  ghost predicate Ahead(snap: Rows, deltas: seq<Delta>, last: map<Key, nat>, pos: nat, k: Key)
    requires pos <= |deltas|
  {
    pos < Last(last, k) <= |deltas| && !SameAt(SourceAt(snap, deltas, pos), SourceAt(snap, deltas, Last(last, k)), k)
  }

  /** No row is ahead of the page being read, unless the rest of the page rewrites it. */
  ghost predicate NoneAhead(s: State, snap: Rows)
    requires s.work.Streaming? && s.work.page <= |s.deltas|
  {
    forall k :: Ahead(snap, s.deltas, s.last, s.work.page, k) ==> Touched(s.work.changes, 0, |s.work.changes|, k)
  }

  lemma {:induction false} StoredAt(last: map<Key, nat>, ds: seq<Delta>, pos: nat, k: Key)
    ensures Touched(ds, 0, |ds|, k) ==> Last(Stored(last, ds, pos), k) <= pos + |ds|
    ensures !Touched(ds, 0, |ds|, k) ==> Last(Stored(last, ds, pos), k) == Last(last, k)
  {
    if ds != [] {
      var init := ds[..|ds| - 1];
      StoredAt(last, init, pos, k);
      if Touched(init, 0, |init|, k) {
        var i :| 0 <= i < |init| && init[i].key == k;
        assert ds[i].key == k;
      }
      assert !Touched(ds, 0, |ds|, k) ==> ds[|ds| - 1].key != k;
      assert Touched(ds, 0, |ds|, k) && ds[|ds| - 1].key != k ==> Touched(init, 0, |init|, k) by {
        if Touched(ds, 0, |ds|, k) && ds[|ds| - 1].key != k {
          var i :| 0 <= i < |ds| && ds[i].key == k;
          assert init[i].key == k;
        }
      }
    }
  }

  /** Rows are the source's at a position exactly when no row is ahead of it. */
  lemma ExactIffNoneAhead(snap: Rows, deltas: seq<Delta>, rows: Rows, last: map<Key, nat>, pos: nat)
    requires pos <= |deltas| && RowsOk(snap, deltas, rows, last, pos)
    ensures rows == SourceAt(snap, deltas, pos) <==> forall k :: !Ahead(snap, deltas, last, pos, k)
  {
    forall k ensures SameAt(rows, SourceAt(snap, deltas, pos), k) <==> !Ahead(snap, deltas, last, pos, k) {
      assert RowOk(snap, deltas, rows, last, pos, k);
      if Last(last, k) <= pos {
        UntouchedIsSame(snap, deltas, Last(last, k), pos, k);
      }
    }
    if forall k :: !Ahead(snap, deltas, last, pos, k) {
      SameRows(rows, SourceAt(snap, deltas, pos));
    }
  }

  lemma SameRows(a: Rows, b: Rows)
    requires forall k :: SameAt(a, b, k)
    ensures a == b
  {
    assert forall k :: k in a ==> SameAt(a, b, k);
    assert forall k :: k in b ==> SameAt(a, b, k);
  }

  /** In any run: committing a page is exact if and only if no row is left from a longer page read before a
      crash, except with the value it has at this page anyway. */
  lemma CommitIsExactIff(s: State, snap: Rows, actions: seq<Action>)
    requires Initial(s) && IsSnapshot(s.tables, snap) && IsRun(s, actions)
    requires Enabled(Final(s, actions), EndPage(true))
    ensures var f := Final(s, actions);
            f.work.page <= |f.deltas|
            && (Exact(snap, f.deltas, Published(f.work.page, ApplyAll(f.rows, f.work.changes))) <==> NoneAhead(f, snap))
  {
    RunKeepsInv(s, snap, actions);
    PageIsExact(Final(s, actions), snap);
  }

  /** One crash, in terms of the log alone: what was stored up to q and is replayed from r to p is exact at p
      if and only if q is not past p, or every key that only the deltas from p to q touch has one value at both. */
  lemma ReplayIsExactIff(snap: Rows, deltas: seq<Delta>, r: nat, p: nat, q: nat)
    requires r <= p <= |deltas| && r <= q <= |deltas|
    ensures ApplyAll(SourceAt(snap, deltas, q), deltas[r..p]) == SourceAt(snap, deltas, p) <==>
            q <= p || forall k :: Touched(deltas, p, q, k) && !Touched(deltas, r, p, k) ==>
                                    SameAt(SourceAt(snap, deltas, p), SourceAt(snap, deltas, q), k)
  {
    var replayed := ApplyAll(SourceAt(snap, deltas, q), deltas[r..p]);
    forall k
      ensures Touched(deltas, r, p, k) ==> SameAt(replayed, SourceAt(snap, deltas, p), k)
      ensures !Touched(deltas, r, p, k) ==> SameAt(replayed, SourceAt(snap, deltas, q), k)
      ensures q <= p && !Touched(deltas, r, p, k) ==> SameAt(replayed, SourceAt(snap, deltas, p), k)
      ensures p < q && !Touched(deltas, r, p, k) && !Touched(deltas, p, q, k) ==> SameAt(replayed, SourceAt(snap, deltas, p), k)
    {
      ReplayedKey(snap, deltas, SourceAt(snap, deltas, q), r, p, k);
      if q <= p && !Touched(deltas, r, p, k) {
        UntouchedIsSame(snap, deltas, q, p, k);
      } else if p < q && !Touched(deltas, p, q, k) {
        UntouchedIsSame(snap, deltas, p, q, k);
      }
    }
    if forall k :: SameAt(replayed, SourceAt(snap, deltas, p), k) {
      SameRows(replayed, SourceAt(snap, deltas, p));
    }
  }

  lemma {:induction false} ReplayedKey(snap: Rows, deltas: seq<Delta>, rows: Rows, r: nat, p: nat, k: Key)
    requires r <= p <= |deltas|
    ensures SameAt(ApplyAll(rows, deltas[r..p]), if Touched(deltas, r, p, k) then SourceAt(snap, deltas, p) else rows, k)
    decreases p
  {
    if r < p {
      var n := p - 1;
      ReplayedKey(snap, deltas, rows, r, n, k);
      assert deltas[r..p][..n - r] == deltas[r..n];
      SourceNext(snap, deltas, n);
      assert deltas[n].key == k ==> Touched(deltas, r, p, k);
      assert deltas[n].key != k ==> (Touched(deltas, r, p, k) <==> Touched(deltas, r, n, k)) by {
        if deltas[n].key != k && Touched(deltas, r, p, k) {
          var i :| r <= i < p && deltas[i].key == k;
          assert i < n;
        }
      }
    } else {
      assert deltas[r..p] == [];
    }
  }

  // ----- whole runs -----

  /** Every page was committed where no row was ahead of it. */
  ghost predicate CommitsFit(s: State, snap: Rows, actions: seq<Action>)
    requires IsRun(s, actions)
    decreases |actions|
  {
    actions == []
    || ((actions[0] == EndPage(true) && s.work.page <= |s.deltas| ==> NoneAhead(s, snap)) && CommitsFit(Step(s, actions[0]), snap, actions[1..]))
  }

  ghost predicate AllExact(s: State, snap: Rows) {
    forall c :: c in s.published ==> Exact(snap, s.deltas, c)
  }

  lemma StepKeepsExact(s: State, snap: Rows, a: Action)
    requires Inv(s, snap) && Enabled(s, a) && AllExact(s, snap)
    requires a == EndPage(true) && s.work.page <= |s.deltas| ==> NoneAhead(s, snap)
    ensures AllExact(Step(s, a), snap)
  {
    match a
    case SourceWrite(d) =>
      forall c | c in s.published ensures Exact(snap, s.deltas + [d], c) {
        SourceGrows(snap, s.deltas, d, c.index);
      }
    case MarkDone =>
      CopiedIsSnapshot(s, snap);
      assert s.deltas[..0] == [];
    case EndPage(committed) =>
      if committed {
        PageIsExact(s, snap);
      }
    case _ =>
  }

  lemma PageIsExact(s: State, snap: Rows)
    requires Inv(s, snap) && Enabled(s, EndPage(true))
    ensures Exact(snap, s.deltas, Published(s.work.page, ApplyAll(s.rows, s.work.changes))) <==> NoneAhead(s, snap)
  {
    StoreKeepsInv(s, snap, |s.work.changes|);
    assert s.work.changes[..|s.work.changes|] == s.work.changes;
    ExactIffNoneAhead(snap, s.deltas, ApplyAll(s.rows, s.work.changes), Stored(s.last, s.work.changes, At(s)), s.work.page);
    var after := Stored(s.last, s.work.changes, At(s));
    forall k ensures Ahead(snap, s.deltas, after, s.work.page, k) <==>
                       Ahead(snap, s.deltas, s.last, s.work.page, k) && !Touched(s.work.changes, 0, |s.work.changes|, k) {
      StoredAt(s.last, s.work.changes, At(s), k);
    }
  }

  lemma {:induction false} RunKeepsExact(s: State, snap: Rows, actions: seq<Action>)
    requires Inv(s, snap) && IsRun(s, actions) && AllExact(s, snap) && CommitsFit(s, snap, actions)
    ensures AllExact(Final(s, actions), snap)
    decreases |actions|
  {
    if actions != [] {
      StepKeepsExact(s, snap, actions[0]);
      StepKeepsInv(s, snap, actions[0]);
      RunKeepsExact(Step(s, actions[0]), snap, actions[1..]);
    }
  }

  /** Whatever crashes come where: as long as no page is committed while a row is ahead of it, every
      checkpoint is the snapshot with exactly the deltas up to it. In any run at all, the
      stored rows are that again as soon as the polling has passed everything that was stored before. */
  lemma NoRowIsLost(s: State, snap: Rows, actions: seq<Action>)
    requires Initial(s) && IsSnapshot(s.tables, snap) && IsRun(s, actions)
    ensures CommitsFit(s, snap, actions) ==> AllExact(Final(s, actions), snap)
    ensures var f := Final(s, actions);
            f.snapshotDone && f.work.Nothing? && (forall k :: k in f.last ==> f.last[k] <= f.cursor) ==>
              f.cursor <= |f.deltas| && f.rows == SourceAt(snap, f.deltas, f.cursor)
  {
    RunKeepsInv(s, snap, actions);
    var f := Final(s, actions);
    if CommitsFit(s, snap, actions) {
      RunKeepsExact(s, snap, actions);
    }
    if f.snapshotDone && f.work.Nothing? && (forall k :: k in f.last ==> f.last[k] <= f.cursor) {
      ExactIffNoneAhead(snap, f.deltas, f.rows, f.last, f.cursor);
    }
  }

  /** A run that ends with a checkpoint that is not the source: a page is stored whole, the process stops
      before the commit, and the page read from the same place afterwards is shorter. */
  lemma ShorterPageIsInexact() returns (actions: seq<Action>, c: Published)
    ensures var s := Empty();
            Initial(s) && IsSnapshot(s.tables, map[]) && IsRun(s, actions) && c in Final(s, actions).published
            && c.index <= |Final(s, actions).deltas| && c.rows != SourceAt(map[], Final(s, actions).deltas, c.index)
  {
    var a, b := Delta(Key(0, "a"), Some("1")), Delta(Key(0, "b"), Some("2"));
    var s0 := Empty();
    var s1 := s0.(snapshotDone := true, published := [Published(0, map[])]);
    var s2 := s1.(deltas := [a, b]);
    var s3 := s2.(work := Streaming(2, [a, b]));
    var s4 := s2.(rows := map[a.key := "1", b.key := "2"], work := Streaming(2, []), last := map[a.key := 1, b.key := 2]);
    var s5 := s4.(work := Nothing);
    var s6 := s5.(work := Streaming(1, [a]));
    c := Published(1, map[a.key := "1", b.key := "2"]);
    var s7 := s5.(cursor := 1, resume := 1, published := s1.published + [c]);
    TwoDeltas(a, b);
    TwoStored(a, b);
    actions := Then(s6, EndPage(true), s7, []);
    actions := Then(s5, ReadDeltas(1), s6, actions);
    actions := Then(s4, Crash, s5, actions);
    actions := Then(s3, FlushSome(2), s4, actions);
    actions := Then(s2, ReadDeltas(2), s3, actions);
    actions := Then(s1.(deltas := [a]), SourceWrite(b), s2, actions);
    actions := Then(s1, SourceWrite(a), s1.(deltas := [a]), actions);
    actions := Then(s0, MarkDone, s1, actions);
    assert b.key in c.rows && b.key !in SourceAt(map[], [a, b], 1);
  }

  lemma TwoDeltas(a: Delta, b: Delta)
    requires a == Delta(Key(0, "a"), Some("1")) && b == Delta(Key(0, "b"), Some("2"))
    ensures [a] + [b] == [a, b] && [a, b][0..2] == [a, b] && [a, b][..2] == [a, b] && [a, b][2..] == [] && [a, b][0..1] == [a]
    ensures ApplyAll(map[], [a, b]) == map[a.key := "1", b.key := "2"]
    ensures ApplyAll(map[a.key := "1", b.key := "2"], [a]) == map[a.key := "1", b.key := "2"]
    ensures SourceAt(map[], [a, b], 1) == map[a.key := "1"]
  {
    assert [a, b][..1] == [a] && [a][..0] == [];
    assert ApplyAll(map[], [a]) == map[a.key := "1"];
  }

  lemma TwoStored(a: Delta, b: Delta)
    requires a.key != b.key
    ensures Stored(map[], [a, b], 0) == map[a.key := 1, b.key := 2]
    ensures Stored(map[a.key := 1, b.key := 2], [a], 0) == map[a.key := 1, b.key := 2]
  {
    assert [a, b][..1] == [a] && [a][..0] == [];
    assert Stored(map[], [a], 0) == map[a.key := 1];
  }

  function Empty(): State {
    State([], [], map[], [], [], false, 0, [], 0, Nothing, map[])
  }

  lemma Then(s: State, a: Action, t: State, rest: seq<Action>) returns (run: seq<Action>)
    requires Enabled(s, a) && t == Step(s, a) && IsRun(t, rest)
    ensures IsRun(s, run) && Final(s, run) == Final(t, rest)
  {
    run := [a] + rest;
    assert run[0] == a && run[1..] == rest;
  }
}
