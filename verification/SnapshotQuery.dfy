/** The chunked query. */
module SnapshotQuery {
  // A copy of one collection, in the order of document ids.

  import opened Wrappers

  /** A document id, in the order of BSON types: the least key, null, then all values that sort after null. */
  datatype Id = MinKey | Null | Value(n: int)

  predicate Before(a: Id, b: Id) {
    match a
    case MinKey => !b.MinKey?
    case Null => b.Value?
    case Value(n) => b.Value? && n < b.n
  }

  predicate After(id: Id, start: Option<Id>) {
    start.None? || Before(start.value, id)
  }

  /** The next ids of a collection after a start, none left out up to the last of them. */
  ghost predicate IsChunk(rows: set<Id>, start: Option<Id>, docs: seq<Id>) {
    && (forall i :: 0 <= i < |docs| ==> docs[i] in rows && After(docs[i], start))
    && (forall i, j :: 0 <= i < j < |docs| ==> Before(docs[i], docs[j]))
    && (docs != [] ==> forall id :: id in rows && After(id, start) && !Before(docs[|docs| - 1], id) ==> id in docs)
  }

  lemma {:induction false} HasFirst(ids: set<Id>) returns (first: Id)
    requires ids != {}
    ensures first in ids && forall id :: id in ids ==> id == first || Before(first, id)
  {
    var x :| x in ids;
    if ids == {x} {
      return x;
    }
    assert ids - {x} != {};
    first := HasFirst(ids - {x});
    assert forall id :: id in ids ==> id == x || id == first || Before(first, id);
    assert first == x || Before(x, first) || Before(first, x);
    if Before(x, first) {
      first := x;
    }
  }

  /** Where the next id is looked for. */
  function From(start: Option<Id>, docs: seq<Id>): Option<Id> {
    if docs == [] then start else Some(docs[|docs| - 1])
  }

  lemma FindMore(rows: set<Id>, start: Option<Id>, docs: seq<Id>, next: Id)
    requires IsChunk(rows, start, docs) && next in rows && After(next, From(start, docs))
    requires forall id :: id in rows && After(id, From(start, docs)) ==> id == next || Before(next, id)
    ensures IsChunk(rows, start, docs + [next])
  {
    assert forall id :: id in rows && After(id, start) && !Before(next, id) ==> id in docs + [next];
  }

  /** What a find sorted by id returns: the ids after the start, up to a limit. */
  method Find(rows: set<Id>, start: Option<Id>, limit: nat) returns (docs: seq<Id>)
    ensures IsChunk(rows, start, docs) && |docs| <= limit
    ensures limit > 0 && docs == [] ==> forall id :: id in rows ==> !After(id, start)
  {
    docs := [];
    var left := set id | id in rows && After(id, start);
    while left != {} && |docs| < limit
      invariant IsChunk(rows, start, docs) && |docs| <= limit
      invariant left == set id | id in rows && After(id, From(start, docs))
      decreases left
    {
      ghost var first := HasFirst(left);
      var next :| next in left && forall id :: id in left ==> id == next || Before(next, id);
      FindMore(rows, start, docs, next);
      docs := docs + [next];
      left := set id | id in left && id != next;
    }
    assert docs == [] && limit > 0 ==> forall id :: id in rows && After(id, start) ==> id in left;
  }

  /** An open cursor: where it stands, and how many documents its limit still allows. */
  datatype Cursor = Cursor(start: Option<Id>, left: nat)

  // ----- what one chunk is -----

  function KeyStart(lastKey: Id): Option<Id> {
    if lastKey.Null? then None else Some(lastKey)
  }

  predicate IsOpen(cursor: Option<Cursor>) {
    cursor.Some? && cursor.value.left > 0
  }

  ghost predicate Nothing(rows: set<Id>, start: Option<Id>) {
    forall id :: id in rows ==> !After(id, start)
  }

  /** Documents taken from a cursor, and where that leaves it. */
  ghost predicate TakenFrom(rows: set<Id>, cursor: Cursor, docs: seq<Id>, lastKey: Id, after: Option<Cursor>) {
    && docs != [] && IsChunk(rows, cursor.start, docs) && |docs| <= cursor.left
    && lastKey == docs[|docs| - 1] && after == Some(Cursor(Some(lastKey), cursor.left - |docs|))
  }

  /** An open cursor gives what it still has; otherwise a new query after the last id is made, and there is
      nothing left to copy when that finds nothing. */
  ghost predicate ChunkRead(rows: set<Id>, batchSize: nat, lastKey: Id, cursor: Option<Cursor>, docs: seq<Id>, lastKey': Id, cursor': Option<Cursor>) {
    if IsOpen(cursor) && !Nothing(rows, cursor.value.start) then TakenFrom(rows, cursor.value, docs, lastKey', cursor')
    else if Nothing(rows, KeyStart(lastKey)) then docs == [] && lastKey' == lastKey && cursor' == None
    else TakenFrom(rows, Cursor(KeyStart(lastKey), batchSize), docs, lastKey', cursor')
  }

  class ChunkedSnapshotQuery {
    const batchSize: nat
    /** The id of the last document read. A null id is the same as none. */
    var lastKey: Id
    var lastCursor: Option<Cursor>

    ghost predicate Valid()
      reads this
    {
      batchSize > 0 && (lastCursor.Some? ==> lastCursor.value.start == Some(lastKey))
    }

    constructor (batchSize: nat, key: Id)
      requires batchSize > 0
      ensures Valid() && this.batchSize == batchSize && lastKey == key && lastCursor == None
    {
      this.batchSize := batchSize;
      lastKey := key;
      lastCursor := None;
    }

    /** The next documents of the collection as it is now. The server may send fewer than asked for. */
    method NextChunk(rows: set<Id>, served: nat) returns (docs: seq<Id>)
      requires Valid() && served > 0
      modifies this
      ensures Valid() && ChunkRead(rows, batchSize, old(lastKey), old(lastCursor), docs, lastKey, lastCursor)
      decreases lastCursor.Some?
    {
      var cursor := lastCursor;
      var newCursor := false;
      if cursor.None? || cursor.value.left == 0 {
        cursor := Some(Cursor(KeyStart(lastKey), batchSize));
        newCursor := true;
      }
      docs := Find(rows, cursor.value.start, if cursor.value.left < served then cursor.value.left else served);
      if docs == [] {
        lastCursor := None;
        if !newCursor {
          docs := NextChunk(rows, served);
        }
        return;
      }
      assert docs[0] in rows && After(docs[0], cursor.value.start);
      lastKey := docs[|docs| - 1];
      lastCursor := Some(Cursor(Some(lastKey), cursor.value.left - |docs|));
    }
  }

  // ----- a whole copy -----

  /** How many ids there are up to null. */
  function UpToNull(rows: set<Id>): nat {
    |set id | id in rows && !Before(Null, id)|
  }

  lemma UpToNullIs(rows: set<Id>)
    requires Null in rows
    ensures UpToNull(rows) == if MinKey in rows then 2 else 1
  {
    assert (set id | id in rows && !Before(Null, id)) == if MinKey in rows then {MinKey, Null} else {Null};
  }

  ghost predicate NullIsLast(rows: set<Id>) {
    forall id :: id in rows ==> !Before(Null, id)
  }

  /** The one way a copy does not end: null is the last id, or the limit of a query is used up right at it, so
      that a new query is made after it. */
  ghost predicate Repeats(rows: set<Id>, batchSize: nat)
    requires batchSize > 0
  {
    Null in rows && (NullIsLast(rows) || UpToNull(rows) % batchSize == 0)
  }

  /** The chunks of a stable collection so far. */
  ghost predicate Copied(rows: set<Id>, batchSize: nat, copied: seq<Id>, lastKey: Id, cursor: Option<Cursor>)
    requires batchSize > 0
  {
    && IsChunk(rows, None, copied)
    && (if copied == [] then lastKey == Null && cursor == None
        else && cursor.Some? && lastKey == copied[|copied| - 1]
             && (lastKey.MinKey? ==> cursor.value.left == batchSize - 1)
             && (lastKey.Null? ==> IsOpen(cursor) && !Nothing(rows, Some(Null))))
  }

  /** A chunk begins with the least id after its start. */
  lemma ChunkBegins(rows: set<Id>, start: Option<Id>, docs: seq<Id>, first: Id)
    requires IsChunk(rows, start, docs) && docs != [] && first in rows && After(first, start)
    requires forall id :: id in rows && After(id, start) ==> id == first || Before(first, id)
    ensures docs[0] == first
  {
    var last := docs[|docs| - 1];
    assert last in rows && After(last, start);
    assert !Before(last, first);
    var i :| 0 <= i < |docs| && docs[i] == first;
    assert docs[0] in rows && After(docs[0], start);
    assert i > 0 ==> Before(docs[0], docs[i]);
  }

  /** Up to null there is at most the least key before it. */
  lemma NullComesAt(rows: set<Id>, start: Option<Id>, docs: seq<Id>)
    requires Null in rows && IsChunk(rows, start, docs) && docs != []
    requires start == None || (start == Some(MinKey) && MinKey in rows)
    ensures docs[0] == if start == None && MinKey in rows then MinKey else Null
    ensures docs[0] == MinKey && |docs| > 1 ==> docs[1] == Null
  {
    assert After(MinKey, None) && After(Null, start);
    ChunkBegins(rows, start, docs, if start == None && MinKey in rows then MinKey else Null);
    if docs[0] == MinKey && |docs| > 1 {
      var rest := docs[1..];
      assert forall i :: 0 <= i < |rest| ==> rest[i] == docs[i + 1] && Before(docs[0], docs[i + 1]);
      assert forall id :: id in rows && After(id, Some(MinKey)) && !Before(rest[|rest| - 1], id) ==> id in docs && id != docs[0];
      assert forall id :: id in docs && id != docs[0] ==> id in rest;
      ChunkBegins(rows, Some(MinKey), rest, Null);
    }
  }

  /** Copying up to the least key or to null takes exactly the ids up to it. */
  lemma CopiedUpTo(rows: set<Id>, copied: seq<Id>)
    requires IsChunk(rows, None, copied) && copied != []
    ensures copied[|copied| - 1] == MinKey ==> |copied| == 1
    ensures copied[|copied| - 1] == Null ==> |copied| == UpToNull(rows) && Null in rows
    ensures copied[|copied| - 1] == Null && |copied| > 1 ==> copied[0] == MinKey
  {
    var last := copied[|copied| - 1];
    assert |copied| > 1 ==> Before(copied[0], last);
    assert |copied| > 2 ==> Before(copied[1], last);
    if last == Null {
      UpToNullIs(rows);
      NullComesAt(rows, None, copied);
    }
  }

  lemma SmallLimit(batchSize: nat, upTo: nat)
    requires batchSize > 0 && 1 <= upTo <= 2
    ensures upTo % batchSize == 0 <==> batchSize == 1 || batchSize == upTo
  {
  }

  lemma CopiedMore(rows: set<Id>, batchSize: nat, copied: seq<Id>, lastKey: Id, cursor: Option<Cursor>, docs: seq<Id>, lastKey': Id, cursor': Option<Cursor>)
    requires batchSize > 0 && !Repeats(rows, batchSize) && Copied(rows, batchSize, copied, lastKey, cursor)
    requires cursor.Some? ==> cursor.value.start == Some(lastKey)
    requires ChunkRead(rows, batchSize, lastKey, cursor, docs, lastKey', cursor')
    ensures docs != [] ==> Copied(rows, batchSize, copied + docs, lastKey', cursor')
    ensures docs == [] ==> forall id :: id in rows ==> id in copied
  {
    var start := if copied == [] then None else Some(lastKey);
    if docs != [] {
      assert IsOpen(cursor) && !Nothing(rows, cursor.value.start) ==> cursor.value.start == start;
      assert !(IsOpen(cursor) && !Nothing(rows, cursor.value.start)) ==> KeyStart(lastKey) == start;
      assert IsChunk(rows, start, docs);
      ChunksJoin(rows, copied, docs);
      CopiedUpTo(rows, copied + docs);
      if lastKey'.Null? {
        UpToNullIs(rows);
        SmallLimit(batchSize, UpToNull(rows));
        var other :| other in rows && Before(Null, other);
        assert After(other, Some(Null));
      }
    }
  }

  lemma ChunksJoin(rows: set<Id>, copied: seq<Id>, docs: seq<Id>)
    requires IsChunk(rows, None, copied) && IsChunk(rows, if copied == [] then None else Some(copied[|copied| - 1]), docs)
    ensures IsChunk(rows, None, copied + docs)
  {
    if docs != [] {
      forall id | id in rows && !Before(docs[|docs| - 1], id) ensures id in copied + docs {
        if copied != [] && !Before(copied[|copied| - 1], id) {
          assert id in copied;
        } else {
          assert id in docs;
        }
      }
      forall i, j | 0 <= i < j < |copied + docs| ensures Before((copied + docs)[i], (copied + docs)[j]) {
        if i < |copied| <= j {
          assert i < |copied| - 1 ==> Before(copied[i], copied[|copied| - 1]);
          assert Before(copied[|copied| - 1], docs[j - |copied|]);
        }
      }
    }
  }

  lemma {:induction false} NoMoreThan(rows: set<Id>, docs: seq<Id>)
    requires forall i :: 0 <= i < |docs| ==> docs[i] in rows
    requires forall i, j :: 0 <= i < j < |docs| ==> Before(docs[i], docs[j])
    ensures |docs| <= |rows|
  {
    if docs != [] {
      NoMoreThan(rows - {docs[|docs| - 1]}, docs[..|docs| - 1]);
    }
  }

  /** Copying a stable collection ends, and gives every document once, in order. */
  method CopyAll(rows: set<Id>, batchSize: nat, served: nat -> nat) returns (copied: seq<Id>)
    requires batchSize > 0 && !Repeats(rows, batchSize) && forall i: nat :: served(i) > 0
    ensures IsChunk(rows, None, copied) && forall id :: id in rows ==> id in copied
  {
    var query := new ChunkedSnapshotQuery(batchSize, Null);
    copied := [];
    var chunks := 0;
    NoMoreThan(rows, copied);
    while true
      invariant query.Valid() && query.batchSize == batchSize && fresh(query)
      invariant Copied(rows, batchSize, copied, query.lastKey, query.lastCursor) && |copied| <= |rows|
      decreases |rows| - |copied|
    {
      ghost var lastKey, cursor := query.lastKey, query.lastCursor;
      var docs := query.NextChunk(rows, served(chunks));
      CopiedMore(rows, batchSize, copied, lastKey, cursor, docs, query.lastKey, query.lastCursor);
      if docs == [] {
        return;
      }
      copied := copied + docs;
      NoMoreThan(rows, copied);
      chunks := chunks + 1;
    }
  }

  /** The states of a copy that repeats: it stands at the least key, or at null with a new query to come. */
  ghost predicate Repeating(rows: set<Id>, batchSize: nat, lastKey: Id, cursor: Option<Cursor>)
    requires batchSize > 0
  {
    && (cursor.Some? ==> cursor.value.start == Some(lastKey))
    && (lastKey == MinKey ==> MinKey in rows && cursor.Some? && cursor.value.left == batchSize - 1)
    && (lastKey == Null ==> !IsOpen(cursor) || NullIsLast(rows))
    && !lastKey.Value?
  }

  lemma OneOrTwo(rows: set<Id>, start: Option<Id>, docs: seq<Id>)
    requires Null in rows && IsChunk(rows, start, docs) && docs != []
    requires start == None || (start == Some(MinKey) && MinKey in rows)
    requires |docs| <= (if start == None && MinKey in rows then 2 else 1) || NullIsLast(rows)
    ensures docs == [Null] || (start == None && MinKey in rows && (docs == [MinKey] || docs == [MinKey, Null]))
    ensures docs == [Null] && start == None ==> MinKey !in rows
  {
    NullComesAt(rows, start, docs);
    assert forall i :: 0 <= i < |docs| ==> docs[i] in rows;
    assert forall i :: 1 <= i < |docs| ==> Before(docs[i - 1], docs[i]);
  }

  lemma RepeatingStays(rows: set<Id>, batchSize: nat, lastKey: Id, cursor: Option<Cursor>, docs: seq<Id>, lastKey': Id, cursor': Option<Cursor>)
    requires batchSize > 0 && Repeats(rows, batchSize) && Repeating(rows, batchSize, lastKey, cursor)
    requires ChunkRead(rows, batchSize, lastKey, cursor, docs, lastKey', cursor')
    ensures docs != [] && Repeating(rows, batchSize, lastKey', cursor')
  {
    UpToNullIs(rows);
    var start := if lastKey == Null then None else Some(MinKey);
    var limit := if lastKey == MinKey && batchSize > 1 then batchSize - 1 else batchSize;
    assert After(Null, start);
    assert lastKey == Null && IsOpen(cursor) ==> Nothing(rows, cursor.value.start);
    assert TakenFrom(rows, Cursor(start, limit), docs, lastKey', cursor');
    SmallLimit(batchSize, UpToNull(rows));
    OneOrTwo(rows, start, docs);
  }

  /** The chunks of one copy, from its start, of a stable collection. */
  ghost predicate IsCopy(rows: set<Id>, batchSize: nat, keys: seq<Id>, cursors: seq<Option<Cursor>>, chunks: seq<seq<Id>>) {
    && |keys| == |cursors| == |chunks| + 1 && keys[0] == Null && cursors[0] == None
    && forall i :: 0 <= i < |chunks| ==> ChunkRead(rows, batchSize, keys[i], cursors[i], chunks[i], keys[i + 1], cursors[i + 1])
  }

  /** Otherwise it never ends: however many chunks are read, none is the empty one that ends a copy. */
  lemma {:induction false} NullRepeats(rows: set<Id>, batchSize: nat, keys: seq<Id>, cursors: seq<Option<Cursor>>, chunks: seq<seq<Id>>)
    requires batchSize > 0 && Repeats(rows, batchSize) && IsCopy(rows, batchSize, keys, cursors, chunks)
    ensures forall i :: 0 <= i < |chunks| ==> chunks[i] != []
    ensures Repeating(rows, batchSize, keys[|chunks|], cursors[|chunks|])
    decreases |chunks|
  {
    if chunks != [] {
      var n := |chunks| - 1;
      assert keys[..n + 1][n] == keys[n] && cursors[..n + 1][n] == cursors[n];
      NullRepeats(rows, batchSize, keys[..n + 1], cursors[..n + 1], chunks[..n]);
      RepeatingStays(rows, batchSize, keys[n], cursors[n], chunks[n], keys[n + 1], cursors[n + 1]);
      assert forall i :: 0 <= i < n ==> chunks[..n][i] == chunks[i];
    }
  }
}
