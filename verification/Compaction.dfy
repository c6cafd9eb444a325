/** Compaction. */
module Compaction {
  // Superseded operations become MOVEs, and a start without live rows becomes one CLEAR. The history
  // of a bucket is every operation ever added to it.

  import opened Wrappers
  import opened Buckets

  // ----- what a bucket's history and its stored form have in common -----

  ghost predicate Increasing(ops: seq<Op>) {
    forall i, j :: 0 <= i < j < |ops| ==> ops[i].id < ops[j].id
  }

  /** A history: PUTs and REMOVEs by increasing id. */
  ghost predicate IsHistory(history: seq<Op>) {
    Increasing(history) && forall i :: 0 <= i < |history| ==> RowOp(history[i])
  }

  predicate SameRow(a: Op, b: Op) {
    RowOp(a) && RowOp(b) && RowOf(a) == RowOf(b)
  }

  /** Operation i of the history is superseded by a later one of its row, of id at most `limit`. */
  ghost predicate Superseded(history: seq<Op>, i: nat, limit: nat) {
    exists j :: i < j < |history| && SameRow(history[i], history[j]) && history[j].id <= limit
  }

  /** A stored operation is the original, or a MOVE that says what superseded it. */
  ghost predicate Kept(history: seq<Op>, i: nat, op: Op)
    requires i < |history|
  {
    || op == history[i]
    || (op.id == history[i].id && op.checksum == history[i].checksum && op.kind.Move? && op.kind.target.Some?
        && Superseded(history, i, op.kind.target.value))
  }

  /** A CLEAR of the first n operations: it has their checksum, and the rows among them are gone. */
  ghost predicate Cleared(history: seq<Op>, n: nat, op: Op)
    requires 0 < n <= |history|
  {
    && op.kind.Clear? && op.id == history[n - 1].id && op.checksum == ToInt32(Sum(history[..n]))
    && forall i :: 0 <= i < n ==> Gone(history, i, op.kind.target)
  }

  ghost predicate Gone(history: seq<Op>, i: nat, target: Option<nat>)
    requires i < |history|
  {
    history[i].kind.Remove? || (target.Some? && Superseded(history, i, target.value))
  }

  function Offset(n: nat): nat {
    if n == 0 then 0 else 1
  }

  /** The stored bucket, when its first n operations have been cleared. */
  ghost predicate Stores(history: seq<Op>, ops: seq<Op>, n: nat) {
    && n <= |history| && |ops| == |history| - n + Offset(n)
    && (n > 0 ==> Cleared(history, n, ops[0]))
    && forall k :: Offset(n) <= k < |ops| ==> Kept(history, k - Offset(n) + n, ops[k])
  }

  /** How many operations have an id up to c. */
  function Count(ops: seq<Op>, c: nat): (m: nat)
    ensures m <= |ops|
  {
    if ops == [] then 0 else if ops[|ops| - 1].id <= c then |ops| else Count(ops[..|ops| - 1], c)
  }

  lemma {:induction false} CountSplits(ops: seq<Op>, c: nat)
    requires Increasing(ops)
    ensures forall i :: 0 <= i < |ops| ==> (i < Count(ops, c) <==> ops[i].id <= c)
  {
    if ops != [] && ops[|ops| - 1].id > c { CountSplits(ops[..|ops| - 1], c); }
  }

  // ----- the last operation of a row -----

  function Last(ops: seq<Op>, row: RowId): Option<Op> {
    if ops == [] then None
    else
      var op := ops[|ops| - 1];
      if op.kind.Clear? then None
      else if RowOp(op) && RowOf(op) == row then Some(op)
      else Last(ops[..|ops| - 1], row)
  }

  /** The row a bucket ends with. */
  function Final(ops: seq<Op>, row: RowId): Option<Op> {
    var last := Last(ops, row);
    if last.Some? && last.value.kind.Put? then last else None
  }

  lemma {:induction false} RowsAreFinal(ops: seq<Op>, row: RowId)
    ensures row in Reduce(ops).rows <==> Final(ops, row).Some?
    ensures row in Reduce(ops).rows ==> Final(ops, row) == Some(Reduce(ops).rows[row])
  {
    if ops != [] { RowsAreFinal(ops[..|ops| - 1], row); }
  }

  lemma {:induction false} LastIs(ops: seq<Op>, row: RowId, j: nat)
    requires j < |ops| && RowOp(ops[j]) && RowOf(ops[j]) == row
    requires forall k :: j < k < |ops| ==> !ops[k].kind.Clear? && !SameRow(ops[j], ops[k])
    ensures Last(ops, row) == Some(ops[j])
    decreases |ops|
  {
    if j < |ops| - 1 { LastIs(ops[..|ops| - 1], row, j); }
  }

  lemma {:induction false} LastIsNone(ops: seq<Op>, row: RowId)
    requires forall k :: 0 <= k < |ops| ==> !(RowOp(ops[k]) && RowOf(ops[k]) == row)
    ensures Last(ops, row) == None
  {
    if ops != [] { LastIsNone(ops[..|ops| - 1], row); }
  }

  /** The last operation of a row in a history, if it has any. */
  lemma {:induction false} FindLast(history: seq<Op>, row: RowId) returns (found: Option<nat>)
    requires forall i :: 0 <= i < |history| ==> RowOp(history[i])
    ensures found.None? ==> forall k :: 0 <= k < |history| ==> RowOf(history[k]) != row
    ensures found.Some? ==> found.value < |history| && RowOf(history[found.value]) == row
                            && forall k :: found.value < k < |history| ==> RowOf(history[k]) != row
  {
    if history == [] {
      return None;
    }
    var n := |history| - 1;
    if RowOf(history[n]) == row {
      return Some(n);
    }
    found := FindLast(history[..n], row);
  }

  ghost predicate CanonicalOps(ops: seq<Op>) {
    forall i :: 0 <= i < |ops| && ops[i].kind.Clear? ==> ToInt32(ops[i].checksum) == ops[i].checksum
  }

  lemma {:induction false} OtherIsCanonical(ops: seq<Op>)
    requires CanonicalOps(ops)
    ensures ToInt32(Reduce(ops).other) == Reduce(ops).other
  {
    if ops != [] {
      var op := ops[|ops| - 1];
      var s := Reduce(ops[..|ops| - 1]);
      OtherIsCanonical(ops[..|ops| - 1]);
      if RowOp(op) {
        var d := Discard(s, RowOf(op));
        if RowOf(op) in s.rows { ToInt32Keeps(s.other + s.rows[RowOf(op)].checksum, 0); }
        ToInt32Keeps(d.other + op.checksum, 0);
      } else {
        ToInt32Keeps(s.other + op.checksum, 0);
      }
    }
  }

  /** Two buckets with the same final rows and the same checksum reduce alike. */
  lemma SameReduction(x: seq<Op>, y: seq<Op>)
    requires CanonicalOps(x) && CanonicalOps(y) && Same(SinceClear(x), SinceClear(y))
    requires forall row :: Final(x, row) == Final(y, row)
    ensures Reduce(x) == Reduce(y)
  {
    forall row ensures row in Reduce(x).rows <==> row in Reduce(y).rows
      ensures row in Reduce(x).rows ==> Reduce(x).rows[row] == Reduce(y).rows[row]
    {
      RowsAreFinal(x, row);
      RowsAreFinal(y, row);
    }
    assert Reduce(x).rows == Reduce(y).rows;
    ChecksumIsKept(x);
    ChecksumIsKept(y);
    OtherIsCanonical(x);
    OtherIsCanonical(y);
    var rows := SumRows(Reduce(x).rows);
    SameAdd(Reduce(x).other + rows, Reduce(y).other + rows, -rows);
  }

  // ----- what a client gets -----

  /** A client at position m of the history that goes on with the stored bucket. */
  function Continued(history: seq<Op>, ops: seq<Op>, n: nat, m: nat): seq<Op>
    requires m <= |history| && n <= |history| && |ops| == |history| - n + Offset(n)
  {
    if m < n then ops else history[..m] + ops[m - n + Offset(n)..]
  }

  lemma OnlyFirstClears(history: seq<Op>, ops: seq<Op>, n: nat)
    requires IsHistory(history) && Stores(history, ops, n)
    ensures forall k :: Offset(n) <= k < |ops| ==> !ops[k].kind.Clear?
  {
    forall k | Offset(n) <= k < |ops| ensures !ops[k].kind.Clear? {
      assert Kept(history, k - Offset(n) + n, ops[k]);
    }
  }

  /** Past a prefix that is unchanged, or from which no row survives, only superseded operations differ. */
  lemma KeptFinal(history: seq<Op>, x: seq<Op>, start: nat, shift: nat, row: RowId)
    requires IsHistory(history) && |x| + shift == |history| && start <= |x|
    requires forall k :: start <= k < |x| ==> Kept(history, k + shift, x[k])
    requires forall k :: 0 <= k < start ==> !RowOp(x[k])
    requires forall i :: 0 <= i < start + shift ==> history[i].kind.Remove? || Superseded(history, i, history[|history| - 1].id)
    ensures Final(x, row) == Final(history, row)
  {
    var found := FindLast(history, row);
    if found.None? {
      LastIsNone(history, row);
      LastIsNone(x, row);
    } else {
      var j := found.value;
      LastIs(history, row, j);
      if start + shift <= j {
        assert x[j - shift] == history[j];
        LastIs(x, row, j - shift);
      } else {
        LastIsNone(x, row);
      }
    }
  }

  lemma ContinuedFinal(history: seq<Op>, ops: seq<Op>, n: nat, m: nat, row: RowId)
    requires IsHistory(history) && Stores(history, ops, n) && m <= |history|
    ensures Final(Continued(history, ops, n, m), row) == Final(history, row)
  {
    var x := Continued(history, ops, n, m);
    if m < n {
      forall i | 0 <= i < n ensures history[i].kind.Remove? || Superseded(history, i, history[|history| - 1].id) {
        GoneIsSuperseded(history, i, ops[0].kind.target);
      }
      KeptFinal(history, x, 1, n - 1, row);
    } else {
      forall k | 0 <= k < |x| ensures Kept(history, k, x[k]) {
        if k >= m {
          assert Kept(history, k, ops[k - n + Offset(n)]);
        }
      }
      KeptFinal(history, x, 0, 0, row);
    }
  }

  lemma GoneIsSuperseded(history: seq<Op>, i: nat, target: Option<nat>)
    requires IsHistory(history) && i < |history| && Gone(history, i, target)
    ensures history[i].kind.Remove? || Superseded(history, i, history[|history| - 1].id)
  {
    if !history[i].kind.Remove? {
      var j :| i < j < |history| && SameRow(history[i], history[j]) && history[j].id <= target.value;
      assert history[j].id <= history[|history| - 1].id;
    }
  }

  lemma {:induction false} KeptSum(history: seq<Op>, ops: seq<Op>)
    requires |history| == |ops| && forall k :: 0 <= k < |ops| ==> ops[k].checksum == history[k].checksum
    ensures Sum(ops) == Sum(history)
  {
    if ops != [] { KeptSum(history[..|ops| - 1], ops[..|ops| - 1]); }
  }

  lemma {:induction false} NoClearSum(ops: seq<Op>)
    requires forall k :: 0 < k < |ops| ==> !ops[k].kind.Clear?
    ensures SinceClear(ops) == Sum(ops)
  {
    if ops != [] { NoClearSum(ops[..|ops| - 1]); }
  }

  lemma SplitSum(ops: seq<Op>, k: nat)
    requires k <= |ops|
    ensures Sum(ops) == Sum(ops[..k]) + Sum(ops[k..])
  {
    SumConcat(ops[..k], ops[k..]);
    assert ops[..k] + ops[k..] == ops;
  }

  lemma MiddleSum(history: seq<Op>, ops: seq<Op>, n: nat, k: nat)
    requires IsHistory(history) && Stores(history, ops, n) && Offset(n) <= k <= |ops|
    ensures Sum(ops[Offset(n)..k]) == Sum(history[n..n + k - Offset(n)])
  {
    var h, t := history[n..n + k - Offset(n)], ops[Offset(n)..k];
    forall i | 0 <= i < |t| ensures t[i].checksum == h[i].checksum {
      assert Kept(history, i + n, ops[i + Offset(n)]);
    }
    KeptSum(h, t);
  }

  /** The checksum of the first k stored operations is that of the history they stand for. */
  lemma StartSum(history: seq<Op>, ops: seq<Op>, n: nat, k: nat)
    requires IsHistory(history) && Stores(history, ops, n) && Offset(n) <= k <= |ops|
    ensures Same(Sum(ops[..k]), Sum(history[..n + k - Offset(n)]))
  {
    var m := n + k - Offset(n);
    MiddleSum(history, ops, n, k);
    SplitSum(history[..m], n);
    SplitSum(ops[..k], Offset(n));
    assert history[..m][..n] == history[..n] && history[..m][n..] == history[n..m];
    assert ops[..k][..Offset(n)] == ops[..Offset(n)] && ops[..k][Offset(n)..] == ops[Offset(n)..k];
    FirstSum(history, ops, n);
    SameAdd(Sum(ops[..Offset(n)]), Sum(history[..n]), Sum(history[n..m]));
  }

  lemma FirstSum(history: seq<Op>, ops: seq<Op>, n: nat)
    requires Stores(history, ops, n)
    ensures Same(Sum(ops[..Offset(n)]), Sum(history[..n]))
  {
    if n > 0 {
      SumOne(ops[0]);
      assert ops[..1] == [ops[0]];
      ToInt32Keeps(Sum(history[..n]), 0);
    } else {
      assert history[..0] == ops[..0];
    }
  }

  lemma StoredSum(history: seq<Op>, ops: seq<Op>, n: nat)
    requires IsHistory(history) && Stores(history, ops, n)
    ensures Same(Sum(ops), Sum(history))
  {
    StartSum(history, ops, n, |ops|);
    assert ops[..|ops|] == ops && history[..|history|] == history;
  }

  lemma SumOne(op: Op)
    ensures Sum([op]) == op.checksum
  {
    assert [op][..0] == [];
  }

  lemma ContinuedSum(history: seq<Op>, ops: seq<Op>, n: nat, m: nat)
    requires IsHistory(history) && Stores(history, ops, n) && m <= |history|
    ensures Same(SinceClear(Continued(history, ops, n, m)), Sum(history))
  {
    var x := Continued(history, ops, n, m);
    OnlyFirstClears(history, ops, n);
    if m < n {
      NoClearSum(ops);
      StoredSum(history, ops, n);
    } else {
      forall k | 0 <= k < |x| ensures x[k].checksum == history[k].checksum && !x[k].kind.Clear? {
        if k >= m {
          assert x[k] == ops[k - n + Offset(n)] && Kept(history, k, ops[k - n + Offset(n)]);
        }
      }
      NoClearSum(x);
      KeptSum(history, x);
    }
  }

  lemma ContinuedReduces(history: seq<Op>, ops: seq<Op>, n: nat, m: nat)
    requires IsHistory(history) && Stores(history, ops, n) && m <= |history|
    ensures Reduce(Continued(history, ops, n, m)) == Reduce(history)
  {
    var x := Continued(history, ops, n, m);
    forall row ensures Final(x, row) == Final(history, row) {
      ContinuedFinal(history, ops, n, m, row);
    }
    ContinuedSum(history, ops, n, m);
    NoClearSum(history);
    OnlyFirstClears(history, ops, n);
    ContinuedCanonical(history, ops, n, m);
    SameReduction(x, history);
  }

  lemma ContinuedCanonical(history: seq<Op>, ops: seq<Op>, n: nat, m: nat)
    requires IsHistory(history) && Stores(history, ops, n) && m <= |history|
    ensures CanonicalOps(Continued(history, ops, n, m))
  {
    var x := Continued(history, ops, n, m);
    ToInt32Keeps(Sum(history[..n]), 0);
    assert CanonicalOps(ops);
    assert m >= n ==> forall k :: m <= k < |x| ==> x[k] == ops[k - n + Offset(n)];
  }

  /** The stored bucket reduces to the same as everything ever added to it. */
  lemma StoredReducesToHistory(history: seq<Op>, ops: seq<Op>, n: nat)
    requires IsHistory(history) && Stores(history, ops, n)
    ensures Reduce(ops) == Reduce(history)
  {
    ContinuedReduces(history, ops, n, 0);
    assert Continued(history, ops, n, 0) == ops;
  }

  lemma StoredIsIncreasing(history: seq<Op>, ops: seq<Op>, n: nat)
    requires IsHistory(history) && Stores(history, ops, n)
    ensures Increasing(ops)
  {
    forall k | 0 <= k < |ops| ensures n - Offset(n) + k < |history| && ops[k].id == history[n - Offset(n) + k].id {
      if k >= Offset(n) {
        assert Kept(history, k - Offset(n) + n, ops[k]);
      }
    }
  }

  /** Whatever checkpoint c a client holds, continuing with what is stored after c gives it the whole
      bucket: r(r(H[..c]) with B'[c+1..]) = r(H). */
  lemma EveryClientConverges(history: seq<Op>, ops: seq<Op>, n: nat, c: nat)
    requires IsHistory(history) && Stores(history, ops, n)
    ensures ReduceFrom(Reduce(history[..Count(history, c)]), ops[Count(ops, c)..]) == Reduce(history)
  {
    var m, k := Count(history, c), Count(ops, c);
    CountSplits(history, c);
    StoredIsIncreasing(history, ops, n);
    CountSplits(ops, c);
    ContinuedReduces(history, ops, n, m);
    if m < n {
      CountIsZero(history, ops, n, c);
      StartsWithClear(history, ops, n, m);
    } else {
      CountMatches(history, ops, n, c);
      ReduceConcat(Empty, history[..m], ops[k..]);
    }
  }

  /** A client behind what was cleared begins again with the CLEAR. */
  lemma StartsWithClear(history: seq<Op>, ops: seq<Op>, n: nat, m: nat)
    requires Stores(history, ops, n) && m < n
    ensures ReduceFrom(Reduce(history[..m]), ops[0..]) == Reduce(Continued(history, ops, n, m))
  {
    ReduceFromClear(Reduce(history[..m]), ops);
    assert ops[0..] == ops;
  }

  lemma CountIsZero(history: seq<Op>, ops: seq<Op>, n: nat, c: nat)
    requires IsHistory(history) && Stores(history, ops, n) && Increasing(ops) && Count(history, c) < n
    ensures Count(ops, c) == 0
  {
    CountSplits(history, c);
    CountSplits(ops, c);
    assert ops[0].id == history[n - 1].id > c;
  }

  lemma CountMatches(history: seq<Op>, ops: seq<Op>, n: nat, c: nat)
    requires IsHistory(history) && Stores(history, ops, n) && Increasing(ops) && n <= Count(history, c)
    ensures Count(ops, c) == Count(history, c) - n + Offset(n)
  {
    var m := Count(history, c);
    CountSplits(history, c);
    CountSplits(ops, c);
    var k := m - n + Offset(n);
    if k < |ops| {
      assert Kept(history, k - Offset(n) + n, ops[k]);
      assert ops[k].id == history[m].id > c;
    }
    if k > Offset(n) {
      assert Kept(history, k - 1 - Offset(n) + n, ops[k - 1]);
    }
    if k > 0 {
      assert ops[k - 1].id == history[m - 1].id <= c;
    }
  }

  /** A CLEAR at the start makes what was there before it irrelevant. */
  lemma {:induction false} ReduceFromClear(s: State, ops: seq<Op>)
    requires |ops| > 0 && ops[0].kind.Clear?
    ensures ReduceFrom(s, ops) == Reduce(ops)
  {
    if |ops| == 1 {
      assert ops[..0] == [];
    } else {
      ReduceFromClear(s, ops[..|ops| - 1]);
    }
  }

  /** A checkpoint at c is still good for download when the start of the bucket was not cleared past it
      and no stored operation up to c refers to one after it. */
  lemma CheckpointIsGoodWhenNoTargetIsPast(history: seq<Op>, ops: seq<Op>, n: nat, c: nat)
    requires IsHistory(history) && Stores(history, ops, n)
    requires n > 0 ==> ops[0].id <= c
    requires forall k :: 0 <= k < |ops| && ops[k].id <= c && !RowOp(ops[k]) && ops[k].kind.target.Some? ==> ops[k].kind.target.value <= c
    ensures Reduce(ops[..Count(ops, c)]) == Reduce(history[..Count(history, c)])
  {
    var m, k := Count(history, c), Count(ops, c);
    CountSplits(history, c);
    StoredIsIncreasing(history, ops, n);
    CountSplits(ops, c);
    assert n <= m;
    CountMatches(history, ops, n, c);
    StoresUpTo(history, ops, n, c, m, k);
    StoredReducesToHistory(history[..m], ops[..k], n);
  }

  lemma SupersededUpTo(history: seq<Op>, i: nat, target: nat, c: nat, m: nat)
    requires IsHistory(history) && i < m <= |history| && target <= c && Superseded(history, i, target)
    requires forall k :: 0 <= k < |history| ==> (k < m <==> history[k].id <= c)
    ensures Superseded(history[..m], i, target)
  {
    var j :| i < j < |history| && SameRow(history[i], history[j]) && history[j].id <= target;
    assert j < m && history[..m][j] == history[j];
  }

  lemma StoresUpTo(history: seq<Op>, ops: seq<Op>, n: nat, c: nat, m: nat, k: nat)
    requires IsHistory(history) && Stores(history, ops, n) && n <= m <= |history| && k == m - n + Offset(n)
    requires forall i :: 0 <= i < |history| ==> (i < m <==> history[i].id <= c)
    requires forall i :: 0 <= i < k ==> ops[i].id <= c
    requires forall i :: 0 <= i < |ops| && ops[i].id <= c && !RowOp(ops[i]) && ops[i].kind.target.Some? ==> ops[i].kind.target.value <= c
    ensures Stores(history[..m], ops[..k], n)
  {
    var past := history[..m];
    if n > 0 {
      assert past[..n] == history[..n];
      forall i | 0 <= i < n ensures Gone(past, i, ops[0].kind.target) {
        assert Gone(history, i, ops[0].kind.target);
        if !history[i].kind.Remove? {
          SupersededUpTo(history, i, ops[0].kind.target.value, c, m);
        }
      }
    }
    forall i | Offset(n) <= i < k ensures Kept(past, i - Offset(n) + n, ops[..k][i]) {
      assert Kept(history, i - Offset(n) + n, ops[i]);
      if ops[i] != history[i - Offset(n) + n] {
        SupersededUpTo(history, i - Offset(n) + n, ops[i].kind.target.value, c, m);
      }
    }
  }

  // ----- appending -----

  lemma AppendKeepsStored(history: seq<Op>, ops: seq<Op>, n: nat, op: Op)
    requires IsHistory(history) && Stores(history, ops, n) && IsHistory(history + [op])
    ensures Stores(history + [op], ops + [op], n)
  {
    var more := history + [op];
    if n > 0 {
      assert more[..n] == history[..n];
      forall i | 0 <= i < n ensures Gone(more, i, ops[0].kind.target) {
        assert Gone(history, i, ops[0].kind.target);
        if !history[i].kind.Remove? {
          SupersededStill(history, more, i, ops[0].kind.target.value);
        }
      }
    }
    forall k | Offset(n) <= k < |ops| ensures Kept(more, k - Offset(n) + n, ops[k]) {
      assert Kept(history, k - Offset(n) + n, ops[k]);
      if ops[k] != history[k - Offset(n) + n] {
        SupersededStill(history, more, k - Offset(n) + n, ops[k].kind.target.value);
      }
    }
  }

  lemma SupersededStill(history: seq<Op>, more: seq<Op>, i: nat, limit: nat)
    requires history <= more && Superseded(history, i, limit)
    ensures Superseded(more, i, limit)
  {
    var j :| i < j < |history| && SameRow(history[i], history[j]) && history[j].id <= limit;
    assert more[j] == history[j] && more[i] == history[i];
  }
}
