/** Buckets and clients. */
module Buckets {
  import opened Wrappers

  type RowId = string

  datatype Kind =
    | Put(row: RowId, data: string)
    | Remove(row: RowId)
    | Move(target: Option<nat>)
    | Clear(target: Option<nat>)

  datatype Op = Op(id: nat, kind: Kind, checksum: int)

  const Wrap := 0x1_0000_0000

  /** The signed 32-bit value of a sum, as bit operations leave it. */
  function ToInt32(n: int): int {
    var u := n % Wrap;
    if u < 0x8000_0000 then u else u - Wrap
  }

  function AddChecksums(a: int, b: int): int {
    ToInt32(a + b)
  }

  predicate Same(a: int, b: int) {
    ToInt32(a) == ToInt32(b)
  }

  lemma ToInt32Keeps(a: int, b: int)
    ensures Same(ToInt32(a) + b, a + b) && Same(a + ToInt32(b), a + b) && ToInt32(ToInt32(a)) == ToInt32(a)
  {
    WrapKeeps(a, b);
    WrapKeeps(b, a);
    WrapKeeps(a, 0);
  }

  lemma WrapKeeps(a: int, b: int)
    ensures (ToInt32(a) + b) % Wrap == (a + b) % Wrap
  {
    var q := (a - ToInt32(a)) / Wrap;
    assert a == ToInt32(a) + q * Wrap by {
      assert a == a / Wrap * Wrap + a % Wrap;
    }
    AddMultiple(ToInt32(a) + b, q);
  }

  lemma AddMultiple(n: int, q: int)
    ensures (n + q * Wrap) % Wrap == n % Wrap
  {
    var m := n % Wrap;
    var d := n / Wrap;
    assert n + q * Wrap == (d + q) * Wrap + m;
  }

  // ----- reducing -----

  /** The last PUT of each row, and the checksum of everything discarded. */
  datatype State = State(rows: map<RowId, Op>, other: int)

  const Empty := State(map[], 0)

  function Discard(s: State, row: RowId): State {
    if row in s.rows then State(s.rows - {row}, AddChecksums(s.other, s.rows[row].checksum)) else s
  }

  function Step(s: State, op: Op): State {
    match op.kind
    case Put(row, _) => var d := Discard(s, row); State(d.rows[row := op], d.other)
    case Remove(row) => var d := Discard(s, row); State(d.rows, AddChecksums(d.other, op.checksum))
    case Clear(_) => State(map[], op.checksum)
    case Move(_) => State(s.rows, AddChecksums(s.other, op.checksum))
  }

  function ReduceFrom(s: State, ops: seq<Op>): State {
    if ops == [] then s else Step(ReduceFrom(s, ops[..|ops| - 1]), ops[|ops| - 1])
  }

  function Reduce(ops: seq<Op>): State {
    ReduceFrom(Empty, ops)
  }

  lemma {:induction false} ReduceConcat(s: State, a: seq<Op>, b: seq<Op>)
    ensures ReduceFrom(s, a + b) == ReduceFrom(ReduceFrom(s, a), b)
    decreases |b|
  {
    if b == [] {
      assert a + b == a;
    } else {
      var n := |b| - 1;
      ReduceConcat(s, a, b[..n]);
      assert (a + b)[..|a + b| - 1] == a + b[..n];
    }
  }

  // ----- the reduced bucket as operations -----

  predicate RowOp(op: Op) {
    op.kind.Put? || op.kind.Remove?
  }

  function RowOf(op: Op): RowId {
    if RowOp(op) then op.kind.row else ""
  }

  ghost predicate RowsOk(s: State) {
    forall row :: row in s.rows ==> s.rows[row].kind.Put? && RowOf(s.rows[row]) == row
  }

  ghost predicate AllPuts(puts: seq<Op>) {
    forall op :: op in puts ==> op.kind.Put?
  }

  ghost predicate DistinctRows(puts: seq<Op>) {
    forall i, j :: 0 <= i < j < |puts| ==> RowOf(puts[i]) != RowOf(puts[j])
  }

  ghost predicate SortedById(puts: seq<Op>) {
    forall i, j :: 0 <= i < j < |puts| ==> puts[i].id <= puts[j].id
  }

  ghost predicate Holds(puts: seq<Op>, rows: map<RowId, Op>) {
    forall op :: op in puts <==> op.kind.Put? && RowOf(op) in rows && rows[RowOf(op)] == op
  }

  /** One PUT for each row, by increasing operation id. */
  ghost predicate Lists(puts: seq<Op>, rows: map<RowId, Op>) {
    AllPuts(puts) && Holds(puts, rows) && DistinctRows(puts) && SortedById(puts)
  }

  ghost predicate IsReduced(final: seq<Op>, s: State) {
    |final| > 0 && final[0] == Op(0, Clear(None), s.other) && Lists(final[1..], s.rows)
  }

  /** Put an operation in its place by id. */
  function InsertSorted(puts: seq<Op>, op: Op): (r: seq<Op>)
    ensures forall x :: x in r <==> x in puts || x == op
  {
    if puts == [] || op.id <= puts[0].id then [op] + puts
    else
      var rest := InsertSorted(puts[1..], op);
      assert puts == [puts[0]] + puts[1..];
      [puts[0]] + rest
  }

  lemma {:induction false} InsertKeepsOrder(puts: seq<Op>, op: Op)
    requires SortedById(puts) && DistinctRows(puts) && forall x :: x in puts ==> RowOf(x) != RowOf(op)
    ensures SortedById(InsertSorted(puts, op)) && DistinctRows(InsertSorted(puts, op))
  {
    if puts != [] && op.id > puts[0].id {
      var tail := puts[1..];
      assert forall x :: x in tail ==> x in puts;
      InsertKeepsOrder(tail, op);
      var rest := InsertSorted(tail, op);
      forall j | 0 <= j < |rest| ensures puts[0].id <= rest[j].id && RowOf(rest[j]) != RowOf(puts[0]) {
        assert rest[j] in rest;
        if rest[j] in tail {
          var k :| 0 <= k < |tail| && tail[k] == rest[j];
          assert puts[k + 1] == rest[j];
        } else {
          assert puts[0] in puts;
        }
      }
    }
  }

  /** The client's reduction: a map of rows, a remainder, and a sort. */
  method ReduceBucket(operations: seq<Op>) returns (final: seq<Op>)
    ensures IsReduced(final, Reduce(operations))
  {
    var rowState: map<RowId, Op> := map[];
    var otherChecksum := 0;
    for i := 0 to |operations|
      invariant Reduce(operations[..i]) == State(rowState, otherChecksum)
      invariant RowsOk(State(rowState, otherChecksum))
    {
      assert operations[..i + 1][..i] == operations[..i];
      var op := operations[i];
      match op.kind {
        case Put(row, _) =>
          if row in rowState {
            otherChecksum := AddChecksums(otherChecksum, rowState[row].checksum);
          }
          rowState := rowState[row := op];
        case Remove(row) =>
          if row in rowState {
            otherChecksum := AddChecksums(otherChecksum, rowState[row].checksum);
          }
          rowState := rowState - {row};
          otherChecksum := AddChecksums(otherChecksum, op.checksum);
        case Clear(_) =>
          rowState := map[];
          otherChecksum := op.checksum;
        case Move(_) =>
          otherChecksum := AddChecksums(otherChecksum, op.checksum);
      }
    }
    assert operations[..|operations|] == operations;
    var puts := SortById(rowState);
    final := [Op(0, Clear(None), otherChecksum)] + puts;
    assert final[1..] == puts;
  }

  method SortById(rows: map<RowId, Op>) returns (puts: seq<Op>)
    requires RowsOk(State(rows, 0))
    ensures Lists(puts, rows)
  {
    puts := [];
    ghost var done: map<RowId, Op> := map[];
    var left := rows;
    while left != map[]
      invariant forall row :: row in rows <==> row in done || row in left
      invariant forall row :: row in done ==> row !in left && done[row] == rows[row]
      invariant forall row :: row in left ==> left[row] == rows[row]
      invariant Lists(puts, done)
      decreases |left|
    {
      var row :| row in left;
      var op := left[row];
      InsertKeepsOrder(puts, op);
      puts := InsertSorted(puts, op);
      done := done[row := op];
      left := left - {row};
    }
    assert done == rows;
  }

  lemma {:induction false} ReduceKeepsRowsOk(s: State, ops: seq<Op>)
    requires RowsOk(s)
    ensures RowsOk(ReduceFrom(s, ops))
  {
    if ops != [] { ReduceKeepsRowsOk(s, ops[..|ops| - 1]); }
  }

  /** Reducing PUTs of distinct rows only adds them. */
  lemma {:induction false} ReduceDistinct(puts: seq<Op>, other: int)
    requires AllPuts(puts) && DistinctRows(puts)
    ensures var s := ReduceFrom(State(map[], other), puts); s.other == other && RowsOk(s) && Holds(puts, s.rows)
  {
    if puts != [] {
      var init, op := puts[..|puts| - 1], puts[|puts| - 1];
      InitIsDistinct(puts);
      ReduceDistinct(init, other);
      var s := ReduceFrom(State(map[], other), init);
      NewRow(s, init, op);
      AddPut(s, init, op);
    }
  }

  lemma InitIsDistinct(puts: seq<Op>)
    requires puts != [] && AllPuts(puts) && DistinctRows(puts)
    ensures var init, op := puts[..|puts| - 1], puts[|puts| - 1];
            puts == init + [op] && op.kind.Put? && AllPuts(init) && DistinctRows(init) && forall x :: x in init ==> RowOf(x) != RowOf(op)
  {
  }

  lemma NewRow(s: State, puts: seq<Op>, op: Op)
    requires RowsOk(s) && Holds(puts, s.rows) && forall x :: x in puts ==> RowOf(x) != RowOf(op)
    ensures RowOf(op) !in s.rows
  {
    assert forall row :: row in s.rows ==> s.rows[row] in puts && RowOf(s.rows[row]) == row;
  }

  lemma AddPut(s: State, puts: seq<Op>, op: Op)
    requires RowsOk(s) && Holds(puts, s.rows) && op.kind.Put? && RowOf(op) !in s.rows
    ensures var t := Step(s, op); t.other == s.other && RowsOk(t) && Holds(puts + [op], t.rows)
  {
    var t := Step(s, op);
    assert t.rows == s.rows[RowOf(op) := op];
    assert forall x :: x in puts + [op] <==> x in puts || x == op;
  }

  lemma HoldsOnce(puts: seq<Op>, rows: map<RowId, Op>, rows': map<RowId, Op>)
    requires Holds(puts, rows) && Holds(puts, rows') && RowsOk(State(rows, 0)) && RowsOk(State(rows', 0))
    ensures rows == rows'
  {
    assert forall row :: row in rows ==> rows[row] in puts;
    assert forall row :: row in rows' ==> rows'[row] in puts;
  }

  /** Reducing a reduced bucket gives it back. */
  lemma ReducedIsFixed(final: seq<Op>, s: State)
    requires IsReduced(final, s) && RowsOk(s)
    ensures Reduce(final) == s
  {
    var puts := final[1..];
    ReduceConcat(Empty, [final[0]], puts);
    assert final == [final[0]] + puts;
    assert ReduceFrom(Empty, [final[0]]) == State(map[], s.other) by {
      assert [final[0]][..0] == [];
    }
    ReduceDistinct(puts, s.other);
    HoldsOnce(puts, s.rows, ReduceFrom(State(map[], s.other), puts).rows);
  }

  /** A client may reduce what it has at any point and go on. */
  lemma ReduceComposes(a: seq<Op>, final: seq<Op>, b: seq<Op>)
    requires IsReduced(final, Reduce(a))
    ensures Reduce(final + b) == Reduce(a + b)
  {
    ReduceKeepsRowsOk(Empty, a);
    ReducedIsFixed(final, Reduce(a));
    ReduceConcat(Empty, final, b);
    ReduceConcat(Empty, a, b);
  }

  // ----- checksums -----

  function Sum(ops: seq<Op>): int {
    if ops == [] then 0 else Sum(ops[..|ops| - 1]) + ops[|ops| - 1].checksum
  }

  lemma {:induction false} SumConcat(a: seq<Op>, b: seq<Op>)
    ensures Sum(a + b) == Sum(a) + Sum(b)
    decreases |b|
  {
    if b == [] {
      assert a + b == a;
    } else {
      var n := |b| - 1;
      SumConcat(a, b[..n]);
      assert (a + b)[..|a + b| - 1] == a + b[..n];
    }
  }

  ghost function SumRows(rows: map<RowId, Op>): int {
    if rows == map[] then 0
    else
      var row :| row in rows;
      rows[row].checksum + SumRows(rows - {row})
  }

  /** The sum does not depend on the order the rows are taken in. */
  lemma {:induction false} SumRowsTake(rows: map<RowId, Op>, row: RowId)
    requires row in rows
    ensures SumRows(rows) == rows[row].checksum + SumRows(rows - {row})
    decreases |rows|
  {
    var first :| first in rows && SumRows(rows) == rows[first].checksum + SumRows(rows - {first});
    if first != row {
      SumRowsTake(rows - {first}, row);
      SumRowsTake(rows - {row}, first);
      assert rows - {first} - {row} == rows - {row} - {first};
    }
  }

  lemma SumRowsPut(rows: map<RowId, Op>, row: RowId, op: Op)
    requires row !in rows
    ensures SumRows(rows[row := op]) == SumRows(rows) + op.checksum
  {
    SumRowsTake(rows[row := op], row);
    assert rows[row := op] - {row} == rows;
  }

  /** The checksums of the operations from the last CLEAR on. */
  function SinceClear(ops: seq<Op>): int {
    if ops == [] then 0
    else
      var op := ops[|ops| - 1];
      if op.kind.Clear? then op.checksum else SinceClear(ops[..|ops| - 1]) + op.checksum
  }

  lemma DiscardKeepsSum(s: State, row: RowId)
    ensures var d := Discard(s, row); row !in d.rows && Same(d.other + SumRows(d.rows), s.other + SumRows(s.rows))
  {
    if row in s.rows {
      SumRowsTake(s.rows, row);
      ToInt32Keeps(s.other + s.rows[row].checksum, SumRows(s.rows - {row}));
    }
  }

  lemma SameAdd(a: int, b: int, c: int)
    requires Same(a, b)
    ensures Same(a + c, b + c)
  {
    ToInt32Keeps(a, c);
    ToInt32Keeps(b, c);
  }

  /** What a client keeps sums to the checksums from the last CLEAR on, modulo 2^32. */
  lemma {:induction false} ChecksumIsKept(ops: seq<Op>)
    ensures var s := Reduce(ops); Same(s.other + SumRows(s.rows), SinceClear(ops))
  {
    if ops != [] {
      var op := ops[|ops| - 1];
      var s := Reduce(ops[..|ops| - 1]);
      ChecksumIsKept(ops[..|ops| - 1]);
      StepKeepsChecksum(s, op, SinceClear(ops[..|ops| - 1]));
    }
  }

  lemma StepKeepsChecksum(s: State, op: Op, sum: int)
    requires Same(s.other + SumRows(s.rows), sum)
    ensures var t := Step(s, op); Same(t.other + SumRows(t.rows), if op.kind.Clear? then op.checksum else sum + op.checksum)
  {
    match op.kind
    case Put(row, _) =>
      DiscardKeepsSum(s, row);
      SumRowsPut(Discard(s, row).rows, row, op);
      SameAdd(Discard(s, row).other + SumRows(Discard(s, row).rows), sum, op.checksum);
    case Remove(row) =>
      var d := Discard(s, row);
      DiscardKeepsSum(s, row);
      ToInt32Keeps(d.other + op.checksum, SumRows(d.rows));
      SameAdd(d.other + SumRows(d.rows), sum, op.checksum);
    case Move(_) =>
      ToInt32Keeps(s.other + op.checksum, SumRows(s.rows));
      SameAdd(s.other + SumRows(s.rows), sum, op.checksum);
    case Clear(_) =>
  }
}
