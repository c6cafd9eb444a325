/** The source's operation log. */
module SourceLog {
  // Every entry carries the cluster time that orders it. Row operations of one transaction share a
  // cluster time; a write to the checkpoints collection never shares its own. The collections at a
  // position are the fold of the entries before that position.

  datatype Key = Key(table: int, id: int)

  /** Who wrote a document of the checkpoints collection. */
  datatype Origin =
    | Standalone          // write checkpoints and snapshot markers
    | Own(stream: nat)    // a barrier of one change stream instance
    | Other               // a barrier of some other process

  datatype Op =
    | Put(key: Key, value: string)
    | Remove(key: Key)
    | DropTable(table: int)
    | Checkpoint(origin: Origin)

  /** One log entry. A large change arrives as more than one fragment. */
  datatype Entry = Entry(ts: nat, op: Op, fragments: nat)

  type Log = seq<Entry>

  type Rows = map<Key, string>

  function Fragments(e: Entry): nat {
    if e.op.Put? && e.fragments > 1 then e.fragments else 1
  }

  /** The cluster time of the last entry before position n. */
  function TsAt(log: Log, n: nat): nat
    requires n <= |log|
  {
    if n == 0 then 0 else log[n - 1].ts
  }

  /** Cluster times increase, except inside a transaction of row operations. */
  ghost predicate WellFormed(log: Log) {
    && (forall i :: 0 <= i < |log| ==> 0 < log[i].ts)
    && (forall i, j :: 0 <= i < j < |log| ==> log[i].ts <= log[j].ts)
    && (forall i, j :: 0 <= i < j < |log| && (log[i].op.Checkpoint? || log[j].op.Checkpoint?) ==> log[i].ts < log[j].ts)
  }

  function ApplyOp(rows: Rows, op: Op): Rows {
    match op
    case Put(k, v) => rows[k := v]
    case Remove(k) => rows - {k}
    case DropTable(t) => map k | k in rows && k.table != t :: rows[k]
    case Checkpoint(_) => rows
  }

  /** The collections after the first n log entries. */
  function SourceAt(log: Log, n: nat): Rows
    requires n <= |log|
  {
    if n == 0 then map[] else ApplyOp(SourceAt(log, n - 1), log[n - 1].op)
  }

  predicate Affects(op: Op, k: Key) {
    match op
    case Put(k', _) => k' == k
    case Remove(k') => k' == k
    case DropTable(t) => t == k.table
    case Checkpoint(_) => false
  }

  ghost predicate Untouched(log: Log, k: Key, lo: nat, hi: nat)
    requires hi <= |log|
  {
    forall i :: lo <= i < hi ==> !Affects(log[i].op, k)
  }

  ghost predicate SameAt(a: Rows, b: Rows, k: Key) {
    (k in a <==> k in b) && (k in a ==> a[k] == b[k])
  }

  /** A key no operation touches in between has one value at both ends. */
  lemma {:induction false} UntouchedIsSame(log: Log, k: Key, lo: nat, hi: nat)
    requires lo <= hi <= |log|
    requires Untouched(log, k, lo, hi)
    ensures SameAt(SourceAt(log, lo), SourceAt(log, hi), k)
    decreases hi
  {
    if lo < hi {
      UntouchedIsSame(log, k, lo, hi - 1);
    }
  }

  /** Appending to the log changes nothing before its old end. */
  lemma {:induction false} SourceAtPrefix(log: Log, more: Log, n: nat)
    requires n <= |log|
    ensures SourceAt(log + more, n) == SourceAt(log, n)
  {
    if n > 0 {
      SourceAtPrefix(log, more, n - 1);
      assert (log + more)[n - 1] == log[n - 1];
    }
  }

  function LastTs(log: Log): nat {
    TsAt(log, |log|)
  }

  function Committed(ts: nat, ops: seq<Op>, fragments: seq<nat>): (entries: Log)
    requires |ops| == |fragments|
    ensures |entries| == |ops|
  {
    seq(|ops|, i requires 0 <= i < |ops| => Entry(ts, ops[i], fragments[i]))
  }

  /** What one source commit may write: one checkpoint document, or a transaction of row operations. */
  predicate OneCommit(ops: seq<Op>) {
    || (|ops| == 1 && ops[0].Checkpoint?)
    || (|ops| > 0 && forall i :: 0 <= i < |ops| ==> !ops[i].Checkpoint?)
  }

  lemma CommitKeepsWellFormed(log: Log, ops: seq<Op>, fragments: seq<nat>)
    requires WellFormed(log) && |ops| == |fragments| && OneCommit(ops)
    ensures WellFormed(log + Committed(LastTs(log) + 1, ops, fragments))
  {
    var more := Committed(LastTs(log) + 1, ops, fragments);
    var grown := log + more;
    forall i, j | 0 <= i < j < |grown|
      ensures grown[i].ts <= grown[j].ts
      ensures grown[i].op.Checkpoint? || grown[j].op.Checkpoint? ==> grown[i].ts < grown[j].ts
    {
      if i < |log| <= j {
        assert log[i].ts <= LastTs(log);
      }
    }
  }

  /** A position that does not split a transaction. */
  predicate Boundary(log: Log, n: nat)
    requires n <= |log|
  {
    n == |log| || TsAt(log, n) < log[n].ts
  }

  /** The entries a stream resumed at position n still delivers: the server returns everything
      from n on, and the loop drops what is not newer than the resume time. */
  function Delivered(log: Log, n: nat): (d: Log)
    requires n <= |log|
  {
    DropNotNewer(log[n..], TsAt(log, n))
  }

  function DropNotNewer(entries: Log, ts: nat): Log {
    if entries == [] then []
    else (if entries[0].ts <= ts then [] else [entries[0]]) + DropNotNewer(entries[1..], ts)
  }

  lemma {:induction false} DropNotNewerLength(entries: Log, ts: nat)
    ensures |DropNotNewer(entries, ts)| <= |entries|
    ensures (forall i :: 0 <= i < |entries| ==> ts < entries[i].ts) ==> DropNotNewer(entries, ts) == entries
    ensures DropNotNewer(entries, ts) == entries ==> forall i :: 0 <= i < |entries| ==> ts < entries[i].ts
  {
    if entries != [] {
      var rest := entries[1..];
      DropNotNewerLength(rest, ts);
      assert entries == [entries[0]] + rest;
      if entries[0].ts <= ts {
        assert |DropNotNewer(entries, ts)| < |entries|;
      } else {
        assert DropNotNewer(entries, ts) == [entries[0]] + DropNotNewer(rest, ts);
        if DropNotNewer(entries, ts) == entries {
          assert DropNotNewer(rest, ts) == DropNotNewer(entries, ts)[1..] == rest;
        }
      }
    }
  }

  /** Resuming at n delivers every later entry exactly when n does not split a transaction. */
  lemma ResumeDeliversAllIffBoundary(log: Log, n: nat)
    requires WellFormed(log) && n <= |log|
    ensures Delivered(log, n) == log[n..] <==> Boundary(log, n)
  {
    var tail := log[n..];
    DropNotNewerLength(tail, TsAt(log, n));
    if n < |log| {
      assert tail[0] == log[n];
      if Boundary(log, n) {
        forall i | 0 <= i < |tail| ensures TsAt(log, n) < tail[i].ts {
          assert tail[i] == log[n + i];
        }
      }
    }
  }
}
