/** Record order. */
module RecordOrder {
  // A JavaScript record enumerates integer names first, in ascending order, and then the other names in the
  // order of their first assignment; assigning to a name again keeps its place and replaces its value.

  import opened Bytes
  import opened JsonText
  import opened Wrappers

  predicate IsDigit(b: Byte) {
    0x30 <= b <= 0x39
  }

  function Decimal(name: Buffer): int {
    if name == [] then 0 else 10 * Decimal(name[..|name| - 1]) + name[|name| - 1] - 0x30
  }

  /** An integer name: decimal digits, without leading zeros, below 2^32 - 1. */
  predicate IsIndex(name: Buffer) {
    && name != [] && (forall i :: 0 <= i < |name| ==> IsDigit(name[i]))
    && (name[0] == 0x30 ==> |name| == 1) && Decimal(name) < 0xffff_ffff
  }

  predicate Precedes(a: Buffer, b: Buffer) {
    IsIndex(a) && (!IsIndex(b) || Decimal(a) < Decimal(b))
  }

  /** A member: whether its value is kept, and where in the document it stands. */
  datatype Entry = Entry(name: Buffer, kept: bool, index: nat)

  function Assign(record: seq<Entry>, e: Entry): seq<Entry> {
    if record == [] then [e]
    else if record[0].name == e.name then [e] + record[1..]
    else if Precedes(e.name, record[0].name) then [e] + record
    else [record[0]] + Assign(record[1..], e)
  }

  function AssignAll(record: seq<Entry>, entries: seq<Entry>): seq<Entry>
    decreases |entries|
  {
    if entries == [] then record else AssignAll(Assign(record, entries[0]), entries[1..])
  }

  /** Where a name first stands; past the end if nowhere. */
  function First(entries: seq<Entry>, name: Buffer): (i: nat)
    ensures i <= |entries| && (i < |entries| ==> entries[i].name == name)
    ensures forall j :: 0 <= j < i ==> entries[j].name != name
  {
    if entries == [] || entries[0].name == name then 0 else 1 + First(entries[1..], name)
  }

  /** One name comes before another in the record of a document's members. */
  predicate Lt(entries: seq<Entry>, a: Buffer, b: Buffer) {
    Precedes(a, b) || (!IsIndex(a) && !IsIndex(b) && First(entries, a) < First(entries, b))
  }

  ghost predicate Sorted(entries: seq<Entry>, record: seq<Entry>) {
    forall i, j :: 0 <= i < j < |record| ==> Lt(entries, record[i].name, record[j].name)
  }

  ghost predicate Has(entries: seq<Entry>, name: Buffer) {
    exists i :: 0 <= i < |entries| && entries[i].name == name
  }

  lemma FirstOfGrown(entries: seq<Entry>, e: Entry, name: Buffer)
    ensures Has(entries, name) ==> First(entries + [e], name) == First(entries, name) < |entries|
    ensures !Has(entries, name) ==> First(entries + [e], name) >= |entries|
  {
    var f, g := First(entries, name), First(entries + [e], name);
    if i :| 0 <= i < |entries| && entries[i].name == name {
      assert (entries + [e])[i].name == name;
      assert f <= i && g <= i;
      assert (entries + [e])[f] == entries[f] && (entries + [e])[g] == entries[g];
    }
    assert g < |entries| ==> (entries + [e])[g] == entries[g];
  }

  /** An entry may join this part of a record: its name is there, or stands first after all names there. */
  ghost predicate MayJoin(entries: seq<Entry>, record: seq<Entry>, e: Entry) {
    Has(record, e.name) || forall i :: 0 <= i < |record| ==> First(entries, record[i].name) < First(entries, e.name)
  }

  lemma {:induction false} AssignKeepsSorted(entries: seq<Entry>, record: seq<Entry>, e: Entry)
    requires Sorted(entries, record) && MayJoin(entries, record, e)
    ensures Sorted(entries, Assign(record, e))
    ensures forall r :: r in Assign(record, e) <==> r == e || (r in record && r.name != e.name)
    decreases |record|
  {
    if record != [] {
      var rest := record[1..];
      if record[0].name == e.name {
        assert forall j :: 1 <= j < |record| ==> Lt(entries, record[0].name, record[j].name);
      } else if Precedes(e.name, record[0].name) {
        PrecedesAll(entries, record, e);
      } else {
        RestMayJoin(entries, record, e);
        AssignKeepsSorted(entries, rest, e);
        var r := Assign(rest, e);
        forall j | 0 <= j < |r| ensures Lt(entries, record[0].name, r[j].name) {
          assert r[j] in r;
          if r[j] != e {
            var k :| 0 <= k < |rest| && rest[k] == r[j];
            assert record[k + 1] == r[j];
          } else {
            ComesAfter(entries, record, e);
          }
        }
      }
    }
  }

  lemma PrecedesAll(entries: seq<Entry>, record: seq<Entry>, e: Entry)
    requires record != [] && Sorted(entries, record) && Precedes(e.name, record[0].name)
    ensures forall j :: 0 <= j < |record| ==> Lt(entries, e.name, record[j].name) && record[j].name != e.name
  {
    forall j | 0 <= j < |record| ensures Precedes(e.name, record[j].name) {
      assert j > 0 ==> Lt(entries, record[0].name, record[j].name);
    }
  }

  lemma RestMayJoin(entries: seq<Entry>, record: seq<Entry>, e: Entry)
    requires record != [] && MayJoin(entries, record, e) && record[0].name != e.name
    ensures MayJoin(entries, record[1..], e)
  {
    if i :| 0 <= i < |record| && record[i].name == e.name {
      assert record[1..][i - 1].name == e.name;
    }
  }

  /** What does not precede the first of a part, and may join it, comes after it. */
  lemma ComesAfter(entries: seq<Entry>, record: seq<Entry>, e: Entry)
    requires record != [] && Sorted(entries, record) && MayJoin(entries, record, e)
    requires record[0].name != e.name && !Precedes(e.name, record[0].name)
    ensures Lt(entries, record[0].name, e.name)
  {
    if i :| 0 <= i < |record| && record[i].name == e.name {
      assert Lt(entries, record[0].name, record[i].name);
    } else if IsIndex(record[0].name) && IsIndex(e.name) && Decimal(record[0].name) == Decimal(e.name) {
      SameIndex(record[0].name, e.name);
    }
  }

  lemma {:induction false} DecimalBounds(s: Buffer)
    requires s != [] && forall i :: 0 <= i < |s| ==> IsDigit(s[i])
    ensures Decimal(s) >= 0
    ensures s[0] != 0x30 ==> Decimal(s) > 0
  {
    if |s| > 1 {
      DecimalBounds(s[..|s| - 1]);
    } else {
      assert s[..0] == [];
    }
  }

  lemma SplitDigit(p: int, d: int, q: int, e: int)
    requires 10 * p + d == 10 * q + e && 0 <= d < 10 && 0 <= e < 10
    ensures p == q && d == e
  {
  }

  /** An integer name less its last digit is an integer name, or nothing. */
  lemma Shorter(a: Buffer)
    requires IsIndex(a)
    ensures var m := |a| - 1;
            && Decimal(a) == 10 * Decimal(a[..m]) + (a[m] - 0x30) && 0 <= a[m] - 0x30 < 10
            && (m > 0 ==> IsIndex(a[..m]) && Decimal(a[..m]) > 0) && (m == 0 ==> Decimal(a[..m]) == 0)
  {
    var m := |a| - 1;
    if m > 0 {
      DecimalBounds(a[..m]);
    }
  }

  /** Two integer names of one value are one name. */
  lemma {:induction false} SameIndex(a: Buffer, b: Buffer)
    requires IsIndex(a) && IsIndex(b) && Decimal(a) == Decimal(b)
    ensures a == b
    decreases |a|
  {
    var m, n := |a| - 1, |b| - 1;
    Shorter(a);
    Shorter(b);
    SplitDigit(Decimal(a[..m]), a[m] - 0x30, Decimal(b[..n]), b[n] - 0x30);
    if m > 0 {
      SameIndex(a[..m], b[..n]);
    }
    assert a == a[..m] + [a[m]] && b == b[..n] + [b[n]];
  }

  // ----- the record of all members -----

  /** The record holds, of each name so far, the last member, in the order of names. */
  ghost predicate IsRecord(entries: seq<Entry>, record: seq<Entry>) {
    && Sorted(entries, record)
    && (forall r :: r in record <==> exists i :: IsLast(entries, i) && entries[i] == r)
  }

  ghost predicate IsLast(entries: seq<Entry>, i: int) {
    0 <= i < |entries| && forall j :: i < j < |entries| ==> entries[j].name != entries[i].name
  }

  lemma SortedGrows(entries: seq<Entry>, record: seq<Entry>, e: Entry)
    requires IsRecord(entries, record)
    ensures Sorted(entries + [e], record)
  {
    forall i, j | 0 <= i < j < |record| ensures Lt(entries + [e], record[i].name, record[j].name) {
      assert Lt(entries, record[i].name, record[j].name);
      InRecordHas(entries, record, i);
      InRecordHas(entries, record, j);
      FirstOfGrown(entries, e, record[i].name);
      FirstOfGrown(entries, e, record[j].name);
    }
  }

  lemma InRecordHas(entries: seq<Entry>, record: seq<Entry>, i: nat)
    requires IsRecord(entries, record) && i < |record|
    ensures Has(entries, record[i].name)
  {
    assert record[i] in record;
    var k :| IsLast(entries, k) && entries[k] == record[i];
  }

  lemma {:induction false} LastOf(entries: seq<Entry>, name: Buffer) returns (i: nat)
    requires Has(entries, name)
    ensures IsLast(entries, i) && entries[i].name == name
  {
    var n := |entries| - 1;
    if entries[n].name == name {
      return n;
    }
    var k :| 0 <= k < |entries| && entries[k].name == name;
    assert entries[..n][k].name == name;
    i := LastOf(entries[..n], name);
    assert forall j :: i < j < n ==> entries[j] == entries[..n][j];
  }

  lemma AssignKeepsRecord(entries: seq<Entry>, record: seq<Entry>, e: Entry)
    requires IsRecord(entries, record)
    ensures IsRecord(entries + [e], Assign(record, e))
  {
    var grown := entries + [e];
    SortedGrows(entries, record, e);
    JoinsGrown(entries, record, e);
    AssignKeepsSorted(grown, record, e);
    forall r ensures r in Assign(record, e) <==> exists i :: IsLast(grown, i) && grown[i] == r {
      if r in Assign(record, e) {
        if r == e {
          assert IsLast(grown, |entries|) && grown[|entries|] == r;
        } else {
          var i :| IsLast(entries, i) && entries[i] == r;
          assert IsLast(grown, i) && grown[i] == r;
        }
      }
      if i :| IsLast(grown, i) && grown[i] == r {
        if i < |entries| {
          assert grown[|entries|].name != grown[i].name;
          assert forall j :: i < j < |entries| ==> entries[j] == grown[j];
          assert IsLast(entries, i) && entries[i] == r;
        }
      }
    }
  }

  lemma JoinsGrown(entries: seq<Entry>, record: seq<Entry>, e: Entry)
    requires IsRecord(entries, record)
    ensures MayJoin(entries + [e], record, e)
  {
    if Has(entries, e.name) {
      var i := LastOf(entries, e.name);
      assert entries[i] in record;
    } else {
      FirstOfGrown(entries, e, e.name);
      forall i | 0 <= i < |record| ensures First(entries + [e], record[i].name) < First(entries + [e], e.name) {
        InRecordHas(entries, record, i);
        FirstOfGrown(entries, e, record[i].name);
      }
    }
  }

  lemma {:induction false} AssignAllIsRecord(done: seq<Entry>, record: seq<Entry>, entries: seq<Entry>)
    requires IsRecord(done, record)
    ensures IsRecord(done + entries, AssignAll(record, entries))
    decreases |entries|
  {
    if entries == [] {
      assert done + entries == done;
    } else {
      AssignKeepsRecord(done, record, entries[0]);
      AssignAllIsRecord(done + [entries[0]], Assign(record, entries[0]), entries[1..]);
      assert done + [entries[0]] + entries[1..] == done + entries;
    }
  }
}
