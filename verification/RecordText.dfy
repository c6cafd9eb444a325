/** The text of a record, and when it is the text of the members as they stand. */
module RecordText {
  // When the text of a record is the text of a document's members as they stand: if and only if no member is
  // assigned over, none is the prototype, and the members stand in the order of the record.

  import opened Bytes
  import opened JsonText
  import opened SimpleForm
  import opened RecordOrder
  import opened Wrappers

  /** Assigning to this name sets the prototype of a record, and no member. */
  const ProtoName: Buffer := Ascii("__proto__")

  /** The members that are printed: of a document, those kept; of a record, not the prototype either. */
  function Printed(entries: seq<Entry>, ofRecord: bool): seq<Entry> {
    if entries == [] then []
    else (if entries[0].kept && !(ofRecord && entries[0].name == ProtoName) then [entries[0]] else []) + Printed(entries[1..], ofRecord)
  }

  function Piece(e: Entry, texts: seq<Buffer>): Buffer
    requires e.index < |texts|
  {
    Quoted(e.name) + [0x3a] + texts[e.index]
  }

  ghost predicate Within(entries: seq<Entry>, texts: seq<Buffer>) {
    forall i :: 0 <= i < |entries| ==> entries[i].index < |texts|
  }

  function Join(entries: seq<Entry>, texts: seq<Buffer>, first: bool): Buffer
    requires Within(entries, texts)
  {
    if entries == [] then [] else Comma(first) + Piece(entries[0], texts) + Join(entries[1..], texts, false)
  }

  ghost predicate Numbered(entries: seq<Entry>) {
    forall i :: 0 <= i < |entries| ==> entries[i].index == i
  }

  /** A kept member is not assigned over, is not the prototype, and comes before all later kept members in the
      record too. */
  ghost predicate InOrder(entries: seq<Entry>) {
    forall i :: 0 <= i < |entries| && entries[i].kept ==>
      && IsLast(entries, i) && entries[i].name != ProtoName
      && forall k :: i < k < |entries| && entries[k].kept ==> Lt(entries, entries[i].name, entries[k].name)
  }

  lemma {:induction false} PrintedMembers(entries: seq<Entry>, ofRecord: bool)
    ensures forall e :: e in Printed(entries, ofRecord) <==> e in entries && e.kept && !(ofRecord && e.name == ProtoName)
  {
    if entries != [] {
      PrintedMembers(entries[1..], ofRecord);
      assert entries == [entries[0]] + entries[1..];
    }
  }

  lemma {:induction false} PrintedSorted(all: seq<Entry>, entries: seq<Entry>, ofRecord: bool)
    requires Sorted(all, entries)
    ensures Sorted(all, Printed(entries, ofRecord))
  {
    if entries != [] {
      var rest := Printed(entries[1..], ofRecord);
      PrintedSorted(all, entries[1..], ofRecord);
      forall j | 0 <= j < |rest| ensures Lt(all, entries[0].name, rest[j].name) {
        PrintedMembers(entries[1..], ofRecord);
        assert rest[j] in entries[1..];
        var k :| 0 <= k < |entries[1..]| && entries[1..][k] == rest[j];
        assert entries[k + 1] == rest[j];
      }
    }
  }

  ghost predicate Ascending(entries: seq<Entry>) {
    forall i, j :: 0 <= i < j < |entries| ==> entries[i].index < entries[j].index
  }

  lemma {:induction false} PrintedAscending(entries: seq<Entry>, ofRecord: bool)
    requires Ascending(entries)
    ensures Ascending(Printed(entries, ofRecord))
  {
    if entries != [] {
      var rest := Printed(entries[1..], ofRecord);
      PrintedAscending(entries[1..], ofRecord);
      PrintedMembers(entries[1..], ofRecord);
      forall j | 0 <= j < |rest| ensures entries[0].index < rest[j].index {
        assert rest[j] in entries[1..];
        var k :| 0 <= k < |entries[1..]| && entries[1..][k] == rest[j];
        assert entries[k + 1] == rest[j];
      }
    }
  }

  lemma LtIsStrict(entries: seq<Entry>, a: Buffer, b: Buffer)
    requires Lt(entries, a, b)
    ensures a != b && !Lt(entries, b, a)
  {
  }

  /** A sorted list is given by its members. */
  lemma {:induction false} SameSorted(all: seq<Entry>, a: seq<Entry>, b: seq<Entry>)
    requires Sorted(all, a) && Sorted(all, b) && forall e :: e in a <==> e in b
    ensures a == b
    decreases |a|
  {
    if b != [] {
      NonemptyToo(a, b);
    }
    if a != [] {
      assert a[0] in b;
      FirstIsLeast(all, a, b);
      TailsMatch(all, a, b);
      SameSorted(all, a[1..], b[1..]);
      assert a == [a[0]] + a[1..] && b == [b[0]] + b[1..];
    }
  }

  lemma NonemptyToo(a: seq<Entry>, b: seq<Entry>)
    requires b != [] && forall e :: e in b ==> e in a
    ensures a != []
  {
    assert b[0] in b;
  }

  lemma FirstIsLeast(all: seq<Entry>, a: seq<Entry>, b: seq<Entry>)
    requires Sorted(all, a) && Sorted(all, b) && a != [] && b != [] && a[0] in b && b[0] in a
    ensures a[0] == b[0]
  {
    var i :| 0 <= i < |b| && b[i] == a[0];
    var j :| 0 <= j < |a| && a[j] == b[0];
    if i > 0 && j > 0 {
      LtIsStrict(all, b[0].name, a[0].name);
    }
  }

  lemma TailsMatch(all: seq<Entry>, a: seq<Entry>, b: seq<Entry>)
    requires Sorted(all, a) && Sorted(all, b) && a != [] && b != [] && a[0] == b[0] && forall e :: e in a <==> e in b
    ensures forall e :: e in a[1..] <==> e in b[1..]
  {
    TailIs(all, a);
    TailIs(all, b);
  }

  lemma TailIs(all: seq<Entry>, a: seq<Entry>)
    requires Sorted(all, a) && a != []
    ensures forall e :: e in a[1..] <==> e in a && e != a[0]
  {
    forall j | 1 <= j < |a| ensures a[j] != a[0] {
      LtIsStrict(all, a[0].name, a[j].name);
    }
  }

  /** What is printed of a document is what is printed of its record exactly when the members are in order. */
  lemma SamePrintedIff(entries: seq<Entry>, record: seq<Entry>)
    requires Numbered(entries) && IsRecord(entries, record)
    ensures Printed(entries, false) == Printed(record, true) <==> InOrder(entries)
  {
    var k, l := Printed(entries, false), Printed(record, true);
    PrintedMembers(entries, false);
    PrintedMembers(record, true);
    PrintedSorted(entries, record, true);
    PrintedAscending(entries, false);
    if InOrder(entries) {
      InOrderIsSorted(entries, k);
      forall e ensures e in k <==> e in l {
        InOrderMembers(entries, record, e);
      }
      SameSorted(entries, k, l);
    }
    if k == l {
      SortedIsInOrder(entries, record, k);
    }
  }

  lemma InOrderMembers(entries: seq<Entry>, record: seq<Entry>, e: Entry)
    requires IsRecord(entries, record) && InOrder(entries)
    ensures e in entries && e.kept <==> e in record && e.kept && e.name != ProtoName
  {
    if e in entries && e.kept {
      var i :| 0 <= i < |entries| && entries[i] == e;
      assert IsLast(entries, i);
    }
    if e in record {
      var i :| IsLast(entries, i) && entries[i] == e;
    }
  }

  lemma InOrderIsSorted(entries: seq<Entry>, k: seq<Entry>)
    requires Numbered(entries) && InOrder(entries) && Ascending(k) && forall e :: e in k ==> e in entries && e.kept
    ensures Sorted(entries, k)
  {
    forall i, j | 0 <= i < j < |k| ensures Lt(entries, k[i].name, k[j].name) {
      assert k[i] in k && k[j] in k;
      assert entries[k[i].index] == k[i] && entries[k[j].index] == k[j];
    }
  }

  lemma SortedIsInOrder(entries: seq<Entry>, record: seq<Entry>, k: seq<Entry>)
    requires Numbered(entries) && IsRecord(entries, record) && Sorted(entries, k) && Ascending(k)
    requires forall e :: e in k <==> e in entries && e.kept
    requires forall e :: e in k <==> e in record && e.kept && e.name != ProtoName
    ensures InOrder(entries)
  {
    forall i | 0 <= i < |entries| && entries[i].kept
      ensures IsLast(entries, i) && entries[i].name != ProtoName
      ensures forall m :: i < m < |entries| && entries[m].kept ==> Lt(entries, entries[i].name, entries[m].name)
    {
      assert entries[i] in k && entries[i] in record;
      var j :| IsLast(entries, j) && entries[j] == entries[i];
      assert j == i;
      forall m | i < m < |entries| && entries[m].kept ensures Lt(entries, entries[i].name, entries[m].name) {
        assert entries[m] in k;
        var a :| 0 <= a < |k| && k[a] == entries[i];
        var b :| 0 <= b < |k| && k[b] == entries[m];
        assert a < b;
      }
    }
  }

  // ----- lengths -----

  function Weight(entries: seq<Entry>, texts: seq<Buffer>): nat
    requires Within(entries, texts)
  {
    if entries == [] then 0 else |Piece(entries[0], texts)| + Weight(entries[1..], texts)
  }

  lemma {:induction false} JoinLength(entries: seq<Entry>, texts: seq<Buffer>, first: bool)
    requires Within(entries, texts)
    ensures |Join(entries, texts, first)| == Weight(entries, texts) + |entries| - (if first && entries != [] then 1 else 0)
  {
    if entries != [] {
      JoinLength(entries[1..], texts, false);
    }
  }

  lemma {:induction false} WeightWithout(entries: seq<Entry>, texts: seq<Buffer>, j: nat)
    requires Within(entries, texts) && j < |entries|
    ensures Within(entries[..j] + entries[j + 1..], texts)
    ensures Weight(entries, texts) == Weight(entries[..j] + entries[j + 1..], texts) + |Piece(entries[j], texts)|
  {
    if j == 0 {
      assert entries[..0] + entries[1..] == entries[1..];
    } else {
      WeightWithout(entries[1..], texts, j - 1);
      var left := entries[..j] + entries[j + 1..];
      assert left[0] == entries[0] && left[1..] == entries[1..][..j - 1] + entries[1..][j..];
    }
  }

  ghost predicate Distinct(entries: seq<Entry>) {
    forall i, j :: 0 <= i < j < |entries| ==> entries[i] != entries[j]
  }

  /** Fewer members with texts no longer: all lengths agree only if every member is there, with a text as long. */
  lemma {:induction false} Lighter(some: seq<Entry>, shorter: seq<Buffer>, all: seq<Entry>, texts: seq<Buffer>)
    requires Within(some, shorter) && Within(all, texts) && |shorter| == |texts|
    requires Distinct(some) && forall e :: e in some ==> e in all
    requires forall e :: e in some ==> |shorter[e.index]| <= |texts[e.index]|
    ensures |some| <= |all| && Weight(some, shorter) <= Weight(all, texts)
    ensures |some| == |all| && Weight(some, shorter) == Weight(all, texts) ==>
              (forall e :: e in all ==> e in some) && (forall e :: e in some ==> |shorter[e.index]| == |texts[e.index]|)
    decreases |some|
  {
    if some != [] {
      var e := some[0];
      assert e in some;
      var j :| 0 <= j < |all| && all[j] == e;
      var left := all[..j] + all[j + 1..];
      WeightWithout(all, texts, j);
      Others(all, j);
      forall x | x in some[1..] ensures x in left {
        InRest(some, x);
      }
      Lighter(some[1..], shorter, left, texts);
      assert forall x :: x in some ==> x == e || x in some[1..];
    }
  }

  lemma Others(all: seq<Entry>, j: nat)
    requires j < |all|
    ensures forall x :: x in all ==> x == all[j] || x in all[..j] + all[j + 1..]
  {
    var left := all[..j] + all[j + 1..];
    forall x | x in all && x != all[j] ensures x in left {
      var i :| 0 <= i < |all| && all[i] == x;
      assert i < j ==> left[i] == x;
      assert i > j ==> left[i - 1] == x;
    }
  }

  lemma InRest(entries: seq<Entry>, x: Entry)
    requires entries != [] && Distinct(entries) && x in entries[1..]
    ensures x in entries && x != entries[0]
  {
    var i :| 0 <= i < |entries[1..]| && entries[1..][i] == x;
    assert entries[i + 1] == x;
  }

  // ----- texts -----

  ghost predicate DistinctNames(entries: seq<Entry>) {
    forall i, j :: 0 <= i < j < |entries| ==> entries[i].name != entries[j].name
  }

  /** Equal texts begin with the same name, and go on equally after it. */
  lemma HeadsAgree(a: Buffer, x: Buffer, b: Buffer, y: Buffer)
    requires Quoted(a) + x == Quoted(b) + y
    ensures a == b && x == y
  {
    var s := EscapeAll(a) + [DQuote] + x;
    assert Quoted(a) + x == [DQuote] + s;
    assert Quoted(b) + y == [DQuote] + (EscapeAll(b) + [DQuote] + y);
    assert s == ([DQuote] + s)[1..];
    assert EscapeAll(b) + [DQuote] + y == ([DQuote] + (EscapeAll(b) + [DQuote] + y))[1..];
    QuotedReadsBack(a, x);
    QuotedReadsBack(b, y);
  }

  lemma JoinHead(entries: seq<Entry>, texts: seq<Buffer>, first: bool)
    requires Within(entries, texts) && entries != []
    ensures Join(entries, texts, first)
         == Comma(first) + (Quoted(entries[0].name) + ([0x3a] + texts[entries[0].index] + Join(entries[1..], texts, false)))
  {
    Regroup(Comma(first), Quoted(entries[0].name), [0x3a], texts[entries[0].index], Join(entries[1..], texts, false));
  }

  lemma Regroup(a: Buffer, b: Buffer, c: Buffer, d: Buffer, e: Buffer)
    ensures a + (b + c + d) + e == a + (b + (c + d + e))
  {
  }

  lemma CutComma(first: bool, x: Buffer, y: Buffer)
    requires Comma(first) + x == Comma(first) + y
    ensures x == y
  {
    assert (Comma(first) + x)[|Comma(first)|..] == x;
    assert (Comma(first) + y)[|Comma(first)|..] == y;
  }

  lemma CutText(t: Buffer, x: Buffer, t': Buffer, y: Buffer)
    requires [0x3a] + t + x == [0x3a] + t' + y && |t| == |t'|
    ensures t == t' && x == y
  {
    var whole := [0x3a] + t + x;
    assert whole[1..|t| + 1] == t && whole[|t| + 1..] == x;
    assert whole[1..|t| + 1] == t' && whole[|t| + 1..] == y;
  }

  lemma {:induction false} EqualTexts(a: seq<Entry>, texts: seq<Buffer>, b: seq<Entry>, texts': seq<Buffer>, first: bool)
    requires Within(a, texts) && Within(b, texts') && |texts| == |texts'|
    requires |a| == |b| && Distinct(a) && DistinctNames(b) && forall e :: e in a <==> e in b
    requires forall e :: e in a ==> |texts[e.index]| == |texts'[e.index]|
    requires Join(a, texts, first) == Join(b, texts', first)
    ensures a == b && forall e :: e in a ==> texts[e.index] == texts'[e.index]
    decreases |a|
  {
    if a != [] {
      JoinHead(a, texts, first);
      JoinHead(b, texts', first);
      var x := [0x3a] + texts[a[0].index] + Join(a[1..], texts, false);
      var y := [0x3a] + texts'[b[0].index] + Join(b[1..], texts', false);
      CutComma(first, Quoted(a[0].name) + x, Quoted(b[0].name) + y);
      HeadsAgree(a[0].name, x, b[0].name, y);
      assert a[0] in b;
      assert a[0] == b[0];
      CutText(texts[a[0].index], Join(a[1..], texts, false), texts'[b[0].index], Join(b[1..], texts', false));
      RestsMatch(a, b);
      EqualTexts(a[1..], texts, b[1..], texts', false);
      assert a == [a[0]] + a[1..] && b == [b[0]] + b[1..];
    }
  }

  lemma RestsMatch(a: seq<Entry>, b: seq<Entry>)
    requires a != [] && b != [] && a[0] == b[0] && Distinct(a) && DistinctNames(b) && forall e :: e in a <==> e in b
    ensures forall e :: e in a[1..] <==> e in b[1..]
    ensures forall e :: e in a[1..] ==> e in a
  {
    assert a == [a[0]] + a[1..] && b == [b[0]] + b[1..];
    forall e ensures e in a[1..] <==> e in b[1..] {
      if e in a[1..] {
        InRest(a, e);
      }
      if e in b[1..] {
        InRest(b, e);
      }
    }
  }

  lemma {:induction false} SameJoin(entries: seq<Entry>, texts: seq<Buffer>, texts': seq<Buffer>, first: bool)
    requires Within(entries, texts) && Within(entries, texts') && forall e :: e in entries ==> texts[e.index] == texts'[e.index]
    ensures Join(entries, texts, first) == Join(entries, texts', first)
  {
    if entries != [] {
      assert entries[0] in entries;
      SameJoin(entries[1..], texts, texts', false);
    }
  }

  lemma PrintedWithin(entries: seq<Entry>, ofRecord: bool, texts: seq<Buffer>)
    requires forall e :: e in entries ==> e.index < |texts|
    ensures Within(Printed(entries, ofRecord), texts)
  {
    PrintedMembers(entries, ofRecord);
    var k := Printed(entries, ofRecord);
    forall i | 0 <= i < |k| ensures k[i].index < |texts| {
      assert k[i] in k;
    }
  }

  /** The record's text is never longer, and it is the text of the members as they stand exactly when these are
      in order and every kept value has the same text. */
  lemma JoinIff(entries: seq<Entry>, record: seq<Entry>, texts: seq<Buffer>, texts': seq<Buffer>)
    requires Numbered(entries) && IsRecord(entries, record) && |texts| == |texts'| == |entries|
    requires forall i :: 0 <= i < |entries| && entries[i].kept ==> |texts'[i]| <= |texts[i]|
    ensures Within(Printed(entries, false), texts) && Within(Printed(record, true), texts')
    ensures var k, l := Printed(entries, false), Printed(record, true);
            && |Join(l, texts', true)| <= |Join(k, texts, true)|
            && (Join(l, texts', true) == Join(k, texts, true) <==>
                  InOrder(entries) && forall i :: 0 <= i < |entries| && entries[i].kept ==> texts'[i] == texts[i])
  {
    var k, l := Printed(entries, false), Printed(record, true);
    RecordMembers(entries, record);
    PrintedWithin(entries, false, texts);
    PrintedWithin(record, true, texts');
    PrintedMembers(entries, false);
    PrintedMembers(record, true);
    PrintedAscending(entries, false);
    PrintedSorted(entries, record, true);
    SortedIsDistinct(entries, l);
    Lighter(l, texts', k, texts);
    JoinLength(k, texts, true);
    JoinLength(l, texts', true);
    SamePrintedIff(entries, record);
    if Join(l, texts', true) == Join(k, texts, true) {
      EqualTexts(k, texts, l, texts', true);
      forall i | 0 <= i < |entries| && entries[i].kept ensures texts'[i] == texts[i] {
        assert entries[i] in k;
      }
    }
    if InOrder(entries) && forall i :: 0 <= i < |entries| && entries[i].kept ==> texts'[i] == texts[i] {
      SameJoin(k, texts', texts, true);
    }
  }

  lemma RecordMembers(entries: seq<Entry>, record: seq<Entry>)
    requires Numbered(entries) && IsRecord(entries, record)
    ensures forall e :: e in record ==> e in entries
    ensures forall e :: e in entries ==> e.index < |entries| && entries[e.index] == e
  {
    forall e | e in record ensures e in entries {
      var i :| IsLast(entries, i) && entries[i] == e;
    }
  }

  lemma SortedIsDistinct(all: seq<Entry>, entries: seq<Entry>)
    requires Sorted(all, entries)
    ensures DistinctNames(entries) && Distinct(entries)
  {
    forall i, j | 0 <= i < j < |entries| ensures entries[i].name != entries[j].name {
      LtIsStrict(all, entries[i].name, entries[j].name);
    }
  }
}
