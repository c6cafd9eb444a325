/** The simple form's records. */
module RecordForm {
  // The simple form decodes documents into JavaScript objects and filters them into new ones, so that members
  // are assigned over, reordered, or lost to the prototype. Its text is the direct text exactly when the
  // kept members of every document are in order.

  import opened Bytes
  import opened JsonText
  import opened JsonWriter
  import opened SimpleForm
  import opened RecordOrder
  import opened RecordText
  import Bson
  import opened Wrappers

  // ----- decoding into records -----

  function AssignField(record: Bson.Fields, name: Buffer, value: Bson.Value): Bson.Fields {
    match record
    case End => Bson.Field(name, value, Bson.End)
    case Field(n, v, rest) =>
      if n == name then Bson.Field(name, value, rest)
      else if Precedes(name, n) then Bson.Field(name, value, record)
      else Bson.Field(n, v, AssignField(rest, name, value))
  }

  function Decoded(v: Bson.Value): Bson.Value
    decreases v, 0
  {
    match v
    case Document(fields) => Bson.Document(Record(Bson.End, fields))
    case Array(fields) => Bson.Array(DecodedItems(fields))
    case CodeWithScope(text, scope) => Bson.CodeWithScope(text, Record(Bson.End, scope))
    case _ => v
  }

  function Record(record: Bson.Fields, fields: Bson.Fields): Bson.Fields
    decreases fields, 0
  {
    match fields
    case End => record
    case Field(name, value, rest) => Record(AssignField(record, name, Decoded(value)), rest)
  }

  function DecodedItems(fields: Bson.Fields): Bson.Fields
    decreases fields, 0
  {
    match fields
    case End => Bson.End
    case Field(name, value, rest) => Bson.Field(name, Decoded(value), DecodedItems(rest))
  }

  /** Filtering assigns to a new record, where the name of the prototype makes no member. */
  function Refined(j: Json): Json
    decreases j, 0
  {
    match j
    case Object(members) => Object(RefinedMembers(members))
    case List(items) => List(RefinedItems(items))
    case _ => j
  }

  function RefinedMembers(members: Members): Members
    decreases members, 0
  {
    match members
    case NoMembers => NoMembers
    case Member(name, value, rest) => Member(name, if name == ProtoName then Undefined else Refined(value), RefinedMembers(rest))
  }

  function RefinedItems(items: Items): Items
    decreases items, 0
  {
    match items
    case NoItems => NoItems
    case Item(value, rest) => Item(Refined(value), RefinedItems(rest))
  }

  // ----- decoding by the library -----

  const RefName: Buffer := Ascii("$ref")
  const IdName: Buffer := Ascii("$id")

  predicate HasName(fields: Bson.Fields, name: Buffer) {
    fields.Field? && (fields.name == name || HasName(fields.rest, name))
  }

  /** A document with both names may be read as a database reference. */
  predicate MayBeReference(fields: Bson.Fields) {
    HasName(fields, RefName) && HasName(fields, IdName)
  }

  /** A value as the BSON library decodes it. */
  function Library(p: Printers, v: Bson.Value): Bson.Value
    decreases v, 0
  {
    match v
    case Document(fields) => Bson.Document(LibraryFields(p, fields))
    case Array(fields) => Bson.Array(LibraryItems(p, fields))
    case CodeWithScope(text, scope) => Bson.CodeWithScope(text, LibraryFields(p, scope))
    case _ => v
  }

  function LibraryFields(p: Printers, fields: Bson.Fields): Bson.Fields
    decreases fields, 1
  {
    if MayBeReference(fields) then p.reference(fields) else LibraryRecord(p, Bson.End, fields)
  }

  function LibraryRecord(p: Printers, record: Bson.Fields, fields: Bson.Fields): Bson.Fields
    decreases fields, 0
  {
    match fields
    case End => record
    case Field(name, value, rest) => LibraryRecord(p, AssignField(record, name, Library(p, value)), rest)
  }

  function LibraryItems(p: Printers, fields: Bson.Fields): Bson.Fields
    decreases fields, 0
  {
    match fields
    case End => Bson.End
    case Field(name, value, rest) => Bson.Field(name, Library(p, value), LibraryItems(p, rest))
  }

  /** No document in the value has both names of a reference. */
  predicate Plain(v: Bson.Value)
    decreases v, 0
  {
    match v
    case Document(fields) => !MayBeReference(fields) && PlainValues(fields)
    case Array(fields) => PlainValues(fields)
    case CodeWithScope(_, scope) => !MayBeReference(scope) && PlainValues(scope)
    case _ => true
  }

  predicate PlainValues(fields: Bson.Fields)
    decreases fields, 0
  {
    match fields
    case End => true
    case Field(_, value, rest) => Plain(value) && PlainValues(rest)
  }

  predicate PlainColumn(fields: Bson.Fields, isArray: bool) {
    PlainValues(fields) && (isArray || !MayBeReference(fields))
  }

  /** Such a value is decoded into records and nothing else. */
  lemma {:induction false} PlainIsDecoded(p: Printers, v: Bson.Value)
    requires Plain(v)
    ensures Library(p, v) == Decoded(v)
    decreases v, 0
  {
    match v
    case Document(fields) => PlainRecord(p, Bson.End, fields);
    case Array(fields) => PlainItems(p, fields);
    case CodeWithScope(_, scope) => PlainRecord(p, Bson.End, scope);
    case _ =>
  }

  lemma {:induction false} PlainRecord(p: Printers, record: Bson.Fields, fields: Bson.Fields)
    requires PlainValues(fields)
    ensures LibraryRecord(p, record, fields) == Record(record, fields)
    decreases fields, 0
  {
    match fields
    case End =>
    case Field(name, value, rest) =>
      PlainIsDecoded(p, value);
      PlainRecord(p, AssignField(record, name, Decoded(value)), rest);
  }

  lemma {:induction false} PlainItems(p: Printers, fields: Bson.Fields)
    requires PlainValues(fields)
    ensures LibraryItems(p, fields) == DecodedItems(fields)
    decreases fields, 0
  {
    match fields
    case End =>
    case Field(_, value, rest) =>
      PlainIsDecoded(p, value);
      PlainItems(p, rest);
  }

  /** What the simple form makes of a document or array column. */
  function SimpleColumn(p: Printers, fields: Bson.Fields, isArray: bool): Result<Json, Error> {
    var r := FilterColumn(p, if isArray then LibraryItems(p, fields) else LibraryFields(p, fields), isArray, true);
    if r.Failure? then Failure(r.error) else Success(Refined(r.value))
  }

  // ----- the condition -----

  predicate Dropped(v: Bson.Value) {
    v.Undefined? || (v.Binary? && !(v.subtype == 4 && |v.data| == 16))
  }

  function Entries(fields: Bson.Fields, from: nat): seq<Entry> {
    match fields
    case End => []
    case Field(name, value, rest) => [Entry(name, !Dropped(value), from)] + Entries(rest, from + 1)
  }

  /** The kept members of every document in a value are in order. */
  ghost predicate Normal(v: Bson.Value)
    decreases v, 0
  {
    match v
    case Document(fields) => NormalDocument(fields)
    case Array(fields) => NormalValues(fields)
    case CodeWithScope(_, scope) => NormalDocument(scope)
    case _ => true
  }

  ghost predicate NormalDocument(fields: Bson.Fields)
    decreases fields, 1
  {
    InOrder(Entries(fields, 0)) && NormalValues(fields)
  }

  ghost predicate NormalValues(fields: Bson.Fields)
    decreases fields, 0
  {
    match fields
    case End => true
    case Field(_, value, rest) => Normal(value) && NormalValues(rest)
  }

  ghost predicate NormalColumn(fields: Bson.Fields, isArray: bool) {
    if isArray then NormalValues(fields) else NormalDocument(fields)
  }

  // ----- a record as a list of members -----

  function Length(fields: Bson.Fields): nat {
    if fields.End? then 0 else 1 + Length(fields.rest)
  }

  function ValueAt(fields: Bson.Fields, i: nat): Bson.Value
    requires i < Length(fields)
  {
    if i == 0 then fields.value else ValueAt(fields.rest, i - 1)
  }

  lemma {:induction false} EntryAt(fields: Bson.Fields, from: nat, i: nat)
    requires i < Length(fields)
    ensures |Entries(fields, from)| == Length(fields)
    ensures Entries(fields, from)[i].index == from + i && Entries(fields, from)[i].kept == !Dropped(ValueAt(fields, i))
  {
    EntriesLength(fields, from);
    if i > 0 {
      EntryAt(fields.rest, from + 1, i - 1);
    }
  }

  lemma {:induction false} EntriesLength(fields: Bson.Fields, from: nat)
    ensures |Entries(fields, from)| == Length(fields)
  {
    if fields.Field? {
      EntriesLength(fields.rest, from + 1);
    }
  }

  ghost predicate InFields(fields: Bson.Fields, record: seq<Entry>) {
    forall i :: 0 <= i < |record| ==> record[i].index < Length(fields) && record[i].kept == !Dropped(ValueAt(fields, record[i].index))
  }

  /** The members of a record, with their decoded values. */
  function Built(all: Bson.Fields, record: seq<Entry>): Bson.Fields
    requires InFields(all, record)
  {
    if record == [] then Bson.End
    else Bson.Field(record[0].name, Decoded(ValueAt(all, record[0].index)), Built(all, record[1..]))
  }

  lemma {:induction false} AssignIsBuilt(all: Bson.Fields, record: seq<Entry>, e: Entry)
    requires InFields(all, record) && e.index < Length(all) && e.kept == !Dropped(ValueAt(all, e.index))
    ensures InFields(all, Assign(record, e))
    ensures AssignField(Built(all, record), e.name, Decoded(ValueAt(all, e.index))) == Built(all, Assign(record, e))
  {
    if record != [] {
      assert ([e] + record[1..])[1..] == record[1..] && ([e] + record)[1..] == record;
      AssignIsBuilt(all, record[1..], e);
      var rest := Assign(record[1..], e);
      assert ([record[0]] + rest)[1..] == rest;
    } else {
      assert [e][1..] == [];
    }
  }

  ghost predicate IsRest(all: Bson.Fields, rest: Bson.Fields, from: nat) {
    && from + Length(rest) == Length(all)
    && forall i :: 0 <= i < Length(rest) ==> ValueAt(all, from + i) == ValueAt(rest, i)
  }

  lemma {:induction false} RecordIsBuilt(all: Bson.Fields, record: seq<Entry>, rest: Bson.Fields, from: nat)
    requires InFields(all, record) && IsRest(all, rest, from)
    ensures InFields(all, AssignAll(record, Entries(rest, from)))
    ensures Record(Built(all, record), rest) == Built(all, AssignAll(record, Entries(rest, from)))
    decreases rest
  {
    if rest.Field? {
      var e := Entry(rest.name, !Dropped(rest.value), from);
      assert 0 < Length(rest) && ValueAt(rest, 0) == rest.value;
      assert ValueAt(all, from + 0) == ValueAt(rest, 0);
      AssignIsBuilt(all, record, e);
      assert IsRest(all, rest.rest, from + 1) by {
        forall i | 0 <= i < Length(rest.rest) ensures ValueAt(all, from + 1 + i) == ValueAt(rest.rest, i) {
          assert ValueAt(rest, i + 1) == ValueAt(rest.rest, i) && ValueAt(all, from + (i + 1)) == ValueAt(rest, i + 1);
        }
      }
      RecordIsBuilt(all, Assign(record, e), rest.rest, from + 1);
      assert Entries(rest, from)[1..] == Entries(rest.rest, from + 1);
    }
  }

  // ----- texts of members -----

  /** The text of a member's value as it stands, and as it comes out of a record. */
  function DirectText(p: Printers, v: Bson.Value, depth: nat): Buffer {
    var r := Filter(p, v, depth, false);
    if r.Success? then Print(r.value) else []
  }

  function DecodedText(p: Printers, v: Bson.Value, depth: nat): Buffer {
    var r := Filter(p, Decoded(v), depth, false);
    if r.Success? then Print(Refined(r.value)) else []
  }

  function DirectTexts(p: Printers, fields: Bson.Fields, depth: nat): (r: seq<Buffer>)
    ensures |r| == Length(fields) && forall i :: 0 <= i < |r| ==> r[i] == DirectText(p, ValueAt(fields, i), depth)
  {
    seq(Length(fields), i requires 0 <= i < Length(fields) => DirectText(p, ValueAt(fields, i), depth))
  }

  function DecodedTexts(p: Printers, fields: Bson.Fields, depth: nat): (r: seq<Buffer>)
    ensures |r| == Length(fields) && forall i :: 0 <= i < |r| ==> r[i] == DecodedText(p, ValueAt(fields, i), depth)
  {
    seq(Length(fields), i requires 0 <= i < Length(fields) => DecodedText(p, ValueAt(fields, i), depth))
  }

  lemma DroppedIsUndefined(p: Printers, v: Bson.Value, depth: nat)
    requires Filter(p, v, depth, false).Success?
    ensures Filter(p, v, depth, false).value.Undefined? <==> Dropped(v)
  {
  }

  lemma DecodedIsDropped(p: Printers, v: Bson.Value, depth: nat)
    requires Filter(p, Decoded(v), depth, false).Success?
    ensures Refined(Filter(p, Decoded(v), depth, false).value).Undefined? <==> Dropped(v)
  {
    DroppedIsUndefined(p, Decoded(v), depth);
  }

  lemma {:induction false} DirectJoin(p: Printers, all: Bson.Fields, rest: Bson.Fields, from: nat, depth: nat, first: bool)
    requires IsRest(all, rest, from) && FilterMembers(p, rest, depth, false).Success?
    ensures Within(Printed(Entries(rest, from), false), DirectTexts(p, all, depth))
    ensures PrintMembers(FilterMembers(p, rest, depth, false).value, first)
         == Join(Printed(Entries(rest, from), false), DirectTexts(p, all, depth), first)
    decreases rest
  {
    if rest.Field? {
      RestOfRest(all, rest, from);
      DroppedIsUndefined(p, rest.value, depth);
      assert Entries(rest, from)[1..] == Entries(rest.rest, from + 1);
      DirectJoin(p, all, rest.rest, from + 1, depth, if Dropped(rest.value) then first else false);
      var value := Filter(p, rest.value, depth, false).value;
      assert DirectTexts(p, all, depth)[from] == Print(value);
      PrintDirect(rest.name, value, FilterMembers(p, rest.rest, depth, false).value, first);
      JoinPrinted(Entries(rest, from), DirectTexts(p, all, depth), first, false);
    }
  }

  lemma PrintDirect(name: Buffer, value: Json, rest: Members, first: bool)
    ensures PrintMembers(Member(name, value, rest), first)
         == if value.Undefined? then PrintMembers(rest, first)
            else Comma(first) + (Quoted(name) + [0x3a] + Print(value)) + PrintMembers(rest, false)
  {
    Together(Comma(first), Quoted(name), [0x3a], Print(value));
  }

  lemma RestOfRest(all: Bson.Fields, rest: Bson.Fields, from: nat)
    requires IsRest(all, rest, from) && rest.Field?
    ensures IsRest(all, rest.rest, from + 1) && from < Length(all) && ValueAt(all, from) == rest.value
  {
    assert ValueAt(all, from + 0) == ValueAt(rest, 0);
    forall i | 0 <= i < Length(rest.rest) ensures ValueAt(all, from + 1 + i) == ValueAt(rest.rest, i) {
      assert ValueAt(rest, i + 1) == ValueAt(rest.rest, i) && ValueAt(all, from + (i + 1)) == ValueAt(rest, i + 1);
    }
  }

  /** The members of a record all pass the filter when the members of the document do. */
  ghost predicate AllPass(p: Printers, all: Bson.Fields, record: seq<Entry>, depth: nat)
    requires InFields(all, record)
  {
    forall i :: 0 <= i < |record| ==> Filter(p, Decoded(ValueAt(all, record[i].index)), depth, false).Success?
  }

  lemma {:induction false} RecordPasses(p: Printers, all: Bson.Fields, record: seq<Entry>, depth: nat)
    requires InFields(all, record) && AllPass(p, all, record, depth)
    ensures FilterMembers(p, Built(all, record), depth, false).Success?
    ensures record != [] ==> InFields(all, record[1..]) && AllPass(p, all, record[1..], depth)
    decreases |record|
  {
    if record != [] {
      RecordPasses(p, all, record[1..], depth);
    }
  }

  lemma BuiltFirst(p: Printers, all: Bson.Fields, record: seq<Entry>, depth: nat)
    requires record != [] && InFields(all, record) && AllPass(p, all, record, depth)
    ensures InFields(all, record[1..]) && AllPass(p, all, record[1..], depth)
    ensures FilterMembers(p, Built(all, record[1..]), depth, false).Success?
    ensures FilterMembers(p, Built(all, record), depth, false)
         == Success(Member(record[0].name, Filter(p, Decoded(ValueAt(all, record[0].index)), depth, false).value,
                           FilterMembers(p, Built(all, record[1..]), depth, false).value))
  {
    RecordPasses(p, all, record, depth);
  }

  lemma {:induction false} RecordJoin(p: Printers, all: Bson.Fields, record: seq<Entry>, depth: nat, first: bool)
    requires InFields(all, record) && AllPass(p, all, record, depth)
    ensures FilterMembers(p, Built(all, record), depth, false).Success?
    ensures Within(Printed(record, true), DecodedTexts(p, all, depth))
    ensures PrintMembers(RefinedMembers(FilterMembers(p, Built(all, record), depth, false).value), first)
         == Join(Printed(record, true), DecodedTexts(p, all, depth), first)
    decreases |record|
  {
    if record != [] {
      var e := record[0];
      var v := ValueAt(all, e.index);
      BuiltFirst(p, all, record, depth);
      DecodedIsDropped(p, v, depth);
      RecordJoin(p, all, record[1..], depth, if Shows(e, true) then false else first);
      var value := Filter(p, Decoded(v), depth, false).value;
      assert DecodedTexts(p, all, depth)[e.index] == Print(Refined(value));
      PrintRefined(e.name, value, FilterMembers(p, Built(all, record[1..]), depth, false).value, first);
      JoinPrinted(record, DecodedTexts(p, all, depth), first, true);
    }
  }

  predicate Shows(e: Entry, ofRecord: bool) {
    e.kept && !(ofRecord && e.name == ProtoName)
  }

  lemma PrintRefined(name: Buffer, value: Json, rest: Members, first: bool)
    ensures PrintMembers(RefinedMembers(Member(name, value, rest)), first)
         == if name == ProtoName || Refined(value).Undefined? then PrintMembers(RefinedMembers(rest), first)
            else Comma(first) + (Quoted(name) + [0x3a] + Print(Refined(value))) + PrintMembers(RefinedMembers(rest), false)
  {
    Together(Comma(first), Quoted(name), [0x3a], Print(Refined(value)));
  }

  lemma Together(a: Buffer, b: Buffer, c: Buffer, d: Buffer)
    ensures a + b + c + d == a + (b + c + d)
  {
  }

  lemma JoinPrinted(entries: seq<Entry>, texts: seq<Buffer>, first: bool, ofRecord: bool)
    requires entries != [] && Within(Printed(entries[1..], ofRecord), texts) && entries[0].index < |texts|
    ensures Within(Printed(entries, ofRecord), texts)
    ensures Join(Printed(entries, ofRecord), texts, first)
         == if Shows(entries[0], ofRecord)
            then Comma(first) + (Quoted(entries[0].name) + [0x3a] + texts[entries[0].index]) + Join(Printed(entries[1..], ofRecord), texts, false)
            else Join(Printed(entries[1..], ofRecord), texts, first)
  {
    var later := Printed(entries[1..], ofRecord);
    assert !Shows(entries[0], ofRecord) ==> [] + later == later;
    assert ([entries[0]] + later)[1..] == later;
  }

  // ----- values -----

  ghost predicate Agrees(p: Printers, v: Bson.Value, depth: nat) {
    && Filter(p, Decoded(v), depth, false).Success?
    && |DecodedText(p, v, depth)| <= |DirectText(p, v, depth)|
    && (DecodedText(p, v, depth) == DirectText(p, v, depth) <==> Normal(v))
  }

  ghost predicate DocumentAgrees(p: Printers, fields: Bson.Fields, depth: nat)
    requires FilterDocument(p, fields, depth, false).Success?
  {
    && FilterDocument(p, Record(Bson.End, fields), depth, false).Success?
    && var direct := Print(FilterDocument(p, fields, depth, false).value);
       var recorded := Print(Refined(FilterDocument(p, Record(Bson.End, fields), depth, false).value));
       |recorded| <= |direct| && (recorded == direct <==> NormalDocument(fields))
  }

  ghost predicate ItemsAgree(p: Printers, fields: Bson.Fields, depth: nat, first: bool)
    requires FilterItems(p, fields, depth, false).Success?
  {
    && FilterItems(p, DecodedItems(fields), depth, false).Success?
    && var direct := PrintItems(FilterItems(p, fields, depth, false).value, first);
       var recorded := PrintItems(RefinedItems(FilterItems(p, DecodedItems(fields), depth, false).value), first);
       |recorded| <= |direct| && (recorded == direct <==> NormalValues(fields))
  }

  lemma {:induction false} ValueAgrees(p: Printers, v: Bson.Value, depth: nat)
    requires Filter(p, v, depth, false).Success?
    ensures Agrees(p, v, depth)
    decreases v, 0
  {
    match v
    case Document(fields) => RecordAgrees(p, fields, depth);
    case Array(fields) =>
      AllItemsAgree(p, fields, depth + 1, true);
      AroundIff([0x5b], PrintItems(RefinedItems(FilterItems(p, DecodedItems(fields), depth + 1, false).value), true),
                PrintItems(FilterItems(p, fields, depth + 1, false).value, true), [0x5d]);
    case CodeWithScope(text, scope) =>
      RecordAgrees(p, scope, depth);
      ScopeAgrees(p, text, scope, depth);
    case _ => ScalarIsRefined(p, v);
  }

  /** Text around two texts decides nothing. */
  lemma AroundIff(head: Buffer, a: Buffer, b: Buffer, tail: Buffer)
    ensures |a| <= |b| <==> |head + a + tail| <= |head + b + tail|
    ensures a == b <==> head + a + tail == head + b + tail
  {
    if head + a + tail == head + b + tail {
      assert a == (head + a + tail)[|head|..|head| + |a|];
      assert b == (head + b + tail)[|head|..|head| + |b|];
    }
  }

  lemma NamesAreNotProto()
    ensures CodeName != ProtoName && ScopeName != ProtoName && CollectionName != ProtoName && OidName != ProtoName
    ensures DbName != ProtoName && FieldsName != ProtoName && PatternName != ProtoName && OptionsName != ProtoName
  {
    assert |ProtoName| == 9 && |CodeName| == 4 && |ScopeName| == 5 && |CollectionName| == 10 && |OidName| == 3 && |DbName| == 2;
    assert |FieldsName| == 6 && |PatternName| == 7 && |OptionsName| == 7;
  }

  lemma OneMember(name: Buffer, value: Json, rest: Members)
    requires name != ProtoName
    ensures RefinedMembers(Member(name, value, rest)) == Member(name, Refined(value), RefinedMembers(rest))
  {
  }

  lemma ScalarIsRefined(p: Printers, v: Bson.Value)
    requires !v.Document? && !v.Array? && !v.CodeWithScope?
    ensures Scalar(p, v).Success? ==> Refined(Scalar(p, v).value) == Scalar(p, v).value
  {
    NamesAreNotProto();
    match v
    case DbPointer(name, id) => PointerIsRefined(name, id);
    case Regex(pattern, options) =>
      OneMember(OptionsName, String(options), NoMembers);
      OneMember(PatternName, String(pattern), Member(OptionsName, String(options), NoMembers));
    case Code(text) => CodeIsRefined(text, Null);
    case _ =>
  }

  lemma CodeIsRefined(text: Buffer, scope: Json)
    ensures Refined(CodeJson(text, scope)) == CodeJson(text, Refined(scope))
  {
    NamesAreNotProto();
    OneMember(ScopeName, scope, NoMembers);
    OneMember(CodeName, String(text), Member(ScopeName, scope, NoMembers));
  }

  lemma PointerIsRefined(name: Buffer, id: Buffer)
    ensures Refined(PointerJson(name, id)) == PointerJson(name, id)
  {
    NamesAreNotProto();
    var dot := DotIndex(name);
    var collection := if dot < |name| then name[dot + 1..] else name;
    var tail, fields := PointerTail(name), Member(FieldsName, Object(NoMembers), NoMembers);
    OneMember(FieldsName, Object(NoMembers), NoMembers);
    assert RefinedMembers(fields) == fields;
    if dot < |name| {
      OneMember(DbName, String(name[..dot]), fields);
    }
    assert RefinedMembers(tail) == tail;
    OneMember(OidName, String(HexAll(id)), tail);
    OneMember(CollectionName, String(collection), Member(OidName, String(HexAll(id)), tail));
  }

  function CodeHead(text: Buffer): Buffer {
    [0x7b] + (Quoted(CodeName) + [0x3a] + Quoted(text)) + ([0x2c] + (Quoted(ScopeName) + [0x3a]))
  }

  lemma CodePrints(text: Buffer, scope: Json)
    requires !scope.Undefined?
    ensures Print(CodeJson(text, scope)) == CodeHead(text) + Print(scope) + [0x7d]
  {
    var last := Member(ScopeName, scope, NoMembers);
    PrintDirect(CodeName, String(text), last, true);
    PrintDirect(ScopeName, scope, NoMembers, false);
    ScopeGroups(Quoted(CodeName) + [0x3a] + Quoted(text), Quoted(ScopeName) + [0x3a], Print(scope));
  }

  lemma ScopeGroups(a: Buffer, b: Buffer, c: Buffer)
    ensures [0x7b] + ([] + a + ([0x2c] + (b + c) + [])) + [0x7d] == [0x7b] + a + ([0x2c] + b) + c + [0x7d]
  {
  }

  lemma ScopeAgrees(p: Printers, text: Buffer, scope: Bson.Fields, depth: nat)
    requires FilterDocument(p, scope, depth, false).Success? && DocumentAgrees(p, scope, depth)
    ensures Agrees(p, Bson.CodeWithScope(text, scope), depth)
  {
    var direct := FilterDocument(p, scope, depth, false).value;
    var recorded := FilterDocument(p, Record(Bson.End, scope), depth, false).value;
    assert Filter(p, Decoded(Bson.CodeWithScope(text, scope)), depth, false) == Success(CodeJson(text, recorded));
    CodeIsRefined(text, recorded);
    CodePrints(text, direct);
    CodePrints(text, Refined(recorded));
    AroundIff(CodeHead(text), Print(Refined(recorded)), Print(direct), [0x7d]);
  }

  lemma {:induction false} AllItemsAgree(p: Printers, fields: Bson.Fields, depth: nat, first: bool)
    requires FilterItems(p, fields, depth, false).Success?
    ensures ItemsAgree(p, fields, depth, first)
    decreases fields, 0
  {
    if fields.Field? {
      ValueAgrees(p, fields.value, depth);
      AllItemsAgree(p, fields.rest, depth, false);
      DroppedIsUndefined(p, fields.value, depth);
      DecodedIsDropped(p, fields.value, depth);
      PairIff(Comma(first), ItemText(Refined(Filter(p, Decoded(fields.value), depth, false).value)),
              ItemText(Filter(p, fields.value, depth, false).value),
              PrintItems(RefinedItems(FilterItems(p, DecodedItems(fields.rest), depth, false).value), false),
              PrintItems(FilterItems(p, fields.rest, depth, false).value, false));
    }
  }

  function ItemText(j: Json): Buffer {
    if j.Undefined? then NullText else Print(j)
  }

  /** Two texts, neither longer than the other two, join to the same only if both are the same. */
  lemma PairIff(head: Buffer, a: Buffer, b: Buffer, x: Buffer, y: Buffer)
    requires |a| <= |b| && |x| <= |y|
    ensures |head + a + x| <= |head + b + y|
    ensures head + a + x == head + b + y <==> a == b && x == y
  {
    if head + a + x == head + b + y {
      assert |a| == |b|;
      assert a == (head + a + x)[|head|..|head| + |a|] && b == (head + b + y)[|head|..|head| + |b|];
      assert x == (head + a + x)[|head| + |a|..] && y == (head + b + y)[|head| + |b|..];
    }
  }

  ghost predicate Same(p: Printers, v: Bson.Value, depth: nat) {
    Dropped(v) || DecodedText(p, v, depth) == DirectText(p, v, depth)
  }

  ghost predicate EachSame(p: Printers, fields: Bson.Fields, depth: nat) {
    fields.Field? ==> Same(p, fields.value, depth) && EachSame(p, fields.rest, depth)
  }

  /** Value by value; the kept ones have the same texts exactly when all are normal: what is dropped has no parts. */
  lemma {:induction false} EachAgrees(p: Printers, fields: Bson.Fields, depth: nat)
    requires FilterMembers(p, fields, depth, false).Success?
    ensures forall i :: 0 <= i < Length(fields) ==> Agrees(p, ValueAt(fields, i), depth)
    ensures EachSame(p, fields, depth) <==> NormalValues(fields)
    decreases fields, 0
  {
    if fields.Field? {
      ValueAgrees(p, fields.value, depth);
      EachAgrees(p, fields.rest, depth);
      forall i | 0 <= i < Length(fields) ensures Agrees(p, ValueAt(fields, i), depth) {
        assert i > 0 ==> ValueAt(fields, i) == ValueAt(fields.rest, i - 1);
      }
      assert Dropped(fields.value) ==> Normal(fields.value);
    }
  }

  lemma {:induction false} EachSameAt(p: Printers, fields: Bson.Fields, depth: nat)
    ensures EachSame(p, fields, depth) <==> forall i :: 0 <= i < Length(fields) ==> Same(p, ValueAt(fields, i), depth)
  {
    if fields.Field? {
      EachSameAt(p, fields.rest, depth);
      assert ValueAt(fields, 0) == fields.value;
      if EachSame(p, fields, depth) {
        forall i | 0 <= i < Length(fields) ensures Same(p, ValueAt(fields, i), depth) {
          assert i > 0 ==> ValueAt(fields, i) == ValueAt(fields.rest, i - 1);
        }
      } else if Same(p, fields.value, depth) {
        var i :| 0 <= i < Length(fields.rest) && !Same(p, ValueAt(fields.rest, i), depth);
        assert ValueAt(fields, i + 1) == ValueAt(fields.rest, i);
      } else {
        assert !Same(p, ValueAt(fields, 0), depth);
      }
    }
  }

  lemma EntriesAreNumbered(fields: Bson.Fields)
    ensures |Entries(fields, 0)| == Length(fields) && Numbered(Entries(fields, 0))
    ensures forall i :: 0 <= i < Length(fields) ==> Entries(fields, 0)[i].kept == !Dropped(ValueAt(fields, i))
  {
    EntriesLength(fields, 0);
    forall i | 0 <= i < Length(fields)
      ensures Entries(fields, 0)[i].index == i && Entries(fields, 0)[i].kept == !Dropped(ValueAt(fields, i))
    {
      EntryAt(fields, 0, i);
    }
  }

  lemma {:induction false} RecordAgrees(p: Printers, fields: Bson.Fields, depth: nat)
    requires FilterDocument(p, fields, depth, false).Success?
    ensures DocumentAgrees(p, fields, depth)
    decreases fields, 1
  {
    EachAgrees(p, fields, depth + 1);
    MembersAgree(p, fields, depth + 1);
    AroundIff([0x7b], PrintMembers(RefinedMembers(FilterMembers(p, Record(Bson.End, fields), depth + 1, false).value), true),
              PrintMembers(FilterMembers(p, fields, depth + 1, false).value, true), [0x7d]);
  }

  /** Members whose values agree one by one agree as a record. */
  lemma MembersAgree(p: Printers, fields: Bson.Fields, depth: nat)
    requires FilterMembers(p, fields, depth, false).Success?
    requires forall i :: 0 <= i < Length(fields) ==> Agrees(p, ValueAt(fields, i), depth)
    requires EachSame(p, fields, depth) <==> NormalValues(fields)
    ensures FilterMembers(p, Record(Bson.End, fields), depth, false).Success?
    ensures var direct := PrintMembers(FilterMembers(p, fields, depth, false).value, true);
            var recorded := PrintMembers(RefinedMembers(FilterMembers(p, Record(Bson.End, fields), depth, false).value), true);
            |recorded| <= |direct| && (recorded == direct <==> NormalDocument(fields))
  {
    var entries := Entries(fields, 0);
    var record := AssignAll([], entries);
    RecordIsBuilt(fields, [], fields, 0);
    RecordOfAll(entries);
    EntriesAreNumbered(fields);
    DirectJoin(p, fields, fields, 0, depth, true);
    RecordJoin(p, fields, record, depth, true);
    JoinIff(entries, record, DirectTexts(p, fields, depth), DecodedTexts(p, fields, depth));
    KeptTexts(p, fields, depth);
  }

  lemma RecordOfAll(entries: seq<Entry>)
    ensures IsRecord(entries, AssignAll([], entries))
  {
    AssignAllIsRecord([], [], entries);
    assert [] + entries == entries;
  }

  lemma KeptTexts(p: Printers, fields: Bson.Fields, depth: nat)
    ensures |Entries(fields, 0)| == Length(fields)
    ensures (forall i :: 0 <= i < Length(fields) && Entries(fields, 0)[i].kept ==> DecodedTexts(p, fields, depth)[i] == DirectTexts(p, fields, depth)[i])
            <==> EachSame(p, fields, depth)
  {
    EntriesAreNumbered(fields);
    EachSameAt(p, fields, depth);
    var entries, texts, texts' := Entries(fields, 0), DirectTexts(p, fields, depth), DecodedTexts(p, fields, depth);
    if EachSame(p, fields, depth) {
      forall i | 0 <= i < Length(fields) && entries[i].kept ensures texts'[i] == texts[i] {
        assert Same(p, ValueAt(fields, i), depth);
      }
    } else {
      var i :| 0 <= i < Length(fields) && !Same(p, ValueAt(fields, i), depth);
      assert entries[i].kept && texts'[i] != texts[i];
    }
  }

  // ----- errors -----

  /** Every kept value passes the filter once decoded. */
  ghost predicate KeptPass(p: Printers, fields: Bson.Fields, depth: nat) {
    fields.Field? ==> (Dropped(fields.value) || Filter(p, Decoded(fields.value), depth, false).Success?) && KeptPass(p, fields.rest, depth)
  }

  /** In a normal value nothing is assigned over, so that what the record's filter accepts, the direct one does. */
  lemma {:induction false} NormalPasses(p: Printers, v: Bson.Value, depth: nat)
    requires Normal(v) && Filter(p, Decoded(v), depth, false).Success?
    ensures Filter(p, v, depth, false).Success?
    decreases v, 0
  {
    match v
    case Document(fields) => NormalDocumentPasses(p, fields, depth);
    case Array(fields) => NormalItemsPass(p, fields, depth + 1);
    case CodeWithScope(_, scope) => NormalDocumentPasses(p, scope, depth);
    case _ =>
  }

  lemma {:induction false} NormalItemsPass(p: Printers, fields: Bson.Fields, depth: nat)
    requires NormalValues(fields) && FilterItems(p, DecodedItems(fields), depth, false).Success?
    ensures FilterItems(p, fields, depth, false).Success?
    decreases fields, 0
  {
    if fields.Field? {
      NormalPasses(p, fields.value, depth);
      NormalItemsPass(p, fields.rest, depth);
    }
  }

  lemma {:induction false} NormalDocumentPasses(p: Printers, fields: Bson.Fields, depth: nat)
    requires NormalDocument(fields) && FilterDocument(p, Record(Bson.End, fields), depth, false).Success?
    ensures FilterDocument(p, fields, depth, false).Success?
    decreases fields, 1
  {
    RecordKeepsAll(p, fields, depth + 1);
    NormalMembersPass(p, fields, depth + 1);
  }

  lemma {:induction false} NormalMembersPass(p: Printers, fields: Bson.Fields, depth: nat)
    requires NormalValues(fields) && KeptPass(p, fields, depth)
    ensures FilterMembers(p, fields, depth, false).Success?
    decreases fields, 0
  {
    if fields.Field? {
      if !Dropped(fields.value) {
        NormalPasses(p, fields.value, depth);
      }
      NormalMembersPass(p, fields.rest, depth);
    }
  }

  lemma {:induction false} BuiltPasses(p: Printers, all: Bson.Fields, record: seq<Entry>, depth: nat)
    requires InFields(all, record) && FilterMembers(p, Built(all, record), depth, false).Success?
    ensures AllPass(p, all, record, depth)
    decreases |record|
  {
    if record != [] {
      BuiltPasses(p, all, record[1..], depth);
      forall i | 0 <= i < |record| ensures Filter(p, Decoded(ValueAt(all, record[i].index)), depth, false).Success? {
        assert i > 0 ==> record[i] == record[1..][i - 1];
      }
    }
  }

  /** The record of members in order has every kept one. */
  lemma RecordKeepsAll(p: Printers, fields: Bson.Fields, depth: nat)
    requires InOrder(Entries(fields, 0)) && FilterMembers(p, Record(Bson.End, fields), depth, false).Success?
    ensures KeptPass(p, fields, depth)
  {
    var entries := Entries(fields, 0);
    var record := AssignAll([], entries);
    RecordIsBuilt(fields, [], fields, 0);
    RecordOfAll(entries);
    BuiltPasses(p, fields, record, depth);
    EntriesAreNumbered(fields);
    forall i | 0 <= i < Length(fields) ensures Dropped(ValueAt(fields, i)) || Filter(p, Decoded(ValueAt(fields, i)), depth, false).Success? {
      if entries[i].kept {
        assert IsLast(entries, i) && entries[i] in record;
        var j :| 0 <= j < |record| && record[j] == entries[i];
        assert record[j].index == i;
      }
    }
    KeptPassAt(p, fields, depth);
  }

  lemma {:induction false} KeptPassAt(p: Printers, fields: Bson.Fields, depth: nat)
    requires forall i :: 0 <= i < Length(fields) ==> Dropped(ValueAt(fields, i)) || Filter(p, Decoded(ValueAt(fields, i)), depth, false).Success?
    ensures KeptPass(p, fields, depth)
  {
    if fields.Field? {
      assert ValueAt(fields, 0) == fields.value;
      forall i | 0 <= i < Length(fields.rest)
        ensures Dropped(ValueAt(fields.rest, i)) || Filter(p, Decoded(ValueAt(fields.rest, i)), depth, false).Success?
      {
        assert ValueAt(fields, i + 1) == ValueAt(fields.rest, i);
      }
      KeptPassAt(p, fields.rest, depth);
    }
  }

  // ----- columns -----

  /** Whenever the simple form accepts a column that has no document with both names of a database reference,
      its text is the text of the members as they stand, if and only if the kept members of every document in
      it are in order. */
  lemma ColumnAgreesIff(p: Printers, fields: Bson.Fields, isArray: bool)
    requires PlainColumn(fields, isArray) && SimpleColumn(p, fields, isArray).Success?
    ensures var direct := FilterColumn(p, fields, isArray, false);
            direct.Success? && Print(direct.value) == Print(SimpleColumn(p, fields, isArray).value) <==> NormalColumn(fields, isArray)
  {
    if isArray { PlainItems(p, fields); } else { PlainRecord(p, Bson.End, fields); }
    StrictColumn(p, if isArray then DecodedItems(fields) else Record(Bson.End, fields), isArray);
    if isArray {
      ArrayAgreesIff(p, fields);
    } else {
      if NormalDocument(fields) {
        NormalDocumentPasses(p, fields, 0);
      }
      if FilterDocument(p, fields, 0, false).Success? {
        RecordAgrees(p, fields, 0);
      }
    }
  }

  lemma ArrayAgreesIff(p: Printers, fields: Bson.Fields)
    requires FilterArray(p, DecodedItems(fields), 0, false).Success?
    ensures var direct := FilterArray(p, fields, 0, false);
            direct.Success? && Print(direct.value) == Print(Refined(FilterArray(p, DecodedItems(fields), 0, false).value)) <==> NormalValues(fields)
  {
    if NormalValues(fields) {
      NormalItemsPass(p, fields, 1);
    }
    if FilterItems(p, fields, 1, false).Success? {
      AllItemsAgree(p, fields, 1, true);
      AroundIff([0x5b], PrintItems(RefinedItems(FilterItems(p, DecodedItems(fields), 1, false).value), true),
                PrintItems(FilterItems(p, fields, 1, false).value, true), [0x5d]);
    }
  }

  /** An integer name after another one, and a name that comes twice: the record is not what stands there. */
  lemma RecordsReorder(one: Bson.Value, two: Bson.Value)
    requires !Dropped(one) && !Dropped(two)
    ensures !NormalDocument(Bson.Field([0x62], one, Bson.Field([0x31], two, Bson.End)))
    ensures !NormalDocument(Bson.Field([0x61], one, Bson.Field([0x61], two, Bson.End)))
  {
    var swapped := Entries(Bson.Field([0x62], one, Bson.Field([0x31], two, Bson.End)), 0);
    TwoEntries([0x62], one, [0x31], two);
    assert [0x31][..0] == [] && Decimal([0x31]) == 1;
    assert IsIndex(swapped[1].name) && !IsDigit(swapped[0].name[0]) && !IsIndex(swapped[0].name);
    assert !Lt(swapped, swapped[0].name, swapped[1].name);
    var twice := Entries(Bson.Field([0x61], one, Bson.Field([0x61], two, Bson.End)), 0);
    TwoEntries([0x61], one, [0x61], two);
    assert twice[1].name == twice[0].name && !IsLast(twice, 0);
  }

  lemma TwoEntries(a: Buffer, x: Bson.Value, b: Buffer, y: Bson.Value)
    ensures Entries(Bson.Field(a, x, Bson.Field(b, y, Bson.End)), 0) == [Entry(a, !Dropped(x), 0), Entry(b, !Dropped(y), 1)]
  {
    assert Entries(Bson.Field(b, y, Bson.End), 1) == [Entry(b, !Dropped(y), 1)];
  }
}
