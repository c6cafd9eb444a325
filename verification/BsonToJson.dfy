/** The fast path: BSON bytes to JSON text in one pass over the document, with undefined members rolled
    back. */
module BsonToJson {
  import opened Bytes
  import opened JsonText
  import opened JsonWriter
  import Bson
  import opened SimpleForm
  import opened Wrappers

  /** Where a value ends, and whether it left any text. */
  datatype Element = Element(next: nat, defined: bool)

  ghost predicate IsValue(bytes: Buffer, offset: nat, kind: Byte, v: Bson.Value) {
    Bson.WellFormed(v) && kind == Bson.TypeOf(v) && At(bytes, offset, Bson.Payload(v))
  }

  ghost predicate IsDocument(bytes: Buffer, offset: nat, fields: Bson.Fields) {
    Bson.WellFormedFields(fields) && At(bytes, offset, Bson.DocumentBytes(fields))
  }

  /** The outcome of writing a value: the text appended is the print of what the filter gives, the end
      is the value's end, and errors are the filter's. */
  ghost predicate Agrees(expected: Result<Json, Error>, before: Buffer, after: Buffer, end: nat, r: Result<Element, Error>) {
    match expected
    case Failure(e) => r == Failure(e)
    case Success(j) => r == Success(Element(end, !j.Undefined?)) && after == before + Print(j)
  }

  // ----- values without parts -----

  function Slice(bytes: Buffer, offset: nat, n: nat): Option<Buffer> {
    if offset + n <= |bytes| then Some(bytes[offset..offset + n]) else None
  }

  method SerializeNumber(p: Printers, bytes: Buffer, offset: nat, kind: Byte, writer: JsonBufferWriter, ghost v: Bson.Value)
    returns (r: Result<Element, Error>)
    requires writer.Valid() && (kind == 0x01 || kind == 0x08 || kind == 0x10 || kind == 0x11 || kind == 0x12)
    modifies writer, writer.buffer
    ensures writer.Valid() && (writer.buffer == old(writer.buffer) || fresh(writer.buffer))
    ensures IsValue(bytes, offset, kind, v) ==>
              Agrees(Scalar(p, v), old(writer.Contents()), writer.Contents(), offset + |Bson.Payload(v)|, r)
  {
    var size: nat := if kind == 0x08 then 1 else if kind == 0x10 then 4 else 8;
    var bits := Slice(bytes, offset, size);
    if bits.None? {
      return Failure(Malformed);
    }
    writer.WriteBytes(NumberText(p, kind, bits.value));
    if IsValue(bytes, offset, kind, v) {
      NumberPrints(p, bytes, offset, kind, v);
    }
    return Success(Element(offset + size, true));
  }

  function NumberText(p: Printers, kind: Byte, bits: Buffer): Buffer
    requires bits != []
  {
    if kind == 0x01 then if p.double(bits).None? then NullText else p.double(bits).value
    else if kind == 0x08 then if bits[0] != 0 then [0x31] else [0x30]
    else if kind == 0x10 then p.int32(bits)
    else if kind == 0x11 then p.timestamp(bits)
    else p.int64(bits)
  }

  lemma NumberPrints(p: Printers, bytes: Buffer, offset: nat, kind: Byte, v: Bson.Value)
    requires IsValue(bytes, offset, kind, v) && (kind == 0x01 || kind == 0x08 || kind == 0x10 || kind == 0x11 || kind == 0x12)
    ensures |Bson.Payload(v)| == (if kind == 0x08 then 1 else if kind == 0x10 then 4 else 8)
    ensures Scalar(p, v).Success? && !Scalar(p, v).value.Undefined?
    ensures Print(Scalar(p, v).value) == NumberText(p, kind, bytes[offset..offset + |Bson.Payload(v)|])
  {
  }

  method WriteDate(p: Printers, bits: Buffer, writer: JsonBufferWriter) returns (failed: bool)
    requires writer.Valid() && Usable(p)
    modifies writer, writer.buffer
    ensures writer.Valid() && (writer.buffer == old(writer.buffer) || fresh(writer.buffer))
    ensures failed == DateJson(p, bits).Failure?
    ensures !failed ==> writer.Contents() == old(writer.Contents()) + Print(DateJson(p, bits).value)
  {
    match p.date(bits) {
      case InvalidTime =>
        return true;
      case Common(t) =>
        DateTimeIsPlain(t, p.separator, p.milliseconds);
        Assoc(writer.Contents(), [DQuote], DateTimeText(t, p.separator, p.milliseconds), [DQuote]);
        writer.WriteDateTime(t, true, p.separator, p.milliseconds);
      case Extended(text) =>
        writer.WriteQuotedJsonString(text);
    }
    return false;
  }

  method SerializeDate(p: Printers, bytes: Buffer, offset: nat, writer: JsonBufferWriter, ghost v: Bson.Value)
    returns (r: Result<Element, Error>)
    requires writer.Valid() && Usable(p)
    modifies writer, writer.buffer
    ensures writer.Valid() && (writer.buffer == old(writer.buffer) || fresh(writer.buffer))
    ensures IsValue(bytes, offset, 0x09, v) ==>
              Agrees(Scalar(p, v), old(writer.Contents()), writer.Contents(), offset + |Bson.Payload(v)|, r)
  {
    var bits := Slice(bytes, offset, 8);
    if bits.None? {
      return Failure(Malformed);
    }
    var failed := WriteDate(p, bits.value, writer);
    return if failed then Failure(InvalidDate) else Success(Element(offset + 8, true));
  }

  method SerializeString(p: Printers, bytes: Buffer, offset: nat, kind: Byte, writer: JsonBufferWriter, ghost v: Bson.Value)
    returns (r: Result<Element, Error>)
    requires writer.Valid() && (kind == 0x02 || kind == 0x0e)
    modifies writer, writer.buffer
    ensures writer.Valid() && (writer.buffer == old(writer.buffer) || fresh(writer.buffer))
    ensures IsValue(bytes, offset, kind, v) ==>
              Agrees(Scalar(p, v), old(writer.Contents()), writer.Contents(), offset + |Bson.Payload(v)|, r)
  {
    if IsValue(bytes, offset, kind, v) {
      TextReadsBack(bytes, offset, v.text);
    }
    r := SerializeQuoted(bytes, offset, writer);
  }

  method SerializeQuoted(bytes: Buffer, offset: nat, writer: JsonBufferWriter) returns (r: Result<Element, Error>)
    requires writer.Valid()
    modifies writer, writer.buffer
    ensures writer.Valid() && (writer.buffer == old(writer.buffer) || fresh(writer.buffer))
    ensures var value := ReadText(bytes, offset);
            if value.None? then r == Failure(Malformed)
            else Agrees(Success(String(value.value.0)), old(writer.Contents()), writer.Contents(), value.value.1, r)
  {
    var end := Bson.StringEnd(bytes, offset);
    if end.None? {
      return Failure(Malformed);
    }
    writer.WriteQuotedUtf8Slice(bytes, offset + 4, end.value - 1);
    return Success(Element(end.value, true));
  }

  method SerializeFixed(p: Printers, bytes: Buffer, offset: nat, kind: Byte, writer: JsonBufferWriter, ghost v: Bson.Value)
    returns (r: Result<Element, Error>)
    requires writer.Valid() && (kind == 0x07 || kind == 0x13)
    modifies writer, writer.buffer
    ensures writer.Valid() && (writer.buffer == old(writer.buffer) || fresh(writer.buffer))
    ensures IsValue(bytes, offset, kind, v) ==>
              Agrees(Scalar(p, v), old(writer.Contents()), writer.Contents(), offset + |Bson.Payload(v)|, r)
  {
    var size: nat := if kind == 0x07 then 12 else 16;
    var bits := Slice(bytes, offset, size);
    if bits.None? {
      return Failure(Malformed);
    }
    if kind == 0x07 {
      WriteHex(bytes, offset, 12, writer);
    } else {
      writer.WriteQuotedJsonString(p.decimal128(bits.value));
    }
    return Success(Element(offset + size, true));
  }

  method WriteHex(bytes: Buffer, offset: nat, size: nat, writer: JsonBufferWriter)
    requires writer.Valid() && offset + size <= |bytes|
    modifies writer, writer.buffer
    ensures writer.Valid() && (writer.buffer == old(writer.buffer) || fresh(writer.buffer))
    ensures writer.Contents() == old(writer.Contents()) + Quoted(HexAll(bytes[offset..offset + size]))
  {
    ghost var text := HexAll(bytes[offset..offset + size]);
    HexIsPlain(bytes[offset..offset + size]);
    Assoc(writer.Contents(), [DQuote], text, [DQuote]);
    writer.WriteQuotedHexLower(bytes, offset, size);
  }

  lemma {:induction false} HexIsPlain(s: Buffer)
    ensures EscapeAll(HexAll(s)) == HexAll(s)
  {
    HexHasNoEscapes(s);
    EscapePlain(HexAll(s));
  }

  lemma {:induction false} HexHasNoEscapes(s: Buffer)
    ensures forall i :: 0 <= i < |HexAll(s)| ==> !NeedsEscape(HexAll(s)[i])
  {
    if s != [] { HexHasNoEscapes(s[..|s| - 1]); }
  }

  lemma UuidIsPlain(s: Buffer)
    requires |s| == 16
    ensures EscapeAll(UuidText(s)) == UuidText(s)
  {
    HexHasNoEscapes(s[0..4]);
    HexHasNoEscapes(s[4..6]);
    HexHasNoEscapes(s[6..8]);
    HexHasNoEscapes(s[8..10]);
    HexHasNoEscapes(s[10..16]);
    EscapePlain(UuidText(s));
  }

  /** The subtype and data of a binary value, and its end; a legacy value carries a second length. */
  function ReadBinary(bytes: Buffer, offset: nat): Option<(Byte, Buffer, nat)> {
    var length := ReadInt32(bytes, offset);
    if length.None? || length.value < 0 || offset + 5 + length.value > |bytes| then None
    else
      var subtype, dataEnd := bytes[offset + 4], offset + 5 + length.value;
      var legacy := ReadInt32(bytes, offset + 5);
      if subtype == 2 && (legacy.None? || legacy.value < 0 || offset + 9 + legacy.value > dataEnd) then None
      else Some((subtype, bytes[offset + 5..dataEnd], dataEnd))
  }

  lemma BinaryReadsBack(bytes: Buffer, offset: nat, v: Bson.Value)
    requires v.Binary? && IsValue(bytes, offset, 0x05, v)
    ensures ReadBinary(bytes, offset) == Some((v.subtype, v.data, offset + |Bson.Payload(v)|))
  {
    Bson.BinaryIsRead(bytes, offset, v.subtype, v.data);
    LegacyLengthIsRead(bytes, offset + 5, v.data);
    assert bytes[offset + 5..offset + 5 + |v.data|] == v.data;
  }

  /** Binary data is left out, but for UUIDs. */
  method SerializeBinary(bytes: Buffer, offset: nat, writer: JsonBufferWriter) returns (r: Result<Element, Error>)
    requires writer.Valid()
    modifies writer, writer.buffer
    ensures writer.Valid() && (writer.buffer == old(writer.buffer) || fresh(writer.buffer))
    ensures var value := ReadBinary(bytes, offset);
            if value.None? then r == Failure(Malformed)
            else Agrees(Success(BinaryJson(value.value.0, value.value.1)), old(writer.Contents()), writer.Contents(), value.value.2, r)
  {
    var value := ReadBinary(bytes, offset);
    if value.None? {
      return Failure(Malformed);
    }
    var defined := WriteBinary(value.value.0, value.value.1, writer);
    return Success(Element(value.value.2, defined));
  }

  method WriteBinary(subtype: Byte, data: Buffer, writer: JsonBufferWriter) returns (defined: bool)
    requires writer.Valid()
    modifies writer, writer.buffer
    ensures writer.Valid() && (writer.buffer == old(writer.buffer) || fresh(writer.buffer))
    ensures defined == !BinaryJson(subtype, data).Undefined?
    ensures writer.Contents() == old(writer.Contents()) + Print(BinaryJson(subtype, data))
  {
    if subtype == 4 && |data| == 16 {
      UuidIsPlain(data);
      Assoc(writer.Contents(), [DQuote], UuidText(data), [DQuote]);
      writer.WriteQuotedUuid(data);
      return true;
    }
    return false;
  }

  lemma LegacyLengthIsRead(bytes: Buffer, offset: nat, data: Buffer)
    requires At(bytes, offset, data)
    ensures |data| >= 4 ==> ReadInt32(bytes, offset) == ReadInt32(data, 0)
  {
    if |data| >= 4 {
      AtIndex(bytes, offset, data, 0);
      AtIndex(bytes, offset, data, 1);
      AtIndex(bytes, offset, data, 2);
      AtIndex(bytes, offset, data, 3);
    }
  }

  // ----- records -----

  /** The text of a length-prefixed string, and its end. */
  function ReadText(bytes: Buffer, offset: nat): Option<(Buffer, nat)> {
    var end := Bson.StringEnd(bytes, offset);
    if end.None? then None else Some((bytes[offset + 4..end.value - 1], end.value))
  }

  lemma TextReadsBack(bytes: Buffer, offset: nat, text: Buffer)
    requires |text| + 1 < Bson.Limit && At(bytes, offset, Bson.StringBytes(text))
    ensures ReadText(bytes, offset) == Some((text, offset + |Bson.StringBytes(text)|))
  {
    Bson.StringIsRead(bytes, offset, text);
  }

  lemma MemberPrints(members: Members, first: bool)
    requires members.Member? && !members.value.Undefined?
    ensures PrintMembers(members, first)
         == (Comma(first) + Quoted(members.name) + [0x3a]) + (Print(members.value) + PrintMembers(members.rest, false))
  {
    Assoc(Comma(first) + Quoted(members.name) + [0x3a], Print(members.value), PrintMembers(members.rest, false), []);
  }

  method WriteName(name: Buffer, first: bool, writer: JsonBufferWriter)
    requires writer.Valid()
    modifies writer, writer.buffer
    ensures writer.Valid() && (writer.buffer == old(writer.buffer) || fresh(writer.buffer))
    ensures writer.Contents() == old(writer.Contents()) + (Comma(first) + Quoted(name) + [0x3a])
  {
    ghost var base := writer.Contents();
    writer.WriteBytes(Comma(first));
    writer.WriteQuotedJsonString(name);
    writer.WriteByte(0x3a);
    Assoc(base, Comma(first), Quoted(name), [0x3a]);
  }

  /** One member of a record: what is still to come follows it. */
  method WriteTextMember(name: Buffer, text: Buffer, first: bool, writer: JsonBufferWriter, ghost rest: Members)
    requires writer.Valid()
    modifies writer, writer.buffer
    ensures writer.Valid() && (writer.buffer == old(writer.buffer) || fresh(writer.buffer))
    ensures writer.Contents() + PrintMembers(rest, false) == old(writer.Contents()) + PrintMembers(Member(name, String(text), rest), first)
  {
    ghost var base := writer.Contents();
    MemberPrints(Member(name, String(text), rest), first);
    WriteName(name, first, writer);
    writer.WriteQuotedJsonString(text);
    Assoc(base, Comma(first) + Quoted(name) + [0x3a], Quoted(text), PrintMembers(rest, false));
  }

  method WriteHexMember(name: Buffer, bytes: Buffer, at: nat, count: nat, first: bool, writer: JsonBufferWriter, ghost rest: Members)
    requires writer.Valid() && at + count <= |bytes|
    modifies writer, writer.buffer
    ensures writer.Valid() && (writer.buffer == old(writer.buffer) || fresh(writer.buffer))
    ensures writer.Contents() + PrintMembers(rest, false)
         == old(writer.Contents()) + PrintMembers(Member(name, String(HexAll(bytes[at..at + count])), rest), first)
  {
    ghost var base := writer.Contents();
    ghost var text := HexAll(bytes[at..at + count]);
    MemberPrints(Member(name, String(text), rest), first);
    WriteName(name, first, writer);
    WriteHex(bytes, at, count, writer);
    Assoc(base, Comma(first) + Quoted(name) + [0x3a], Quoted(text), PrintMembers(rest, false));
  }

  /** A member whose value is constant text. */
  method WriteConstantMember(name: Buffer, value: Json, first: bool, writer: JsonBufferWriter, ghost rest: Members)
    requires writer.Valid() && !value.Undefined?
    modifies writer, writer.buffer
    ensures writer.Valid() && (writer.buffer == old(writer.buffer) || fresh(writer.buffer))
    ensures writer.Contents() + PrintMembers(rest, false) == old(writer.Contents()) + PrintMembers(Member(name, value, rest), first)
  {
    ghost var base := writer.Contents();
    MemberPrints(Member(name, value, rest), first);
    WriteName(name, first, writer);
    writer.WriteBytes(Print(value));
    Assoc(base, Comma(first) + Quoted(name) + [0x3a], Print(value), PrintMembers(rest, false));
  }

  method OpenRecord(writer: JsonBufferWriter, ghost members: Members)
    requires writer.Valid()
    modifies writer, writer.buffer
    ensures writer.Valid() && (writer.buffer == old(writer.buffer) || fresh(writer.buffer))
    ensures writer.Contents() == old(writer.Contents()) + [0x7b]
    ensures writer.Contents() + PrintMembers(members, true) + [0x7d] == old(writer.Contents()) + Print(Object(members))
  {
    Assoc(writer.Contents(), [0x7b], PrintMembers(members, true), [0x7d]);
    writer.WriteByte(0x7b);
  }

  method CloseRecord(writer: JsonBufferWriter)
    requires writer.Valid()
    modifies writer, writer.buffer
    ensures writer.Valid() && (writer.buffer == old(writer.buffer) || fresh(writer.buffer))
    ensures writer.Contents() == old(writer.Contents()) + PrintMembers(NoMembers, false) + [0x7d]
  {
    writer.WriteByte(0x7d);
  }

  method WriteRegex(pattern: Buffer, options: Buffer, writer: JsonBufferWriter)
    requires writer.Valid()
    modifies writer, writer.buffer
    ensures writer.Valid() && (writer.buffer == old(writer.buffer) || fresh(writer.buffer))
    ensures writer.Contents() == old(writer.Contents()) + Print(RegexJson(pattern, options))
  {
    ghost var last := Member(OptionsName, String(options), NoMembers);
    OpenRecord(writer, Member(PatternName, String(pattern), last));
    WriteTextMember(PatternName, pattern, true, writer, last);
    WriteTextMember(OptionsName, options, false, writer, NoMembers);
    CloseRecord(writer);
  }

  function ReadRegex(bytes: Buffer, offset: nat): Option<(Buffer, Buffer, nat)> {
    var patternEnd := IndexOfZero(bytes, offset);
    if patternEnd.None? then None
    else
      var optionsEnd := IndexOfZero(bytes, patternEnd.value + 1);
      if optionsEnd.None? then None
      else Some((bytes[offset..patternEnd.value], bytes[patternEnd.value + 1..optionsEnd.value], optionsEnd.value + 1))
  }

  lemma RegexReadsBack(bytes: Buffer, offset: nat, v: Bson.Value)
    requires v.Regex? && IsValue(bytes, offset, 0x0b, v)
    ensures ReadRegex(bytes, offset) == Some((v.pattern, v.options, offset + |Bson.Payload(v)|))
  {
    Bson.RegexIsRead(bytes, offset, v.pattern, v.options);
  }

  method SerializeRegex(bytes: Buffer, offset: nat, writer: JsonBufferWriter) returns (r: Result<Element, Error>)
    requires writer.Valid()
    modifies writer, writer.buffer
    ensures writer.Valid() && (writer.buffer == old(writer.buffer) || fresh(writer.buffer))
    ensures var value := ReadRegex(bytes, offset);
            if value.None? then r == Failure(Malformed)
            else Agrees(Success(RegexJson(value.value.0, value.value.1)), old(writer.Contents()), writer.Contents(), value.value.2, r)
  {
    var value := ReadRegex(bytes, offset);
    if value.None? {
      return Failure(Malformed);
    }
    WriteRegex(value.value.0, value.value.1, writer);
    return Success(Element(value.value.2, true));
  }

  /** The head of a code record, up to the value of its scope. */
  method WriteCodeHead(text: Buffer, writer: JsonBufferWriter, ghost scope: Json)
    requires writer.Valid() && !scope.Undefined?
    modifies writer, writer.buffer
    ensures writer.Valid() && (writer.buffer == old(writer.buffer) || fresh(writer.buffer))
    ensures writer.Contents() + Print(scope) + [0x7d] == old(writer.Contents()) + Print(CodeJson(text, scope))
  {
    ghost var last := Member(ScopeName, scope, NoMembers);
    OpenRecord(writer, Member(CodeName, String(text), last));
    WriteTextMember(CodeName, text, true, writer, last);
    ScopeLast(writer.Contents(), scope);
    WriteName(ScopeName, false, writer);
  }

  lemma ScopeLast(base: Buffer, scope: Json)
    requires !scope.Undefined?
    ensures base + PrintMembers(Member(ScopeName, scope, NoMembers), false) + [0x7d]
         == base + (Comma(false) + Quoted(ScopeName) + [0x3a]) + Print(scope) + [0x7d]
  {
    MemberPrints(Member(ScopeName, scope, NoMembers), false);
    assert PrintMembers(NoMembers, false) == [] && Print(scope) + [] == Print(scope);
    Assoc(base, Comma(false) + Quoted(ScopeName) + [0x3a], Print(scope), [0x7d]);
  }

  method SerializeCode(bytes: Buffer, offset: nat, writer: JsonBufferWriter) returns (r: Result<Element, Error>)
    requires writer.Valid()
    modifies writer, writer.buffer
    ensures writer.Valid() && (writer.buffer == old(writer.buffer) || fresh(writer.buffer))
    ensures var value := ReadText(bytes, offset);
            if value.None? then r == Failure(Malformed)
            else Agrees(Success(CodeJson(value.value.0, Null)), old(writer.Contents()), writer.Contents(), value.value.1, r)
  {
    var value := ReadText(bytes, offset);
    if value.None? {
      return Failure(Malformed);
    }
    WriteCode(value.value.0, writer);
    return Success(Element(value.value.1, true));
  }

  method WriteCode(text: Buffer, writer: JsonBufferWriter)
    requires writer.Valid()
    modifies writer, writer.buffer
    ensures writer.Valid() && (writer.buffer == old(writer.buffer) || fresh(writer.buffer))
    ensures writer.Contents() == old(writer.Contents()) + Print(CodeJson(text, Null))
  {
    WriteCodeHead(text, writer, Null);
    writer.WriteBytes(NullText);
    writer.WriteByte(0x7d);
  }

  method WritePointer(name: Buffer, id: Buffer, writer: JsonBufferWriter)
    requires writer.Valid()
    modifies writer, writer.buffer
    ensures writer.Valid() && (writer.buffer == old(writer.buffer) || fresh(writer.buffer))
    ensures writer.Contents() == old(writer.Contents()) + Print(PointerJson(name, id))
  {
    var dot := DotIndex(name);
    var collection := if dot < |name| then name[dot + 1..] else name;
    ghost var tail := PointerTail(name);
    OpenRecord(writer, Member(CollectionName, String(collection), Member(OidName, String(HexAll(id)), tail)));
    WriteOwner(collection, id, writer, tail, Member(OidName, String(HexAll(id)), tail));
    WriteDatabase(name, dot, writer, Member(FieldsName, Object(NoMembers), NoMembers));
    WriteConstantMember(FieldsName, Object(NoMembers), false, writer, NoMembers);
    CloseRecord(writer);
  }

  method WriteOwner(collection: Buffer, id: Buffer, writer: JsonBufferWriter, ghost tail: Members, ghost owner: Members)
    requires writer.Valid() && owner == Member(OidName, String(HexAll(id)), tail)
    modifies writer, writer.buffer
    ensures writer.Valid() && (writer.buffer == old(writer.buffer) || fresh(writer.buffer))
    ensures writer.Contents() + PrintMembers(tail, false)
         == old(writer.Contents()) + PrintMembers(Member(CollectionName, String(collection), owner), true)
  {
    assert id[0..0 + |id|] == id;
    WriteTextMember(CollectionName, collection, true, writer, owner);
    WriteHexMember(OidName, id, 0, |id|, false, writer, tail);
  }

  method WriteDatabase(name: Buffer, dot: nat, writer: JsonBufferWriter, ghost rest: Members)
    requires writer.Valid()
    modifies writer, writer.buffer
    ensures writer.Valid() && (writer.buffer == old(writer.buffer) || fresh(writer.buffer))
    ensures writer.Contents() + PrintMembers(rest, false) == old(writer.Contents())
            + PrintMembers(if dot < |name| then Member(DbName, String(name[..dot]), rest) else rest, false)
  {
    if dot < |name| {
      WriteTextMember(DbName, name[..dot], false, writer, rest);
    }
  }

  function ReadPointer(bytes: Buffer, offset: nat): Option<(Buffer, Buffer, nat)> {
    var name := ReadText(bytes, offset);
    if name.None? || name.value.1 + 12 > |bytes| then None
    else Some((name.value.0, bytes[name.value.1..name.value.1 + 12], name.value.1 + 12))
  }

  lemma PointerReadsBack(bytes: Buffer, offset: nat, v: Bson.Value)
    requires v.DbPointer? && IsValue(bytes, offset, 0x0c, v)
    ensures ReadPointer(bytes, offset) == Some((v.name, v.id, offset + |Bson.Payload(v)|))
  {
    AtSplit(bytes, offset, Bson.StringBytes(v.name), v.id);
    TextReadsBack(bytes, offset, v.name);
  }

  method SerializePointer(bytes: Buffer, offset: nat, writer: JsonBufferWriter) returns (r: Result<Element, Error>)
    requires writer.Valid()
    modifies writer, writer.buffer
    ensures writer.Valid() && (writer.buffer == old(writer.buffer) || fresh(writer.buffer))
    ensures var value := ReadPointer(bytes, offset);
            if value.None? then r == Failure(Malformed)
            else Agrees(Success(PointerJson(value.value.0, value.value.1)), old(writer.Contents()), writer.Contents(), value.value.2, r)
  {
    var pointer := ReadPointer(bytes, offset);
    if pointer.None? {
      return Failure(Malformed);
    }
    WritePointer(pointer.value.0, pointer.value.1, writer);
    return Success(Element(pointer.value.2, true));
  }

  // ----- nested values -----

  /** The text still to come for the remaining fields of an object. */
  function MembersText(p: Printers, fields: Bson.Fields, depth: nat, first: bool): Result<Buffer, Error> {
    var members := FilterMembers(p, fields, depth, false);
    if members.Failure? then Failure(members.error) else Success(PrintMembers(members.value, first))
  }

  function ItemsText(p: Printers, fields: Bson.Fields, depth: nat, first: bool): Result<Buffer, Error> {
    var items := FilterItems(p, fields, depth, false);
    if items.Failure? then Failure(items.error) else Success(PrintItems(items.value, first))
  }

  /** What is written so far, followed by what is still to come. */
  function After(before: Buffer, rest: Result<Buffer, Error>): Result<Buffer, Error> {
    if rest.Failure? then rest else Success(before + rest.value)
  }

  lemma MembersStep(p: Printers, fields: Bson.Fields, depth: nat, first: bool, before: Buffer, j: Json)
    requires fields.Field? && Filter(p, fields.value, depth, false) == Success(j)
    ensures j.Undefined? ==>
              After(before, MembersText(p, fields, depth, first)) == After(before, MembersText(p, fields.rest, depth, first))
    ensures !j.Undefined? ==>
              After(before, MembersText(p, fields, depth, first))
              == After(before + (Comma(first) + Quoted(fields.name) + [0x3a]) + Print(j), MembersText(p, fields.rest, depth, false))
  {
    var rest := FilterMembers(p, fields.rest, depth, false);
    if rest.Success? && !j.Undefined? {
      MemberPrints(Member(fields.name, j, rest.value), first);
      Assoc(before, Comma(first) + Quoted(fields.name) + [0x3a], Print(j), PrintMembers(rest.value, false));
    }
  }

  lemma ItemsStep(p: Printers, fields: Bson.Fields, depth: nat, first: bool, before: Buffer, j: Json)
    requires fields.Field? && Filter(p, fields.value, depth, false) == Success(j)
    ensures After(before, ItemsText(p, fields, depth, first))
         == After(before + Comma(first) + (if j.Undefined? then NullText else Print(j)), ItemsText(p, fields.rest, depth, false))
  {
    var rest := FilterItems(p, fields.rest, depth, false);
    if rest.Success? {
      Assoc(before, Comma(first), if j.Undefined? then NullText else Print(j), PrintItems(rest.value, false));
    }
  }

  /** The fields that remain at a cursor, before the terminator at bodyEnd. */
  ghost predicate Remaining(bytes: Buffer, cursor: nat, bodyEnd: nat, rest: Bson.Fields) {
    Bson.WellFormedFields(rest) && At(bytes, cursor, Bson.FieldsBytes(rest) + [0])
    && cursor + |Bson.FieldsBytes(rest)| == bodyEnd
  }

  /** The first of them: its type, its name, its value, and those after it. */
  lemma OneField(bytes: Buffer, cursor: nat, bodyEnd: nat, rest: Bson.Fields)
    requires Remaining(bytes, cursor, bodyEnd, rest) && cursor < bodyEnd
    ensures rest.Field? && bytes[cursor] == Bson.TypeOf(rest.value)
    ensures var keyEnd := cursor + 1 + |rest.name|;
            && IndexOfZero(bytes, cursor + 1) == Some(keyEnd)
            && bytes[cursor + 1..keyEnd] == rest.name
            && IsValue(bytes, keyEnd + 1, bytes[cursor], rest.value)
            && Remaining(bytes, keyEnd + 1 + |Bson.Payload(rest.value)|, bodyEnd, rest.rest)
  {
    Bson.FieldIsRead(bytes, cursor, rest);
  }

  method SerializeText(p: Printers, bytes: Buffer, offset: nat, kind: Byte, writer: JsonBufferWriter, ghost v: Bson.Value)
    returns (r: Result<Element, Error>)
    requires writer.Valid() && (kind == 0x0b || kind == 0x0d)
    modifies writer, writer.buffer
    ensures writer.Valid() && (writer.buffer == old(writer.buffer) || fresh(writer.buffer))
    ensures IsValue(bytes, offset, kind, v) ==>
              Agrees(Scalar(p, v), old(writer.Contents()), writer.Contents(), offset + |Bson.Payload(v)|, r)
  {
    ghost var ok := IsValue(bytes, offset, kind, v);
    if kind == 0x0b {
      if ok { RegexReadsBack(bytes, offset, v); }
      r := SerializeRegex(bytes, offset, writer);
    } else {
      if ok { TextReadsBack(bytes, offset, v.text); }
      r := SerializeCode(bytes, offset, writer);
    }
  }

  method SerializeRecord(p: Printers, bytes: Buffer, offset: nat, kind: Byte, writer: JsonBufferWriter, ghost v: Bson.Value)
    returns (r: Result<Element, Error>)
    requires writer.Valid() && (kind == 0x05 || kind == 0x0c)
    modifies writer, writer.buffer
    ensures writer.Valid() && (writer.buffer == old(writer.buffer) || fresh(writer.buffer))
    ensures IsValue(bytes, offset, kind, v) ==>
              Agrees(Scalar(p, v), old(writer.Contents()), writer.Contents(), offset + |Bson.Payload(v)|, r)
  {
    ghost var ok := IsValue(bytes, offset, kind, v);
    if kind == 0x05 {
      if ok { BinaryReadsBack(bytes, offset, v); }
      r := SerializeBinary(bytes, offset, writer);
    } else {
      if ok { PointerReadsBack(bytes, offset, v); }
      r := SerializePointer(bytes, offset, writer);
    }
  }

  method SerializeScalar(p: Printers, bytes: Buffer, offset: nat, kind: Byte, writer: JsonBufferWriter, ghost v: Bson.Value)
    returns (r: Result<Element, Error>)
    requires writer.Valid() && Usable(p) && kind != 0x03 && kind != 0x04 && kind != 0x0f
    modifies writer, writer.buffer
    ensures writer.Valid() && (writer.buffer == old(writer.buffer) || fresh(writer.buffer))
    ensures IsValue(bytes, offset, kind, v) ==>
              Agrees(Scalar(p, v), old(writer.Contents()), writer.Contents(), offset + |Bson.Payload(v)|, r)
  {
    if kind == 0x01 || kind == 0x08 || kind == 0x10 || kind == 0x11 || kind == 0x12 {
      r := SerializeNumber(p, bytes, offset, kind, writer, v);
    } else if kind == 0x02 || kind == 0x0e {
      r := SerializeString(p, bytes, offset, kind, writer, v);
    } else if kind == 0x05 || kind == 0x0c {
      r := SerializeRecord(p, bytes, offset, kind, writer, v);
    } else if kind == 0x0b || kind == 0x0d {
      r := SerializeText(p, bytes, offset, kind, writer, v);
    } else if kind == 0x07 || kind == 0x13 {
      r := SerializeFixed(p, bytes, offset, kind, writer, v);
    } else if kind == 0x09 {
      r := SerializeDate(p, bytes, offset, writer, v);
    } else {
      r := SerializeEmpty(p, bytes, offset, kind, writer, v);
    }
  }

  /** The types with no bytes, and the unknown ones. */
  method SerializeEmpty(p: Printers, bytes: Buffer, offset: nat, kind: Byte, writer: JsonBufferWriter, ghost v: Bson.Value)
    returns (r: Result<Element, Error>)
    requires writer.Valid() && (kind == 0 || kind == 0x06 || kind == 0x0a || kind > 0x13)
    modifies writer, writer.buffer
    ensures writer.Valid() && (writer.buffer == old(writer.buffer) || fresh(writer.buffer))
    ensures IsValue(bytes, offset, kind, v) ==>
              Agrees(Scalar(p, v), old(writer.Contents()), writer.Contents(), offset + |Bson.Payload(v)|, r)
  {
    if kind == 0x06 {
      return Success(Element(offset, false));
    }
    if kind == 0x0a || kind == 0xff || kind == 0x7f {
      writer.WriteBytes(NullText);
      return Success(Element(offset, true));
    }
    return Failure(Malformed);
  }

  /** The text appended is the print of what the filter gives, and the end is the document's end. */
  ghost predicate Wrote(expected: Result<Json, Error>, before: Buffer, after: Buffer, end: nat, r: Result<nat, Error>) {
    match expected
    case Failure(e) => r == Failure(e)
    case Success(j) => r == Success(end) && after == before + Print(j)
  }

  lemma DocumentAgrees(p: Printers, bytes: Buffer, offset: nat, v: Bson.Value, depth: nat, before: Buffer, after: Buffer, r: Result<Element, Error>)
    requires v.Document? && IsValue(bytes, offset, 0x03, v)
    requires IsDocument(bytes, offset, v.fields) ==>
               Agrees(FilterDocument(p, v.fields, depth, false), before, after, offset + |Bson.DocumentBytes(v.fields)|, r)
    ensures Agrees(Filter(p, v, depth, false), before, after, offset + |Bson.Payload(v)|, r)
  {
  }

  lemma ArrayAgrees(p: Printers, bytes: Buffer, offset: nat, v: Bson.Value, depth: nat, before: Buffer, after: Buffer, r: Result<Element, Error>)
    requires v.Array? && IsValue(bytes, offset, 0x04, v)
    requires IsDocument(bytes, offset, v.fields) ==>
               Agrees(FilterArray(p, v.fields, depth, false), before, after, offset + |Bson.DocumentBytes(v.fields)|, r)
    ensures Agrees(Filter(p, v, depth, false), before, after, offset + |Bson.Payload(v)|, r)
  {
  }

  lemma ScopeAgrees(p: Printers, bytes: Buffer, offset: nat, v: Bson.Value, depth: nat, before: Buffer, after: Buffer, r: Result<Element, Error>)
    requires v.CodeWithScope? && IsValue(bytes, offset, 0x0f, v)
    requires var code := ReadScope(bytes, offset);
             if code.None? then r == Failure(Malformed)
             else IsDocument(bytes, code.value.1, v.scope) ==>
                    Agrees(ScopeJson(p, code.value.0, v.scope, depth), before, after, code.value.2, r)
    ensures Agrees(Filter(p, v, depth, false), before, after, offset + |Bson.Payload(v)|, r)
  {
    ScopeReadsBack(bytes, offset, v);
    var end := offset + |Bson.Payload(v)|;
    assert Agrees(ScopeJson(p, v.text, v.scope, depth), before, after, end, r);
    ScopeFilter(p, v.text, v.scope, depth);
    assert v == Bson.CodeWithScope(v.text, v.scope);
  }

  lemma ScopeFilter(p: Printers, text: Buffer, scope: Bson.Fields, depth: nat)
    ensures Filter(p, Bson.CodeWithScope(text, scope), depth, false) == ScopeJson(p, text, scope, depth)
  {
  }

  function AsElement(end: Result<nat, Error>): Result<Element, Error> {
    if end.Failure? then Failure(end.error) else Success(Element(end.value, true))
  }

  method SerializeNestedDocument(p: Printers, bytes: Buffer, offset: nat, depth: nat, writer: JsonBufferWriter, ghost fields: Bson.Fields)
    returns (r: Result<Element, Error>)
    requires writer.Valid() && Usable(p) && depth <= DepthLimit
    modifies writer, writer.buffer
    ensures writer.Valid() && (writer.buffer == old(writer.buffer) || fresh(writer.buffer))
    ensures IsDocument(bytes, offset, fields) ==>
              Agrees(FilterDocument(p, fields, depth + 1, false), old(writer.Contents()), writer.Contents(),
                     offset + |Bson.DocumentBytes(fields)|, r)
    decreases DepthLimit + 1 - depth, 0
  {
    ColumnIsDefined(p, fields, depth + 1, false);
    var end := SerializeObject(p, bytes, offset, depth + 1, writer, fields);
    r := AsElement(end);
  }

  method SerializeNestedArray(p: Printers, bytes: Buffer, offset: nat, depth: nat, writer: JsonBufferWriter, ghost fields: Bson.Fields)
    returns (r: Result<Element, Error>)
    requires writer.Valid() && Usable(p) && depth <= DepthLimit
    modifies writer, writer.buffer
    ensures writer.Valid() && (writer.buffer == old(writer.buffer) || fresh(writer.buffer))
    ensures IsDocument(bytes, offset, fields) ==>
              Agrees(FilterArray(p, fields, depth + 1, false), old(writer.Contents()), writer.Contents(),
                     offset + |Bson.DocumentBytes(fields)|, r)
    decreases DepthLimit + 1 - depth, 0
  {
    ColumnIsDefined(p, fields, depth + 1, false);
    var end := SerializeArray(p, bytes, offset, depth + 1, writer, fields);
    r := AsElement(end);
  }

  /** A value stands at this offset and ends there, and this is what the filter makes of it. */
  ghost predicate Gives(p: Printers, bytes: Buffer, offset: nat, kind: Byte, depth: nat, v: Bson.Value, expected: Result<Json, Error>, end: nat) {
    IsValue(bytes, offset, kind, v) && expected == Filter(p, v, depth, false) && end == offset + |Bson.Payload(v)|
  }

  method SerializeDocumentValue(p: Printers, bytes: Buffer, offset: nat, depth: nat, writer: JsonBufferWriter,
      ghost v: Bson.Value, ghost expected: Result<Json, Error>, ghost end: nat) returns (r: Result<Element, Error>)
    requires writer.Valid() && Usable(p) && depth <= DepthLimit
    modifies writer, writer.buffer
    ensures writer.Valid() && (writer.buffer == old(writer.buffer) || fresh(writer.buffer))
    ensures Gives(p, bytes, offset, 0x03, depth + 1, v, expected, end) ==>
              Agrees(expected, old(writer.Contents()), writer.Contents(), end, r)
    decreases DepthLimit + 1 - depth, 1
  {
    ghost var before := writer.Contents();
    r := SerializeNestedDocument(p, bytes, offset, depth, writer, if v.Document? then v.fields else Bson.End);
    if IsValue(bytes, offset, 0x03, v) {
      DocumentAgrees(p, bytes, offset, v, depth + 1, before, writer.Contents(), r);
    }
  }

  method SerializeArrayValue(p: Printers, bytes: Buffer, offset: nat, depth: nat, writer: JsonBufferWriter,
      ghost v: Bson.Value, ghost expected: Result<Json, Error>, ghost end: nat) returns (r: Result<Element, Error>)
    requires writer.Valid() && Usable(p) && depth <= DepthLimit
    modifies writer, writer.buffer
    ensures writer.Valid() && (writer.buffer == old(writer.buffer) || fresh(writer.buffer))
    ensures Gives(p, bytes, offset, 0x04, depth + 1, v, expected, end) ==>
              Agrees(expected, old(writer.Contents()), writer.Contents(), end, r)
    decreases DepthLimit + 1 - depth, 1
  {
    ghost var before := writer.Contents();
    r := SerializeNestedArray(p, bytes, offset, depth, writer, if v.Array? then v.fields else Bson.End);
    if IsValue(bytes, offset, 0x04, v) {
      ArrayAgrees(p, bytes, offset, v, depth + 1, before, writer.Contents(), r);
    }
  }

  method SerializeScopeValue(p: Printers, bytes: Buffer, offset: nat, depth: nat, writer: JsonBufferWriter,
      ghost v: Bson.Value, ghost expected: Result<Json, Error>, ghost end: nat) returns (r: Result<Element, Error>)
    requires writer.Valid() && Usable(p) && depth <= DepthLimit
    modifies writer, writer.buffer
    ensures writer.Valid() && (writer.buffer == old(writer.buffer) || fresh(writer.buffer))
    ensures Gives(p, bytes, offset, 0x0f, depth + 1, v, expected, end) ==>
              Agrees(expected, old(writer.Contents()), writer.Contents(), end, r)
    decreases DepthLimit + 1 - depth, 2
  {
    ghost var before := writer.Contents();
    r := SerializeScope(p, bytes, offset, depth, writer, if v.CodeWithScope? then v.scope else Bson.End);
    if IsValue(bytes, offset, 0x0f, v) {
      ScopeAgrees(p, bytes, offset, v, depth + 1, before, writer.Contents(), r);
    }
  }

  method SerializeValue(p: Printers, bytes: Buffer, offset: nat, kind: Byte, depth: nat, writer: JsonBufferWriter,
                        ghost v: Bson.Value, ghost expected: Result<Json, Error>, ghost end: nat)
    returns (r: Result<Element, Error>)
    requires writer.Valid() && Usable(p) && depth <= DepthLimit
    modifies writer, writer.buffer
    ensures writer.Valid() && (writer.buffer == old(writer.buffer) || fresh(writer.buffer))
    ensures Gives(p, bytes, offset, kind, depth + 1, v, expected, end) ==>
              Agrees(expected, old(writer.Contents()), writer.Contents(), end, r)
    decreases DepthLimit + 1 - depth, 3
  {
    if kind == 0x03 {
      r := SerializeDocumentValue(p, bytes, offset, depth, writer, v, expected, end);
    } else if kind == 0x04 {
      r := SerializeArrayValue(p, bytes, offset, depth, writer, v, expected, end);
    } else if kind == 0x0f {
      r := SerializeScopeValue(p, bytes, offset, depth, writer, v, expected, end);
    } else {
      r := SerializeScalarValue(p, bytes, offset, kind, depth, writer, v, expected, end);
    }
  }

  method SerializeScalarValue(p: Printers, bytes: Buffer, offset: nat, kind: Byte, depth: nat, writer: JsonBufferWriter,
                              ghost v: Bson.Value, ghost expected: Result<Json, Error>, ghost end: nat) returns (r: Result<Element, Error>)
    requires writer.Valid() && Usable(p) && kind != 0x03 && kind != 0x04 && kind != 0x0f
    modifies writer, writer.buffer
    ensures writer.Valid() && (writer.buffer == old(writer.buffer) || fresh(writer.buffer))
    ensures Gives(p, bytes, offset, kind, depth + 1, v, expected, end) ==>
              Agrees(expected, old(writer.Contents()), writer.Contents(), end, r)
  {
    if IsValue(bytes, offset, kind, v) {
      ScalarFilter(p, v, depth + 1);
    }
    r := SerializeScalar(p, bytes, offset, kind, writer, v);
  }

  lemma ScalarFilter(p: Printers, v: Bson.Value, depth: nat)
    requires !v.Document? && !v.Array? && !v.CodeWithScope?
    ensures Filter(p, v, depth, false) == Scalar(p, v)
  {
  }

  /** The text, the start of the scope, and the end of code with scope. */
  function ReadScope(bytes: Buffer, offset: nat): Option<(Buffer, nat, nat)> {
    var length := ReadInt32(bytes, offset);
    var code := ReadText(bytes, offset + 4);
    if length.None? || code.None? || offset + length.value < 0 then None
    else Some((code.value.0, code.value.1, offset + length.value))
  }

  lemma ScopeReadsBack(bytes: Buffer, offset: nat, v: Bson.Value)
    requires v.CodeWithScope? && IsValue(bytes, offset, 0x0f, v)
    ensures var start := offset + 4 + |Bson.StringBytes(v.text)|;
            ReadScope(bytes, offset) == Some((v.text, start, offset + |Bson.Payload(v)|)) && IsDocument(bytes, start, v.scope)
  {
    Bson.ScopeIsRead(bytes, offset, v.text, v.scope);
    TextReadsBack(bytes, offset + 4, v.text);
  }

  function ScopeJson(p: Printers, text: Buffer, scope: Bson.Fields, depth: nat): Result<Json, Error> {
    WithCode(text, FilterDocument(p, scope, depth, false))
  }

  function WithCode(text: Buffer, scope: Result<Json, Error>): Result<Json, Error> {
    if scope.Failure? then Failure(scope.error) else Success(CodeJson(text, scope.value))
  }

  method SerializeScope(p: Printers, bytes: Buffer, offset: nat, depth: nat, writer: JsonBufferWriter, ghost scope: Bson.Fields)
    returns (r: Result<Element, Error>)
    requires writer.Valid() && Usable(p) && depth <= DepthLimit
    modifies writer, writer.buffer
    ensures writer.Valid() && (writer.buffer == old(writer.buffer) || fresh(writer.buffer))
    ensures var code := ReadScope(bytes, offset);
            if code.None? then r == Failure(Malformed)
            else IsDocument(bytes, code.value.1, scope) ==>
                   Agrees(ScopeJson(p, code.value.0, scope, depth + 1), old(writer.Contents()), writer.Contents(), code.value.2, r)
    decreases DepthLimit + 1 - depth, 1
  {
    var code := ReadScope(bytes, offset);
    if code.None? {
      return Failure(Malformed);
    }
    var failed := WriteScope(p, bytes, code.value.1, code.value.0, depth, writer, scope, FilterDocument(p, scope, depth + 1, false));
    return if failed.Some? then Failure(failed.value) else Success(Element(code.value.2, true));
  }

  method WriteScope(p: Printers, bytes: Buffer, start: nat, text: Buffer, depth: nat, writer: JsonBufferWriter,
                    ghost scope: Bson.Fields, ghost filtered: Result<Json, Error>) returns (failed: Option<Error>)
    requires writer.Valid() && Usable(p) && depth <= DepthLimit
    modifies writer, writer.buffer
    ensures writer.Valid() && (writer.buffer == old(writer.buffer) || fresh(writer.buffer))
    ensures IsDocument(bytes, start, scope) && filtered == FilterDocument(p, scope, depth + 1, false) ==>
              WroteOrFailed(WithCode(text, filtered), old(writer.Contents()), writer.Contents(), failed)
    decreases DepthLimit + 1 - depth, 0, 1
  {
    WriteCodeHead(text, writer, if filtered.Success? && !filtered.value.Undefined? then filtered.value else Null);
    failed := WriteScopeObject(p, bytes, start, depth, writer, scope, filtered);
    if failed.None? {
      writer.WriteByte(0x7d);
    }
  }

  method WriteScopeObject(p: Printers, bytes: Buffer, start: nat, depth: nat, writer: JsonBufferWriter,
                          ghost scope: Bson.Fields, ghost filtered: Result<Json, Error>) returns (failed: Option<Error>)
    requires writer.Valid() && Usable(p) && depth <= DepthLimit
    modifies writer, writer.buffer
    ensures writer.Valid() && (writer.buffer == old(writer.buffer) || fresh(writer.buffer))
    ensures IsDocument(bytes, start, scope) && filtered == FilterDocument(p, scope, depth + 1, false) ==>
              WroteOrFailed(filtered, old(writer.Contents()), writer.Contents(), failed)
    decreases DepthLimit + 1 - depth, 0, 0
  {
    ColumnIsDefined(p, scope, depth + 1, false);
    var end := SerializeObject(p, bytes, start, depth + 1, writer, scope);
    return if end.Failure? then Some(end.error) else None;
  }

  ghost predicate WroteOrFailed(expected: Result<Json, Error>, before: Buffer, after: Buffer, failed: Option<Error>) {
    match expected
    case Failure(e) => failed == Some(e)
    case Success(j) => failed.None? && !j.Undefined? && after == before + Print(j)
  }

  lemma DocumentReadsBack(bytes: Buffer, offset: nat, fields: Bson.Fields)
    requires IsDocument(bytes, offset, fields)
    ensures Bson.DocumentLength(bytes, offset) == Some(|Bson.DocumentBytes(fields)|)
    ensures Remaining(bytes, offset + 4, offset + |Bson.DocumentBytes(fields)| - 1, fields)
  {
    Bson.DocumentIsRead(bytes, offset, fields);
  }

  lemma ObjectPrints(p: Printers, fields: Bson.Fields, depth: nat, base: Buffer)
    requires depth <= DepthLimit
    ensures var r := FilterDocument(p, fields, depth, false);
            match After(base + [0x7b], MembersText(p, fields, depth + 1, true))
            case Failure(e) => r == Failure(e)
            case Success(text) => r.Success? && !r.value.Undefined? && base + Print(r.value) == text + [0x7d]
  {
    var members := FilterMembers(p, fields, depth + 1, false);
    if members.Success? {
      Assoc(base, [0x7b], PrintMembers(members.value, true), [0x7d]);
    }
  }

  lemma ObjectWritten(p: Printers, fields: Bson.Fields, depth: nat, base: Buffer, inner: Buffer, failed: Option<Error>)
    requires depth <= DepthLimit && Finished(After(base + [0x7b], MembersText(p, fields, depth + 1, true)), inner, failed)
    ensures WroteOrFailed(FilterDocument(p, fields, depth, false), base, if failed.Some? then inner else inner + [0x7d], failed)
  {
    ObjectPrints(p, fields, depth, base);
  }

  lemma ArrayPrints(p: Printers, fields: Bson.Fields, depth: nat, base: Buffer)
    requires depth <= DepthLimit
    ensures var r := FilterArray(p, fields, depth, false);
            match After(base + [0x5b], ItemsText(p, fields, depth + 1, true))
            case Failure(e) => r == Failure(e)
            case Success(text) => r.Success? && !r.value.Undefined? && base + Print(r.value) == text + [0x5d]
  {
    var items := FilterItems(p, fields, depth + 1, false);
    if items.Success? {
      Assoc(base, [0x5b], PrintItems(items.value, true), [0x5d]);
    }
  }

  lemma ArrayWritten(p: Printers, fields: Bson.Fields, depth: nat, base: Buffer, inner: Buffer, failed: Option<Error>)
    requires depth <= DepthLimit && Finished(After(base + [0x5b], ItemsText(p, fields, depth + 1, true)), inner, failed)
    ensures WroteOrFailed(FilterArray(p, fields, depth, false), base, if failed.Some? then inner else inner + [0x5d], failed)
  {
    ArrayPrints(p, fields, depth, base);
  }

  method SerializeObject(p: Printers, bytes: Buffer, offset: nat, depth: nat, writer: JsonBufferWriter, ghost fields: Bson.Fields)
    returns (r: Result<nat, Error>)
    requires writer.Valid() && Usable(p) && depth <= DepthLimit + 1
    modifies writer, writer.buffer
    ensures writer.Valid() && (writer.buffer == old(writer.buffer) || fresh(writer.buffer))
    ensures IsDocument(bytes, offset, fields) ==>
              Wrote(FilterDocument(p, fields, depth, false), old(writer.Contents()), writer.Contents(), offset + |Bson.DocumentBytes(fields)|, r)
    decreases DepthLimit + 1 - depth, 8
  {
    if depth > DepthLimit {
      return Failure(TooDeep);
    }
    if IsDocument(bytes, offset, fields) {
      DocumentReadsBack(bytes, offset, fields);
    }
    var length := Bson.DocumentLength(bytes, offset);
    if length.None? {
      return Failure(Malformed);
    }
    var failed := WriteObject(p, bytes, offset + 4, offset + length.value - 1, depth, writer, fields);
    return if failed.Some? then Failure(failed.value) else Success(offset + length.value);
  }

  /** The brackets, and what is between them. */
  method WriteObject(p: Printers, bytes: Buffer, start: nat, bodyEnd: nat, depth: nat, writer: JsonBufferWriter, ghost fields: Bson.Fields)
    returns (failed: Option<Error>)
    requires writer.Valid() && Usable(p) && depth <= DepthLimit && bodyEnd < |bytes|
    modifies writer, writer.buffer
    ensures writer.Valid() && (writer.buffer == old(writer.buffer) || fresh(writer.buffer))
    ensures Remaining(bytes, start, bodyEnd, fields) ==>
              WroteOrFailed(FilterDocument(p, fields, depth, false), old(writer.Contents()), writer.Contents(), failed)
    decreases DepthLimit + 1 - depth, 7
  {
    ghost var base := writer.Contents();
    writer.WriteByte(0x7b);
    failed := SerializeMembers(p, bytes, start, bodyEnd, depth, writer, fields);
    if Remaining(bytes, start, bodyEnd, fields) {
      ObjectWritten(p, fields, depth, base, writer.Contents(), failed);
    }
    if failed.None? {
      writer.WriteByte(0x7d);
    }
  }

  /** One member: its name is written first, and taken back when its value turns out undefined. */
  method SerializeMember(p: Printers, bytes: Buffer, cursor: nat, keyEnd: nat, first: bool, depth: nat, writer: JsonBufferWriter,
                         ghost v: Bson.Value, ghost expected: Result<Json, Error>, ghost end: nat)
    returns (r: Result<Element, Error>, ghost key: Buffer)
    requires writer.Valid() && Usable(p) && depth <= DepthLimit && cursor < keyEnd < |bytes|
    modifies writer, writer.buffer
    ensures writer.Valid() && (writer.buffer == old(writer.buffer) || fresh(writer.buffer))
    ensures r.Success? ==> cursor < r.value.next
    ensures key == Comma(first) + Quoted(bytes[cursor + 1..keyEnd]) + [0x3a]
    ensures Gives(p, bytes, keyEnd + 1, bytes[cursor], depth + 1, v, expected, end) ==>
              MemberAgrees(expected, old(writer.Contents()), key, writer.Contents(), end, r)
    decreases DepthLimit + 1 - depth, 4, 1
  {
    var writerOffset := writer.length;
    ghost var before := writer.Contents();
    key := WriteKey(bytes, cursor + 1, keyEnd, first, writer);
    r := SerializeMemberValue(p, bytes, cursor, keyEnd + 1, bytes[cursor], depth, writer, writerOffset, before, key, v, expected, end);
  }

  method SerializeMemberValue(p: Printers, bytes: Buffer, cursor: nat, offset: nat, kind: Byte, depth: nat, writer: JsonBufferWriter,
                              writerOffset: nat, ghost before: Buffer, ghost key: Buffer, ghost v: Bson.Value,
                              ghost expected: Result<Json, Error>, ghost end: nat)
    returns (r: Result<Element, Error>)
    requires writer.Valid() && Usable(p) && depth <= DepthLimit
    requires writer.Contents() == before + key && writerOffset == |before| && cursor < offset
    modifies writer, writer.buffer
    ensures writer.Valid() && (writer.buffer == old(writer.buffer) || fresh(writer.buffer))
    ensures r.Success? ==> cursor < r.value.next
    ensures Gives(p, bytes, offset, kind, depth + 1, v, expected, end) ==>
              MemberAgrees(expected, before, key, writer.Contents(), end, r)
    decreases DepthLimit + 1 - depth, 4, 0
  {
    r := SerializeValue(p, bytes, offset, kind, depth, writer, v, expected, end);
    ghost var wrote := writer.Contents();
    if r.Failure? {
      return;
    }
    if r.value.next <= cursor {
      return Failure(Malformed);
    }
    if !r.value.defined && writerOffset <= writer.length {
      writer.Truncate(writerOffset);
    }
    if Gives(p, bytes, offset, kind, depth + 1, v, expected, end) {
      TakenBack(expected, before, key, wrote, end, r);
    }
  }

  /** Cutting an undefined member back to where it began undoes its name. */
  lemma TakenBack(expected: Result<Json, Error>, before: Buffer, key: Buffer, wrote: Buffer, end: nat, r: Result<Element, Error>)
    requires r.Success? && Agrees(expected, before + key, wrote, end, r)
    ensures |before| <= |wrote|
    ensures MemberAgrees(expected, before, key, if r.value.defined then wrote else wrote[..|before|], end, r)
  {
    assert wrote[..|before|] == before;
    assert before + key + Print(expected.value) == wrote;
  }

  ghost predicate MemberAgrees(expected: Result<Json, Error>, before: Buffer, key: Buffer, after: Buffer, end: nat, r: Result<Element, Error>) {
    match expected
    case Failure(e) => r == Failure(e)
    case Success(j) =>
      r == Success(Element(end, !j.Undefined?)) && after == if j.Undefined? then before else before + key + Print(j)
  }

  method WriteComma(first: bool, writer: JsonBufferWriter)
    requires writer.Valid()
    modifies writer, writer.buffer
    ensures writer.Valid() && (writer.buffer == old(writer.buffer) || fresh(writer.buffer))
    ensures writer.Contents() == old(writer.Contents()) + Comma(first)
  {
    if !first {
      writer.WriteByte(0x2c);
    }
  }

  method WriteKey(bytes: Buffer, start: nat, end: nat, first: bool, writer: JsonBufferWriter) returns (ghost key: Buffer)
    requires writer.Valid() && start <= end <= |bytes|
    modifies writer, writer.buffer
    ensures writer.Valid() && (writer.buffer == old(writer.buffer) || fresh(writer.buffer))
    ensures key == Comma(first) + Quoted(bytes[start..end]) + [0x3a] && writer.Contents() == old(writer.Contents()) + key
  {
    key := Comma(first) + Quoted(bytes[start..end]) + [0x3a];
    ghost var before := writer.Contents();
    WriteComma(first, writer);
    writer.WriteQuotedUtf8Slice(bytes, start, end);
    writer.WriteByte(0x3a);
    Assoc(before, Comma(first), Quoted(bytes[start..end]), [0x3a]);
  }

  /** The text of one field has moved from what is still to come to what is written. */
  ghost predicate MemberMoved(p: Printers, bytes: Buffer, bodyEnd: nat, first: bool, depth: nat, rest: Bson.Fields,
                          before: Buffer, after: Buffer, r: Result<Element, Error>) {
    rest.Field? &&
    var all := After(before, MembersText(p, rest, depth, first));
    match r
    case Failure(e) => all == Failure(e)
    case Success(element) =>
      && Remaining(bytes, element.next, bodyEnd, rest.rest)
      && all == After(after, MembersText(p, rest.rest, depth, first && !element.defined))
  }

  lemma MembersAdvance(p: Printers, bytes: Buffer, bodyEnd: nat, fields: Bson.Fields, depth: nat, first: bool,
                      before: Buffer, after: Buffer, end: nat, r: Result<Element, Error>)
    requires fields.Field? && Remaining(bytes, end, bodyEnd, fields.rest)
    requires MemberAgrees(Filter(p, fields.value, depth, false), before, Comma(first) + Quoted(fields.name) + [0x3a], after, end, r)
    ensures MemberMoved(p, bytes, bodyEnd, first, depth, fields, before, after, r)
  {
    var j := Filter(p, fields.value, depth, false);
    if j.Success? {
      MembersStep(p, fields, depth, first, before, j.value);
    }
  }

  /** The text of one field has moved from what is still to come to what is written. */
  ghost predicate ItemMoved(p: Printers, bytes: Buffer, bodyEnd: nat, first: bool, depth: nat, rest: Bson.Fields,
                          before: Buffer, after: Buffer, r: Result<Element, Error>) {
    rest.Field? &&
    var all := After(before, ItemsText(p, rest, depth, first));
    match r
    case Failure(e) => all == Failure(e)
    case Success(element) =>
      && Remaining(bytes, element.next, bodyEnd, rest.rest)
      && all == After(after, ItemsText(p, rest.rest, depth, false))
  }

  lemma ItemsAdvance(p: Printers, bytes: Buffer, bodyEnd: nat, fields: Bson.Fields, depth: nat, first: bool,
                      before: Buffer, after: Buffer, end: nat, r: Result<Element, Error>)
    requires fields.Field? && Remaining(bytes, end, bodyEnd, fields.rest)
    requires ItemAgrees(Filter(p, fields.value, depth, false), before + Comma(first), after, end, r)
    ensures ItemMoved(p, bytes, bodyEnd, first, depth, fields, before, after, r)
  {
    var j := Filter(p, fields.value, depth, false);
    if j.Success? {
      ItemsStep(p, fields, depth, first, before, j.value);
    }
  }

  /** The value of the first of the remaining fields. */
  ghost function FirstValue(rest: Bson.Fields): Bson.Value {
    if rest.Field? then rest.value else Bson.Null
  }

  /** Where it stands, and where it ends. */
  lemma FirstGives(p: Printers, bytes: Buffer, cursor: nat, bodyEnd: nat, depth: nat, rest: Bson.Fields, expected: Result<Json, Error>, end: nat)
    requires Remaining(bytes, cursor, bodyEnd, rest) && cursor < bodyEnd
    requires expected == Filter(p, FirstValue(rest), depth, false) && end == FirstEnd(cursor, rest)
    ensures rest.Field? && IndexOfZero(bytes, cursor + 1) == Some(cursor + 1 + |rest.name|)
    ensures bytes[cursor + 1..cursor + 1 + |rest.name|] == rest.name
    ensures Gives(p, bytes, cursor + 2 + |rest.name|, bytes[cursor], depth, rest.value, expected, end)
    ensures Remaining(bytes, end, bodyEnd, rest.rest)
  {
    OneField(bytes, cursor, bodyEnd, rest);
  }

  ghost function FirstEnd(cursor: nat, rest: Bson.Fields): nat {
    if rest.Field? then cursor + 2 + |rest.name| + |Bson.Payload(rest.value)| else 0
  }

  method NextMember(p: Printers, bytes: Buffer, cursor: nat, bodyEnd: nat, first: bool, depth: nat, writer: JsonBufferWriter,
                     ghost rest: Bson.Fields) returns (r: Result<Element, Error>)
    requires writer.Valid() && Usable(p) && depth <= DepthLimit && cursor < bodyEnd < |bytes|
    modifies writer, writer.buffer
    ensures writer.Valid() && (writer.buffer == old(writer.buffer) || fresh(writer.buffer))
    ensures r.Success? ==> cursor < r.value.next
    ensures Remaining(bytes, cursor, bodyEnd, rest) ==>
              MemberMoved(p, bytes, bodyEnd, first, depth + 1, rest, old(writer.Contents()), writer.Contents(), r)
    decreases DepthLimit + 1 - depth, 5
  {
    ghost var before, expected, end := writer.Contents(), Filter(p, FirstValue(rest), depth + 1, false), FirstEnd(cursor, rest);
    ghost var ok := Remaining(bytes, cursor, bodyEnd, rest);
    if ok {
      FirstGives(p, bytes, cursor, bodyEnd, depth + 1, rest, expected, end);
    }
    r := NamedMember(p, bytes, cursor, first, depth, writer, FirstValue(rest), expected, end);
    if ok {
      assert MemberAgrees(expected, before, Comma(first) + Quoted(rest.name) + [0x3a], writer.Contents(), end, r);
      MembersAdvance(p, bytes, bodyEnd, rest, depth + 1, first, before, writer.Contents(), end, r);
    }
  }

  method NamedMember(p: Printers, bytes: Buffer, cursor: nat, first: bool, depth: nat, writer: JsonBufferWriter,
                     ghost v: Bson.Value, ghost expected: Result<Json, Error>, ghost end: nat) returns (r: Result<Element, Error>)
    requires writer.Valid() && Usable(p) && depth <= DepthLimit && cursor < |bytes|
    modifies writer, writer.buffer
    ensures writer.Valid() && (writer.buffer == old(writer.buffer) || fresh(writer.buffer))
    ensures r.Success? ==> cursor < r.value.next
    ensures match IndexOfZero(bytes, cursor + 1)
            case None => r == Failure(Malformed)
            case Some(keyEnd) =>
              Gives(p, bytes, keyEnd + 1, bytes[cursor], depth + 1, v, expected, end) ==>
                MemberAgrees(expected, old(writer.Contents()), Comma(first) + Quoted(bytes[cursor + 1..keyEnd]) + [0x3a],
                             writer.Contents(), end, r)
    decreases DepthLimit + 1 - depth, 4, 2
  {
    var keyEnd := IndexOfZero(bytes, cursor + 1);
    if keyEnd.None? {
      return Failure(Malformed);
    }
    ghost var key;
    r, key := SerializeMember(p, bytes, cursor, keyEnd.value, first, depth, writer, v, expected, end);
  }

  method SerializeMembers(p: Printers, bytes: Buffer, start: nat, bodyEnd: nat, depth: nat, writer: JsonBufferWriter,
                          ghost fields: Bson.Fields) returns (failed: Option<Error>)
    requires writer.Valid() && Usable(p) && depth <= DepthLimit && bodyEnd < |bytes|
    modifies writer, writer.buffer
    ensures writer.Valid() && (writer.buffer == old(writer.buffer) || fresh(writer.buffer))
    ensures Remaining(bytes, start, bodyEnd, fields) ==>
              Finished(After(old(writer.Contents()), MembersText(p, fields, depth + 1, true)), writer.Contents(), failed)
    decreases DepthLimit + 1 - depth, 6
  {
    ghost var all := After(writer.Contents(), MembersText(p, fields, depth + 1, true));
    ghost var rest := fields;
    ghost var ok := Remaining(bytes, start, bodyEnd, fields);
    var cursor := start;
    var first := true;
    while cursor < bodyEnd
      invariant writer.Valid() && (writer.buffer == old(writer.buffer) || fresh(writer.buffer))
      invariant ok ==> Remaining(bytes, cursor, bodyEnd, rest)
                       && After(writer.Contents(), MembersText(p, rest, depth + 1, first)) == all
      decreases bodyEnd - cursor
    {
      var r := NextMember(p, bytes, cursor, bodyEnd, first, depth, writer, rest);
      if r.Failure? {
        return Some(r.error);
      }
      first := first && !r.value.defined;
      cursor := r.value.next;
      rest := if rest.Field? then rest.rest else rest;
    }
    return None;
  }

  ghost predicate Finished(all: Result<Buffer, Error>, after: Buffer, failed: Option<Error>) {
    match all
    case Failure(e) => failed == Some(e)
    case Success(text) => failed.None? && after == text
  }

  /** One item of an array: its index is skipped, and an undefined value is written as null. */
  method SerializeItem(p: Printers, bytes: Buffer, cursor: nat, first: bool, depth: nat, writer: JsonBufferWriter,
                       ghost v: Bson.Value, ghost expected: Result<Json, Error>, ghost end: nat) returns (r: Result<Element, Error>)
    requires writer.Valid() && Usable(p) && depth <= DepthLimit && cursor < |bytes|
    modifies writer, writer.buffer
    ensures writer.Valid() && (writer.buffer == old(writer.buffer) || fresh(writer.buffer))
    ensures r.Success? ==> cursor < r.value.next
    ensures match IndexOfZero(bytes, cursor + 1)
            case None => r == Failure(Malformed)
            case Some(keyEnd) =>
              Gives(p, bytes, keyEnd + 1, bytes[cursor], depth + 1, v, expected, end) ==>
                ItemAgrees(expected, old(writer.Contents()) + Comma(first), writer.Contents(), end, r)
    decreases DepthLimit + 1 - depth, 4, 1
  {
    var keyEnd := IndexOfZero(bytes, cursor + 1);
    if keyEnd.None? {
      return Failure(Malformed);
    }
    WriteComma(first, writer);
    r := SerializeItemValue(p, bytes, cursor, keyEnd.value + 1, bytes[cursor], depth, writer, v, expected, end);
  }

  method SerializeItemValue(p: Printers, bytes: Buffer, cursor: nat, offset: nat, kind: Byte, depth: nat, writer: JsonBufferWriter,
                            ghost v: Bson.Value, ghost expected: Result<Json, Error>, ghost end: nat)
    returns (r: Result<Element, Error>)
    requires writer.Valid() && Usable(p) && depth <= DepthLimit && cursor < offset
    modifies writer, writer.buffer
    ensures writer.Valid() && (writer.buffer == old(writer.buffer) || fresh(writer.buffer))
    ensures r.Success? ==> cursor < r.value.next
    ensures Gives(p, bytes, offset, kind, depth + 1, v, expected, end) ==>
              ItemAgrees(expected, old(writer.Contents()), writer.Contents(), end, r)
    decreases DepthLimit + 1 - depth, 4, 0
  {
    ghost var before := writer.Contents();
    r := SerializeValue(p, bytes, offset, kind, depth, writer, v, expected, end);
    ghost var wrote := writer.Contents();
    if r.Failure? {
      return;
    }
    if r.value.next <= cursor {
      return Failure(Malformed);
    }
    if !r.value.defined {
      writer.WriteBytes(NullText);
    }
    if Gives(p, bytes, offset, kind, depth + 1, v, expected, end) {
      NullInstead(expected, before, wrote, end, r);
    }
  }

  /** An undefined item is written as null. */
  lemma NullInstead(expected: Result<Json, Error>, before: Buffer, wrote: Buffer, end: nat, r: Result<Element, Error>)
    requires r.Success? && Agrees(expected, before, wrote, end, r)
    ensures ItemAgrees(expected, before, if r.value.defined then wrote else wrote + NullText, end, r)
  {
    assert expected.value.Undefined? ==> wrote == before;
  }

  ghost predicate ItemAgrees(expected: Result<Json, Error>, before: Buffer, after: Buffer, end: nat, r: Result<Element, Error>) {
    match expected
    case Failure(e) => r == Failure(e)
    case Success(j) =>
      r == Success(Element(end, !j.Undefined?)) && after == before + if j.Undefined? then NullText else Print(j)
  }

  method NextItem(p: Printers, bytes: Buffer, cursor: nat, bodyEnd: nat, first: bool, depth: nat, writer: JsonBufferWriter,
                     ghost rest: Bson.Fields) returns (r: Result<Element, Error>)
    requires writer.Valid() && Usable(p) && depth <= DepthLimit && cursor < bodyEnd < |bytes|
    modifies writer, writer.buffer
    ensures writer.Valid() && (writer.buffer == old(writer.buffer) || fresh(writer.buffer))
    ensures r.Success? ==> cursor < r.value.next
    ensures Remaining(bytes, cursor, bodyEnd, rest) ==>
              ItemMoved(p, bytes, bodyEnd, first, depth + 1, rest, old(writer.Contents()), writer.Contents(), r)
    decreases DepthLimit + 1 - depth, 5
  {
    ghost var before, expected, end := writer.Contents(), Filter(p, FirstValue(rest), depth + 1, false), FirstEnd(cursor, rest);
    ghost var ok := Remaining(bytes, cursor, bodyEnd, rest);
    if ok {
      FirstGives(p, bytes, cursor, bodyEnd, depth + 1, rest, expected, end);
    }
    r := SerializeItem(p, bytes, cursor, first, depth, writer, FirstValue(rest), expected, end);
    if ok {
      ItemsAdvance(p, bytes, bodyEnd, rest, depth + 1, first, before, writer.Contents(), end, r);
    }
  }

  method SerializeItems(p: Printers, bytes: Buffer, start: nat, bodyEnd: nat, depth: nat, writer: JsonBufferWriter,
                        ghost fields: Bson.Fields) returns (failed: Option<Error>)
    requires writer.Valid() && Usable(p) && depth <= DepthLimit && bodyEnd < |bytes|
    modifies writer, writer.buffer
    ensures writer.Valid() && (writer.buffer == old(writer.buffer) || fresh(writer.buffer))
    ensures Remaining(bytes, start, bodyEnd, fields) ==>
              Finished(After(old(writer.Contents()), ItemsText(p, fields, depth + 1, true)), writer.Contents(), failed)
    decreases DepthLimit + 1 - depth, 6
  {
    ghost var all := After(writer.Contents(), ItemsText(p, fields, depth + 1, true));
    ghost var rest := fields;
    ghost var ok := Remaining(bytes, start, bodyEnd, fields);
    var cursor := start;
    var first := true;
    while cursor < bodyEnd
      invariant writer.Valid() && (writer.buffer == old(writer.buffer) || fresh(writer.buffer))
      invariant ok ==> Remaining(bytes, cursor, bodyEnd, rest)
                       && After(writer.Contents(), ItemsText(p, rest, depth + 1, first)) == all
      decreases bodyEnd - cursor
    {
      var r := NextItem(p, bytes, cursor, bodyEnd, first, depth, writer, rest);
      if r.Failure? {
        return Some(r.error);
      }
      first := false;
      cursor := r.value.next;
      rest := if rest.Field? then rest.rest else rest;
    }
    return None;
  }

  method SerializeArray(p: Printers, bytes: Buffer, offset: nat, depth: nat, writer: JsonBufferWriter, ghost fields: Bson.Fields)
    returns (r: Result<nat, Error>)
    requires writer.Valid() && Usable(p) && depth <= DepthLimit + 1
    modifies writer, writer.buffer
    ensures writer.Valid() && (writer.buffer == old(writer.buffer) || fresh(writer.buffer))
    ensures IsDocument(bytes, offset, fields) ==>
              Wrote(FilterArray(p, fields, depth, false), old(writer.Contents()), writer.Contents(), offset + |Bson.DocumentBytes(fields)|, r)
    decreases DepthLimit + 1 - depth, 8
  {
    if depth > DepthLimit {
      return Failure(TooDeep);
    }
    if IsDocument(bytes, offset, fields) {
      DocumentReadsBack(bytes, offset, fields);
    }
    var length := Bson.DocumentLength(bytes, offset);
    if length.None? {
      return Failure(Malformed);
    }
    var failed := WriteArray(p, bytes, offset + 4, offset + length.value - 1, depth, writer, fields);
    return if failed.Some? then Failure(failed.value) else Success(offset + length.value);
  }

  /** The brackets, and what is between them. */
  method WriteArray(p: Printers, bytes: Buffer, start: nat, bodyEnd: nat, depth: nat, writer: JsonBufferWriter, ghost fields: Bson.Fields)
    returns (failed: Option<Error>)
    requires writer.Valid() && Usable(p) && depth <= DepthLimit && bodyEnd < |bytes|
    modifies writer, writer.buffer
    ensures writer.Valid() && (writer.buffer == old(writer.buffer) || fresh(writer.buffer))
    ensures Remaining(bytes, start, bodyEnd, fields) ==>
              WroteOrFailed(FilterArray(p, fields, depth, false), old(writer.Contents()), writer.Contents(), failed)
    decreases DepthLimit + 1 - depth, 7
  {
    ghost var base := writer.Contents();
    writer.WriteByte(0x5b);
    failed := SerializeItems(p, bytes, start, bodyEnd, depth, writer, fields);
    if Remaining(bytes, start, bodyEnd, fields) {
      ArrayWritten(p, fields, depth, base, writer.Contents(), failed);
    }
    if failed.None? {
      writer.WriteByte(0x5d);
    }
  }

  /** Skipping and serializing advance to the same offset. */
  method SkipAndSerializeAgree(p: Printers, bytes: Buffer, offset: nat, kind: Byte, depth: nat, writer: JsonBufferWriter, ghost v: Bson.Value)
    returns (skipped: Option<int>, r: Result<Element, Error>)
    requires writer.Valid() && Usable(p) && depth <= DepthLimit && IsValue(bytes, offset, kind, v)
    modifies writer, writer.buffer
    ensures writer.Valid()
    ensures r.Success? ==> skipped == Some(r.value.next)
  {
    Bson.SkipFindsEnd(bytes, offset, v);
    skipped := Bson.Skip(bytes, offset, kind);
    r := SerializeValue(p, bytes, offset, kind, depth, writer, v, Filter(p, v, depth + 1, false), offset + |Bson.Payload(v)|);
  }
}
