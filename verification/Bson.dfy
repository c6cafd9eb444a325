/** BSON values and their bytes. */
module Bson {
  // The bytes are those of the BSON specification 1.1; values are also skipped without being read.

  import opened Bytes
  import opened Wrappers

  datatype Value =
    | Double(bits: Buffer)
    | Str(text: Buffer)
    | Document(fields: Fields)
    | Array(fields: Fields)
    | Binary(subtype: Byte, data: Buffer)
    | Undefined
    | ObjectId(id: Buffer)
    | Boolean(value: Byte)
    | Date(bits: Buffer)
    | Null
    | Regex(pattern: Buffer, options: Buffer)
    | DbPointer(name: Buffer, id: Buffer)
    | Code(text: Buffer)
    | Symbol(text: Buffer)
    | CodeWithScope(text: Buffer, scope: Fields)
    | Int(bits: Buffer)
    | Timestamp(bits: Buffer)
    | Long(bits: Buffer)
    | Decimal128(bits: Buffer)
    | MinKey
    | MaxKey

  datatype Fields = End | Field(name: Buffer, value: Value, rest: Fields)

  function TypeOf(v: Value): Byte {
    match v
    case Double(_) => 0x01
    case Str(_) => 0x02
    case Document(_) => 0x03
    case Array(_) => 0x04
    case Binary(_, _) => 0x05
    case Undefined => 0x06
    case ObjectId(_) => 0x07
    case Boolean(_) => 0x08
    case Date(_) => 0x09
    case Null => 0x0a
    case Regex(_, _) => 0x0b
    case DbPointer(_, _) => 0x0c
    case Code(_) => 0x0d
    case Symbol(_) => 0x0e
    case CodeWithScope(_, _) => 0x0f
    case Int(_) => 0x10
    case Timestamp(_) => 0x11
    case Long(_) => 0x12
    case Decimal128(_) => 0x13
    case MinKey => 0xff
    case MaxKey => 0x7f
  }

  function StringBytes(text: Buffer): Buffer {
    Int32(|text| + 1) + text + [0]
  }

  function Payload(v: Value): Buffer
    decreases v, 0
  {
    match v
    case Double(bits) => bits
    case Str(text) => StringBytes(text)
    case Document(fields) => DocumentBytes(fields)
    case Array(fields) => DocumentBytes(fields)
    case Binary(subtype, data) => Int32(|data|) + [subtype] + data
    case ObjectId(id) => id
    case Boolean(b) => [b]
    case Date(bits) => bits
    case Regex(pattern, options) => (pattern + [0]) + (options + [0])
    case DbPointer(name, id) => StringBytes(name) + id
    case Code(text) => StringBytes(text)
    case Symbol(text) => StringBytes(text)
    case CodeWithScope(text, scope) =>
      Int32(4 + |StringBytes(text)| + |DocumentBytes(scope)|) + StringBytes(text) + DocumentBytes(scope)
    case Int(bits) => bits
    case Timestamp(bits) => bits
    case Long(bits) => bits
    case Decimal128(bits) => bits
    case _ => []
  }

  function FieldsBytes(fields: Fields): Buffer
    decreases fields, 0
  {
    match fields
    case End => []
    case Field(name, value, rest) => [TypeOf(value)] + (name + [0]) + (Payload(value) + FieldsBytes(rest))
  }

  function DocumentBytes(fields: Fields): Buffer
    decreases fields, 1
  {
    Int32(|FieldsBytes(fields)| + 5) + FieldsBytes(fields) + [0]
  }

  const Limit := 0x8000_0000

  /** Lengths fit their prefix, fixed-size values have their size, and names hold no zero byte. */
  ghost predicate WellFormed(v: Value) {
    match v
    case Double(bits) => |bits| == 8
    case Str(text) => |text| + 1 < Limit
    case Document(fields) => WellFormedFields(fields)
    case Array(fields) => WellFormedFields(fields)
    case Binary(subtype, data) =>
      |data| < Limit
      && (subtype == 2 ==> ReadInt32(data, 0).Some? && 0 <= ReadInt32(data, 0).value <= |data| - 4)
    case ObjectId(id) => |id| == 12
    case Date(bits) => |bits| == 8
    case Regex(pattern, options) => NoZero(pattern) && NoZero(options)
    case DbPointer(name, id) => |name| + 1 < Limit && |id| == 12
    case Code(text) => |text| + 1 < Limit
    case Symbol(text) => |text| + 1 < Limit
    case CodeWithScope(text, scope) =>
      WellFormedFields(scope) && 4 + |StringBytes(text)| + |DocumentBytes(scope)| < Limit
    case Int(bits) => |bits| == 4
    case Timestamp(bits) => |bits| == 8
    case Long(bits) => |bits| == 8
    case Decimal128(bits) => |bits| == 16
    case _ => true
  }

  ghost predicate WellFormedFields(fields: Fields) {
    |FieldsBytes(fields)| + 5 < Limit && (fields.Field? ==> NoZero(fields.name) && WellFormed(fields.value) && WellFormedFields(fields.rest))
  }

  // ----- reading -----

  /** The end of a length-prefixed string, checked. */
  function StringEnd(bytes: Buffer, offset: nat): (r: Option<nat>)
    ensures r.Some? ==> offset + 5 <= r.value <= |bytes|
  {
    var length := ReadInt32(bytes, offset);
    if length.None? || length.value < 1 || offset + 4 + length.value > |bytes| then None
    else if bytes[offset + 4 + length.value - 1] != 0 then None
    else Some(offset + 4 + length.value)
  }

  /** The length of a document, checked. */
  function DocumentLength(bytes: Buffer, offset: nat): (r: Option<nat>)
    ensures r.Some? ==> 5 <= r.value && offset + r.value <= |bytes|
  {
    var length := ReadInt32(bytes, offset);
    if length.None? || length.value < 5 || offset + length.value > |bytes| then None
    else if bytes[offset + length.value - 1] != 0 then None
    else Some(length.value)
  }

  /** The offset after a value of the given type, without looking inside it. */
  function Skip(bytes: Buffer, offset: nat, kind: Byte): Option<int> {
    if kind == 0x01 || kind == 0x09 || kind == 0x11 || kind == 0x12 then Some(offset + 8)
    else if kind == 0x02 then
      var length := ReadInt32(bytes, offset);
      if length.None? then None else Some(offset + 4 + length.value)
    else if kind == 0x03 || kind == 0x04 || kind == 0x0f then
      var length := ReadInt32(bytes, offset);
      if length.None? then None else Some(offset + length.value)
    else if kind == 0x05 then
      var length := ReadInt32(bytes, offset);
      if length.None? then None else Some(offset + 4 + 1 + length.value)
    else if kind == 0x06 || kind == 0x0a || kind == 0xff || kind == 0x7f then Some(offset)
    else if kind == 0x07 then Some(offset + 12)
    else if kind == 0x08 then Some(offset + 1)
    else if kind == 0x0b then
      var patternEnd := IndexOfZero(bytes, offset);
      if patternEnd.None? then None
      else
        var optionsEnd := IndexOfZero(bytes, patternEnd.value + 1);
        if optionsEnd.None? then None else Some(optionsEnd.value + 1)
    else if kind == 0x0c then
      var end := StringEnd(bytes, offset);
      if end.None? then None else Some(end.value + 12)
    else if kind == 0x0d || kind == 0x0e then
      var end := StringEnd(bytes, offset);
      if end.None? then None else Some(end.value)
    else if kind == 0x10 then Some(offset + 4)
    else if kind == 0x13 then Some(offset + 16)
    else None
  }

  lemma StringIsRead(bytes: Buffer, offset: nat, text: Buffer)
    requires |text| + 1 < Limit && At(bytes, offset, StringBytes(text))
    ensures ReadInt32(bytes, offset) == Some(|text| + 1)
    ensures StringEnd(bytes, offset) == Some(offset + |StringBytes(text)|)
    ensures At(bytes, offset + 4, text)
  {
    assert StringBytes(text) == Int32(|text| + 1) + (text + [0]);
    AtSplit(bytes, offset, Int32(|text| + 1), text + [0]);
    ReadsBack(bytes, offset, |text| + 1);
    AtSplit(bytes, offset + 4, text, [0]);
    AtIndex(bytes, offset + 4 + |text|, [0], 0);
  }

  /** A length, a body and its terminator. */
  lemma FrameIsRead(bytes: Buffer, offset: nat, body: Buffer)
    requires |body| + 5 < Limit && At(bytes, offset, Int32(|body| + 5) + body + [0])
    ensures ReadInt32(bytes, offset) == Some(|body| + 5)
    ensures DocumentLength(bytes, offset) == Some(|body| + 5)
    ensures At(bytes, offset + 4, body + [0])
  {
    assert Int32(|body| + 5) + body + [0] == Int32(|body| + 5) + (body + [0]);
    AtSplit(bytes, offset, Int32(|body| + 5), body + [0]);
    ReadsBack(bytes, offset, |body| + 5);
    AtSplit(bytes, offset + 4, body, [0]);
    AtIndex(bytes, offset + 4 + |body|, [0], 0);
  }

  lemma DocumentIsRead(bytes: Buffer, offset: nat, fields: Fields)
    requires WellFormedFields(fields) && At(bytes, offset, DocumentBytes(fields))
    ensures ReadInt32(bytes, offset) == Some(|DocumentBytes(fields)|)
    ensures DocumentLength(bytes, offset) == Some(|DocumentBytes(fields)|)
    ensures At(bytes, offset + 4, FieldsBytes(fields) + [0])
    ensures |DocumentBytes(fields)| == |FieldsBytes(fields)| + 5
  {
    FrameIsRead(bytes, offset, FieldsBytes(fields));
  }

  lemma HeadIsRead(bytes: Buffer, cursor: nat, kind: Byte, name: Buffer)
    requires NoZero(name) && At(bytes, cursor, [kind] + (name + [0]))
    ensures bytes[cursor] == kind && IndexOfZero(bytes, cursor + 1) == Some(cursor + 1 + |name|) && At(bytes, cursor + 1, name)
  {
    AtSplit(bytes, cursor, [kind], name + [0]);
    AtIndex(bytes, cursor, [kind], 0);
    AtSplit(bytes, cursor + 1, name, [0]);
    FindsName(bytes, cursor + 1, name);
  }

  lemma ElementIsRead(bytes: Buffer, cursor: nat, kind: Byte, name: Buffer, payload: Buffer, tail: Buffer)
    requires NoZero(name) && At(bytes, cursor, [kind] + (name + [0]) + (payload + tail))
    ensures bytes[cursor] == kind
    ensures IndexOfZero(bytes, cursor + 1) == Some(cursor + 1 + |name|)
    ensures At(bytes, cursor + 1, name)
    ensures At(bytes, cursor + 2 + |name|, payload) && At(bytes, cursor + 2 + |name| + |payload|, tail)
  {
    var head, body, next := [kind] + (name + [0]), payload + tail, cursor + 2 + |name|;
    AtSplit(bytes, cursor, head, body);
    assert |head| == 2 + |name|;
    AtSplit(bytes, next, payload, tail);
    HeadIsRead(bytes, cursor, kind, name);
  }

  lemma FirstField(fields: Fields)
    requires fields.Field?
    ensures FieldsBytes(fields) + [0]
         == [TypeOf(fields.value)] + (fields.name + [0]) + (Payload(fields.value) + (FieldsBytes(fields.rest) + [0]))
    ensures |FieldsBytes(fields)| == 2 + |fields.name| + |Payload(fields.value)| + |FieldsBytes(fields.rest)|
  {
    var a, b, c := [TypeOf(fields.value)] + (fields.name + [0]), Payload(fields.value), FieldsBytes(fields.rest);
    assert FieldsBytes(fields) == a + (b + c);
    assert a + (b + c) + [0] == a + (b + (c + [0]));
  }

  /** The first field of a list is where it was put, and the rest follows its value. */
  lemma FieldIsRead(bytes: Buffer, cursor: nat, fields: Fields)
    requires fields.Field? && WellFormedFields(fields) && At(bytes, cursor, FieldsBytes(fields) + [0])
    ensures bytes[cursor] == TypeOf(fields.value)
    ensures IndexOfZero(bytes, cursor + 1) == Some(cursor + 1 + |fields.name|)
    ensures At(bytes, cursor + 1, fields.name)
    ensures At(bytes, cursor + 2 + |fields.name|, Payload(fields.value))
    ensures At(bytes, cursor + 2 + |fields.name| + |Payload(fields.value)|, FieldsBytes(fields.rest) + [0])
    ensures |FieldsBytes(fields)| == 2 + |fields.name| + |Payload(fields.value)| + |FieldsBytes(fields.rest)|
  {
    FirstField(fields);
    ElementIsRead(bytes, cursor, TypeOf(fields.value), fields.name, Payload(fields.value), FieldsBytes(fields.rest) + [0]);
  }

  lemma LengthAndTwo(bytes: Buffer, offset: nat, a: Buffer, b: Buffer)
    requires 4 + |a| + |b| < Limit && At(bytes, offset, Int32(4 + |a| + |b|) + a + b)
    ensures ReadInt32(bytes, offset) == Some(4 + |a| + |b|)
    ensures At(bytes, offset + 4, a) && At(bytes, offset + 4 + |a|, b)
  {
    var n := 4 + |a| + |b|;
    AtSplit(bytes, offset, Int32(n) + a, b);
    AtSplit(bytes, offset, Int32(n), a);
    ReadsBack(bytes, offset, n);
  }

  lemma ScopeIsRead(bytes: Buffer, offset: nat, text: Buffer, scope: Fields)
    requires WellFormed(CodeWithScope(text, scope)) && At(bytes, offset, Payload(CodeWithScope(text, scope)))
    ensures ReadInt32(bytes, offset) == Some(|Payload(CodeWithScope(text, scope))|)
    ensures At(bytes, offset + 4, StringBytes(text))
    ensures At(bytes, offset + 4 + |StringBytes(text)|, DocumentBytes(scope))
  {
    LengthAndTwo(bytes, offset, StringBytes(text), DocumentBytes(scope));
  }

  lemma BinaryIsRead(bytes: Buffer, offset: nat, subtype: Byte, data: Buffer)
    requires |data| < Limit && At(bytes, offset, Payload(Binary(subtype, data)))
    ensures ReadInt32(bytes, offset) == Some(|data|)
    ensures bytes[offset + 4] == subtype && At(bytes, offset + 5, data)
  {
    assert Payload(Binary(subtype, data)) == Int32(|data|) + ([subtype] + data);
    AtSplit(bytes, offset, Int32(|data|), [subtype] + data);
    ReadsBack(bytes, offset, |data|);
    AtSplit(bytes, offset + 4, [subtype], data);
    AtIndex(bytes, offset + 4, [subtype], 0);
  }

  lemma RegexIsRead(bytes: Buffer, offset: nat, pattern: Buffer, options: Buffer)
    requires NoZero(pattern) && NoZero(options) && At(bytes, offset, Payload(Regex(pattern, options)))
    ensures IndexOfZero(bytes, offset) == Some(offset + |pattern|)
    ensures IndexOfZero(bytes, offset + |pattern| + 1) == Some(offset + |pattern| + 1 + |options|)
    ensures At(bytes, offset, pattern) && At(bytes, offset + |pattern| + 1, options)
  {
    AtSplit(bytes, offset, pattern + [0], options + [0]);
    FindsName(bytes, offset, pattern);
    FindsName(bytes, offset + |pattern| + 1, options);
    AtSplit(bytes, offset, pattern, [0]);
    AtSplit(bytes, offset + |pattern| + 1, options, [0]);
  }

  lemma SkipNested(bytes: Buffer, offset: nat, v: Value)
    requires WellFormed(v) && At(bytes, offset, Payload(v)) && (v.Document? || v.Array?)
    ensures Skip(bytes, offset, TypeOf(v)) == Some(offset + |Payload(v)|)
  {
    DocumentIsRead(bytes, offset, v.fields);
  }

  lemma SkipBinary(bytes: Buffer, offset: nat, v: Value)
    requires WellFormed(v) && At(bytes, offset, Payload(v)) && v.Binary?
    ensures Skip(bytes, offset, TypeOf(v)) == Some(offset + |Payload(v)|)
  {
    BinaryIsRead(bytes, offset, v.subtype, v.data);
  }

  lemma SkipRegex(bytes: Buffer, offset: nat, v: Value)
    requires WellFormed(v) && At(bytes, offset, Payload(v)) && v.Regex?
    ensures Skip(bytes, offset, TypeOf(v)) == Some(offset + |Payload(v)|)
  {
    RegexIsRead(bytes, offset, v.pattern, v.options);
  }

  lemma SkipScope(bytes: Buffer, offset: nat, v: Value)
    requires WellFormed(v) && At(bytes, offset, Payload(v)) && v.CodeWithScope?
    ensures Skip(bytes, offset, TypeOf(v)) == Some(offset + |Payload(v)|)
  {
    ScopeIsRead(bytes, offset, v.text, v.scope);
  }

  lemma SkipText(bytes: Buffer, offset: nat, v: Value)
    requires WellFormed(v) && At(bytes, offset, Payload(v)) && (v.Str? || v.Code? || v.Symbol?)
    ensures Skip(bytes, offset, TypeOf(v)) == Some(offset + |Payload(v)|)
  {
    StringIsRead(bytes, offset, v.text);
  }

  lemma SkipPointer(bytes: Buffer, offset: nat, v: Value)
    requires WellFormed(v) && At(bytes, offset, Payload(v)) && v.DbPointer?
    ensures Skip(bytes, offset, TypeOf(v)) == Some(offset + |Payload(v)|)
  {
    AtSplit(bytes, offset, StringBytes(v.name), v.id);
    StringIsRead(bytes, offset, v.name);
  }

  /** Skipping a well-formed value lands exactly on its end. */
  lemma SkipFindsEnd(bytes: Buffer, offset: nat, v: Value)
    requires WellFormed(v) && At(bytes, offset, Payload(v))
    ensures Skip(bytes, offset, TypeOf(v)) == Some(offset + |Payload(v)|)
  {
    if v.Document? || v.Array? {
      SkipNested(bytes, offset, v);
    } else if v.Binary? {
      SkipBinary(bytes, offset, v);
    } else if v.Regex? {
      SkipRegex(bytes, offset, v);
    } else if v.CodeWithScope? {
      SkipScope(bytes, offset, v);
    } else if v.Str? || v.Code? || v.Symbol? {
      SkipText(bytes, offset, v);
    } else if v.DbPointer? {
      SkipPointer(bytes, offset, v);
    }
  }

  // ----- the document id -----

  const IdKey: Buffer := Ascii("_id")

  /** The first value named _id, wherever it occurs. */
  function FirstId(fields: Fields): Option<Value> {
    match fields
    case End => None
    case Field(name, value, rest) => if name == IdKey then Some(value) else FirstId(rest)
  }

  lemma ElementBytes(bytes: Buffer, offset: nat, fields: Fields)
    requires fields.Field? && At(bytes, offset, FieldsBytes(fields) + [0])
    ensures var n := 2 + |fields.name| + |Payload(fields.value)|;
            offset + n <= |bytes| && bytes[offset..offset + n] == FieldsBytes(Field(fields.name, fields.value, End))
  {
    var element := [TypeOf(fields.value)] + (fields.name + [0]) + Payload(fields.value);
    var tail := FieldsBytes(fields.rest) + [0];
    FirstField(fields);
    assert FieldsBytes(fields) + [0] == element + tail;
    AtSplit(bytes, offset, element, tail);
    assert FieldsBytes(Field(fields.name, fields.value, End)) == element by {
      assert Payload(fields.value) + [] == Payload(fields.value);
    }
  }

  /** The fields that remain at an offset, up to the end of the document. */
  ghost predicate Remaining(bytes: Buffer, offset: nat, rest: Fields) {
    WellFormedFields(rest) && At(bytes, offset, FieldsBytes(rest) + [0]) && offset + |FieldsBytes(rest)| == |bytes| - 1
  }

  lemma OneField(bytes: Buffer, offset: nat, rest: Fields)
    requires Remaining(bytes, offset, rest) && rest.Field?
    ensures offset < |bytes| && bytes[offset] == TypeOf(rest.value)
    ensures IndexOfZero(bytes, offset + 1) == Some(offset + 1 + |rest.name|)
    ensures At(bytes, offset + 1, rest.name) && At(bytes, offset + 2 + |rest.name|, Payload(rest.value))
    ensures Remaining(bytes, offset + 2 + |rest.name| + |Payload(rest.value)|, rest.rest) && WellFormed(rest.value)
  {
    FieldIsRead(bytes, offset, rest);
  }

  /** The next field is found, and skipped, by its bytes alone. */
  lemma OneSkip(bytes: Buffer, offset: nat, rest: Fields) returns (next: nat)
    requires Remaining(bytes, offset, rest) && rest.Field?
    ensures offset < |bytes| && next == offset + 2 + |rest.name| + |Payload(rest.value)|
    ensures IndexOfZero(bytes, offset + 1) == Some(offset + 1 + |rest.name|)
    ensures Skip(bytes, offset + 2 + |rest.name|, bytes[offset]) == Some(next)
    ensures bytes[offset + 1..offset + 1 + |rest.name|] == rest.name && Remaining(bytes, next, rest.rest)
  {
    var at, v := offset + 2 + |rest.name|, rest.value;
    next := at + |Payload(v)|;
    OneField(bytes, offset, rest);
    SkipFindsEnd(bytes, at, v);
  }

  /** Whether the next field is the id, and where it ends. */
  method ReadKey(bytes: Buffer, offset: nat, ghost rest: Fields) returns (isId: bool, next: nat)
    requires Remaining(bytes, offset, rest) && offset < |bytes| - 1
    ensures rest.Field? && (isId <==> rest.name == IdKey)
    ensures next == offset + 2 + |rest.name| + |Payload(rest.value)| && Remaining(bytes, next, rest.rest)
  {
    assert rest.Field?;
    ghost var end := OneSkip(bytes, offset, rest);
    isId, next := ScanKey(bytes, offset, rest.name, end);
  }

  method ScanKey(bytes: Buffer, offset: nat, ghost name: Buffer, ghost end: nat) returns (isId: bool, next: nat)
    requires offset < |bytes| && IndexOfZero(bytes, offset + 1) == Some(offset + 1 + |name|)
    requires Skip(bytes, offset + 2 + |name|, bytes[offset]) == Some(end) && bytes[offset + 1..offset + 1 + |name|] == name
    ensures next == end && (isId <==> name == IdKey)
  {
    var keyEnd := IndexOfZero(bytes, offset + 1).value;
    next := Skip(bytes, keyEnd + 1, bytes[offset]).value;
    isId := keyEnd - (offset + 1) == 3 && bytes[offset + 1..keyEnd] == IdKey;
  }

  /** Where the element named _id begins and ends; `found` is the list of fields it begins. */
  method FindId(bytes: Buffer, start: nat, bodyEnd: nat, ghost fields: Fields) returns (r: Option<(nat, nat)>, ghost found: Fields)
    requires Remaining(bytes, start, fields) && bodyEnd == |bytes| - 1
    ensures r.None? ==> FirstId(fields).None?
    ensures r.Some? ==> found.Field? && found.name == IdKey && FirstId(fields) == Some(found.value)
                        && Remaining(bytes, r.value.0, found)
                        && r.value.1 == r.value.0 + 2 + |found.name| + |Payload(found.value)|
  {
    var offset: nat := start;
    found := fields;
    while offset < bodyEnd
      invariant Remaining(bytes, offset, found) && FirstId(found) == FirstId(fields)
      decreases found
    {
      var isId, nextOffset := ReadKey(bytes, offset, found);
      if isId {
        return Some((offset, nextOffset)), found;
      }
      offset := nextOffset;
      found := found.rest;
    }
    return None, found;
  }

  /** The id of a document, as a document that holds only it. */
  method ParseDocumentId(bytes: Buffer, ghost fields: Fields) returns (r: Option<Buffer>)
    requires WellFormedFields(fields) && bytes == DocumentBytes(fields)
    ensures r.None? <==> FirstId(fields).None?
    ensures r.Some? ==> r.value == DocumentBytes(Field(IdKey, FirstId(fields).value, End))
  {
    assert bytes[0..|bytes|] == bytes;
    DocumentIsRead(bytes, 0, fields);
    var id, found := FindId(bytes, 4, DocumentLength(bytes, 0).value - 1, fields);
    if id.None? {
      return None;
    }
    ElementBytes(bytes, id.value.0, found);
    return Some(Framed(bytes[id.value.0..id.value.1]));
  }

  function Framed(elements: Buffer): (r: Buffer)
    ensures forall fields :: FieldsBytes(fields) == elements ==> DocumentBytes(fields) == r
  {
    Int32(|elements| + 5) + elements + [0]
  }

  /** The id document reads like any other: its one field is the original element. */
  lemma IdDocumentIsWellFormed(fields: Fields)
    requires WellFormedFields(fields) && FirstId(fields).Some?
    ensures WellFormedFields(Field(IdKey, FirstId(fields).value, End))
    ensures |DocumentBytes(Field(IdKey, FirstId(fields).value, End))| <= |DocumentBytes(fields)|
  {
    if fields.name != IdKey {
      IdDocumentIsWellFormed(fields.rest);
    }
  }
}
