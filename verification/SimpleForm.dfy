/** The simple form: filter a decoded value, then print it as JSON. */
module SimpleForm {
  import opened Bytes
  import opened JsonText
  import opened JsonWriter
  import Bson
  import opened Wrappers

  const DepthLimit := 20

  datatype Error = TooDeep | InvalidDate | Malformed

  /** A decoded value after filtering. Undefined is left for the printer to drop. */
  datatype Json =
    | Undefined
    | Null
    | Number(text: Buffer)
    | String(text: Buffer)
    | Object(members: Members)
    | List(items: Items)

  datatype Members = NoMembers | Member(name: Buffer, value: Json, rest: Members)
  datatype Items = NoItems | Item(value: Json, rest: Items)

  datatype DateText = InvalidTime | Common(time: DateTime) | Extended(text: Buffer)

  /** Foreign conversions, as functions of the value's bytes. A double that is not finite has no text. The BSON
      library may read a document with the names of a database reference as an object of its own; its members
      are those given here. */
  datatype Printers = Printers(
    double: Buffer -> Option<Buffer>,
    int32: Buffer -> Buffer,
    timestamp: Buffer -> Buffer,
    int64: Buffer -> Buffer,
    decimal128: Buffer -> Buffer,
    date: Buffer -> DateText,
    reference: Bson.Fields -> Bson.Fields,
    separator: Byte,
    milliseconds: bool)

  ghost predicate Usable(p: Printers) {
    && (forall bits :: p.date(bits).Common? ==> InRange(p.date(bits).time))
    && (p.separator == 0x54 || p.separator == 0x20)
  }

  const CodeName: Buffer := Ascii("code")
  const ScopeName: Buffer := Ascii("scope")
  const CollectionName: Buffer := Ascii("collection")
  const OidName: Buffer := Ascii("oid")
  const DbName: Buffer := Ascii("db")
  const FieldsName: Buffer := Ascii("fields")
  const PatternName: Buffer := Ascii("pattern")
  const OptionsName: Buffer := Ascii("options")
  const NullText: Buffer := Ascii("null")

  /** The database before the first dot of a namespace, if there is one. */
  function DotIndex(name: Buffer): (i: nat)
    ensures i <= |name|
  {
    if name == [] || name[0] == 0x2e then 0 else 1 + DotIndex(name[1..])
  }

  function DateJson(p: Printers, bits: Buffer): Result<Json, Error> {
    match p.date(bits)
    case InvalidTime => Failure(InvalidDate)
    case Common(t) => Success(String(DateTimeText(t, p.separator, p.milliseconds)))
    case Extended(text) => Success(String(text))
  }

  function PointerTail(name: Buffer): Members {
    var dot := DotIndex(name);
    var fields := Member(FieldsName, Object(NoMembers), NoMembers);
    if dot < |name| then Member(DbName, String(name[..dot]), fields) else fields
  }

  function PointerJson(name: Buffer, id: Buffer): Json {
    var dot := DotIndex(name);
    var collection := if dot < |name| then name[dot + 1..] else name;
    Object(Member(CollectionName, String(collection), Member(OidName, String(HexAll(id)), PointerTail(name))))
  }

  function CodeJson(text: Buffer, scope: Json): Json {
    Object(Member(CodeName, String(text), Member(ScopeName, scope, NoMembers)))
  }

  function RegexJson(pattern: Buffer, options: Buffer): Json {
    Object(Member(PatternName, String(pattern), Member(OptionsName, String(options), NoMembers)))
  }

  /** Only UUIDs are kept. */
  function BinaryJson(subtype: Byte, data: Buffer): Json {
    if subtype == 4 && |data| == 16 then String(UuidText(data)) else Undefined
  }

  /** A value without parts. */
  function Scalar(p: Printers, v: Bson.Value): Result<Json, Error>
    requires !v.Document? && !v.Array? && !v.CodeWithScope?
  {
    match v
    case Double(bits) => Success(if p.double(bits).None? then Null else Number(p.double(bits).value))
    case Str(text) => Success(String(text))
    case Binary(subtype, data) => Success(BinaryJson(subtype, data))
    case Undefined => Success(Undefined)
    case ObjectId(id) => Success(String(HexAll(id)))
    case Boolean(b) => Success(Number(if b != 0 then [0x31] else [0x30]))
    case Date(bits) => DateJson(p, bits)
    case Regex(pattern, options) => Success(RegexJson(pattern, options))
    case DbPointer(name, id) => Success(PointerJson(name, id))
    case Code(text) => Success(CodeJson(text, Null))
    case Symbol(text) => Success(String(text))
    case Int(bits) => Success(Number(p.int32(bits)))
    case Timestamp(bits) => Success(Number(p.timestamp(bits)))
    case Long(bits) => Success(Number(p.int64(bits)))
    case Decimal128(bits) => Success(String(p.decimal128(bits)))
    case _ => Success(Null)
  }

  /** How deep the parts of a scalar's record reach. */
  function Reach(v: Bson.Value): nat {
    if v.Code? || v.DbPointer? then 1 else 0
  }

  /** The filter. With `strict`, every value is held to the depth limit, as the simple form does; without,
      only documents and arrays are, and the scope of code counts from the code's own depth. */
  function Filter(p: Printers, v: Bson.Value, depth: nat, strict: bool): Result<Json, Error>
    decreases v, 0
  {
    match v
    case Document(fields) => FilterDocument(p, fields, depth, strict)
    case Array(fields) => FilterArray(p, fields, depth, strict)
    case CodeWithScope(text, scope) =>
      if strict && depth + 1 > DepthLimit then Failure(TooDeep)
      else
        var filtered := FilterDocument(p, scope, if strict then depth + 1 else depth, strict);
        if filtered.Failure? then Failure(filtered.error)
        else Success(CodeJson(text, filtered.value))
    case _ =>
      if strict && depth + Reach(v) > DepthLimit then Failure(TooDeep) else Scalar(p, v)
  }

  function FilterDocument(p: Printers, fields: Bson.Fields, depth: nat, strict: bool): (r: Result<Json, Error>)
    decreases fields, 1
  {
    if depth > DepthLimit then Failure(TooDeep)
    else
      var members := FilterMembers(p, fields, depth + 1, strict);
      if members.Failure? then Failure(members.error) else Success(Object(members.value))
  }

  function FilterArray(p: Printers, fields: Bson.Fields, depth: nat, strict: bool): (r: Result<Json, Error>)
    decreases fields, 1
  {
    if depth > DepthLimit then Failure(TooDeep)
    else
      var items := FilterItems(p, fields, depth + 1, strict);
      if items.Failure? then Failure(items.error) else Success(List(items.value))
  }

  function FilterMembers(p: Printers, fields: Bson.Fields, depth: nat, strict: bool): Result<Members, Error>
    decreases fields, 0
  {
    match fields
    case End => Success(NoMembers)
    case Field(name, value, rest) =>
      var v := Filter(p, value, depth, strict);
      if v.Failure? then Failure(v.error)
      else
        var r := FilterMembers(p, rest, depth, strict);
        if r.Failure? then Failure(r.error) else Success(Member(name, v.value, r.value))
  }

  function FilterItems(p: Printers, fields: Bson.Fields, depth: nat, strict: bool): Result<Items, Error>
    decreases fields, 0
  {
    match fields
    case End => Success(NoItems)
    case Field(_, value, rest) =>
      var v := Filter(p, value, depth, strict);
      if v.Failure? then Failure(v.error)
      else
        var r := FilterItems(p, rest, depth, strict);
        if r.Failure? then Failure(r.error) else Success(Item(v.value, r.value))
  }

  // ----- printing, as JSON.stringify does -----

  function Print(j: Json): Buffer
    decreases j, 0
  {
    match j
    case Undefined => []
    case Null => NullText
    case Number(text) => text
    case String(text) => Quoted(text)
    case Object(members) => [0x7b] + PrintMembers(members, true) + [0x7d]
    case List(items) => [0x5b] + PrintItems(items, true) + [0x5d]
  }

  function Comma(first: bool): Buffer {
    if first then [] else [0x2c]
  }

  /** Undefined members vanish, and take their comma with them. */
  function PrintMembers(members: Members, first: bool): Buffer
    decreases members, 0
  {
    match members
    case NoMembers => []
    case Member(name, value, rest) =>
      if value.Undefined? then PrintMembers(rest, first)
      else Comma(first) + Quoted(name) + [0x3a] + Print(value) + PrintMembers(rest, false)
  }

  /** Undefined items become null. */
  function PrintItems(items: Items, first: bool): Buffer
    decreases items, 0
  {
    match items
    case NoItems => []
    case Item(value, rest) =>
      Comma(first) + (if value.Undefined? then NullText else Print(value)) + PrintItems(rest, false)
  }

  // ----- the two depth checks -----

  /** What the strict filter accepts, the lenient one accepts with the same result, at any smaller depth. */
  lemma {:induction false} StrictIsLenient(p: Printers, v: Bson.Value, depth: nat, depth': nat)
    requires depth' <= depth && Filter(p, v, depth, true).Success?
    ensures Filter(p, v, depth', false) == Filter(p, v, depth, true)
    decreases v, 0
  {
    match v
    case Document(fields) => StrictDocument(p, fields, depth, depth');
    case Array(fields) => StrictArray(p, fields, depth, depth');
    case CodeWithScope(text, scope) => StrictDocument(p, scope, depth + 1, depth');
    case _ =>
  }

  lemma {:induction false} StrictDocument(p: Printers, fields: Bson.Fields, depth: nat, depth': nat)
    requires depth' <= depth && FilterDocument(p, fields, depth, true).Success?
    ensures FilterDocument(p, fields, depth', false) == FilterDocument(p, fields, depth, true)
    decreases fields, 1
  {
    StrictMembers(p, fields, depth + 1, depth' + 1);
  }

  lemma {:induction false} StrictArray(p: Printers, fields: Bson.Fields, depth: nat, depth': nat)
    requires depth' <= depth && FilterArray(p, fields, depth, true).Success?
    ensures FilterArray(p, fields, depth', false) == FilterArray(p, fields, depth, true)
    decreases fields, 1
  {
    StrictItems(p, fields, depth + 1, depth' + 1);
  }

  /** What becomes of a document or array column. */
  function FilterColumn(p: Printers, fields: Bson.Fields, isArray: bool, strict: bool): Result<Json, Error> {
    if isArray then FilterArray(p, fields, 0, strict) else FilterDocument(p, fields, 0, strict)
  }

  lemma StrictColumn(p: Printers, fields: Bson.Fields, isArray: bool)
    requires FilterColumn(p, fields, isArray, true).Success?
    ensures FilterColumn(p, fields, isArray, false) == FilterColumn(p, fields, isArray, true)
  {
    if isArray {
      StrictArray(p, fields, 0, 0);
    } else {
      StrictDocument(p, fields, 0, 0);
    }
  }

  lemma {:induction false} StrictMembers(p: Printers, fields: Bson.Fields, depth: nat, depth': nat)
    requires depth' <= depth && FilterMembers(p, fields, depth, true).Success?
    ensures FilterMembers(p, fields, depth', false) == FilterMembers(p, fields, depth, true)
    decreases fields, 0
  {
    match fields
    case End =>
    case Field(name, value, rest) =>
      StrictIsLenient(p, value, depth, depth');
      StrictMembers(p, rest, depth, depth');
  }

  lemma {:induction false} StrictItems(p: Printers, fields: Bson.Fields, depth: nat, depth': nat)
    requires depth' <= depth && FilterItems(p, fields, depth, true).Success?
    ensures FilterItems(p, fields, depth', false) == FilterItems(p, fields, depth, true)
    decreases fields, 0
  {
    match fields
    case End =>
    case Field(name, value, rest) =>
      StrictIsLenient(p, value, depth, depth');
      StrictItems(p, rest, depth, depth');
  }

  /** A filtered document or array is never undefined. */
  lemma ColumnIsDefined(p: Printers, fields: Bson.Fields, depth: nat, strict: bool)
    ensures FilterDocument(p, fields, depth, strict).Success? ==> FilterDocument(p, fields, depth, strict).value.Object?
    ensures FilterArray(p, fields, depth, strict).Success? ==> FilterArray(p, fields, depth, strict).value.List?
  {
  }
}
