/** Columns of JSON. */
module JsonColumns {
  // A column written directly, against the simple form with its JavaScript records.

  import opened Bytes
  import opened JsonWriter
  import opened SimpleForm
  import opened RecordForm
  import opened BsonToJson
  import Bson
  import opened Wrappers

  /** A document or array column: the text is the print of its filtered members, and the end is the value's
      end. Whenever the simple form accepts the value, and no document in it has both names of a database
      reference, that is the simple form's text if and only if the kept members of every document in it are in
      the order of a record. */
  method ColumnToJson(p: Printers, bytes: Buffer, offset: nat, isArray: bool, writer: JsonBufferWriter, ghost fields: Bson.Fields)
    returns (r: Result<nat, Error>)
    requires writer.Valid() && Usable(p)
    modifies writer, writer.buffer
    ensures writer.Valid() && (writer.buffer == old(writer.buffer) || fresh(writer.buffer))
    ensures IsDocument(bytes, offset, fields) ==>
              Wrote(FilterColumn(p, fields, isArray, false), [], writer.Contents(), offset + |Bson.DocumentBytes(fields)|, r)
    ensures IsDocument(bytes, offset, fields) && PlainColumn(fields, isArray) && SimpleColumn(p, fields, isArray).Success? ==>
              (r.Success? && writer.Contents() == Print(SimpleColumn(p, fields, isArray).value) <==> NormalColumn(fields, isArray))
  {
    if PlainColumn(fields, isArray) && SimpleColumn(p, fields, isArray).Success? {
      ColumnAgreesIff(p, fields, isArray);
    }
    writer.Reset();
    if isArray {
      r := SerializeArray(p, bytes, offset, 0, writer, fields);
    } else {
      r := SerializeObject(p, bytes, offset, 0, writer, fields);
    }
  }
}
