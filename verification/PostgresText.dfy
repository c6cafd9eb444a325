/** Arrays and composites as text. */
module PostgresText {
  // The text form is that of sections 8.15.6 and 8.16.6 of the PostgreSQL documentation.

  import opened Wrappers

  const DQuote := '\"'
  const Backslash := '\\'

  /** A value of an array. */
  datatype Element = Null | Text(text: string) | Nested(items: seq<Element>)

  predicate IsSpace(c: char) {
    c == ' ' || c == '\t' || c == '\n' || c == '\r'
  }

  // ----- quoting -----

  /** A character inside quotes: backslashes are doubled, and quotes doubled or escaped. */
  function EscapeChar(c: char, doubled: bool): string {
    if c == Backslash then [Backslash, Backslash]
    else if c == DQuote then (if doubled then [DQuote, DQuote] else [Backslash, DQuote])
    else [c]
  }

  function Escape(s: string, doubled: bool): string {
    if s == "" then "" else EscapeChar(s[0], doubled) + Escape(s[1..], doubled)
  }

  function Quote(s: string, doubled: bool): string {
    [DQuote] + Escape(s, doubled) + [DQuote]
  }

  predicate ArrayNeedsQuotes(s: string, delimiter: char) {
    || s == "" || s == "NULL" || s == "null"
    || exists c :: c in s && (c == '{' || c == '}' || c == delimiter || c == DQuote || c == Backslash || IsSpace(c))
  }

  predicate FieldNeedsQuotes(s: string) {
    s == "" || exists c :: c in s && (c == '(' || c == ')' || c == ',' || c == DQuote || c == Backslash || IsSpace(c))
  }

  // ----- arrays -----

  function PrintElement(e: Element, delimiter: char): string
    decreases e, 1, 0
  {
    match e
    case Null => "NULL"
    case Text(s) => if ArrayNeedsQuotes(s, delimiter) then Quote(s, false) else s
    case Nested(items) => "{" + (if items == [] then "}" else PrintElement(items[0], delimiter) + PrintAfter(e, 1, delimiter))
  }

  /** What follows the first k elements of an array. */
  function PrintAfter(e: Element, k: nat, delimiter: char): string
    requires e.Nested? && 0 < k <= |e.items|
    decreases e, 0, |e.items| - k
  {
    if k == |e.items| then "}" else [delimiter] + PrintElement(e.items[k], delimiter) + PrintAfter(e, k + 1, delimiter)
  }

  /** A delimiter that is not part of the syntax, or of NULL. */
  predicate IsDelimiter(c: char) {
    c != '{' && c != '}' && c != DQuote && c != Backslash && c !in "NULL"
  }

  // ----- composite values -----

  type Field = Option<string>

  function PrintField(f: Field): string {
    if f.None? then "" else if FieldNeedsQuotes(f.value) then Quote(f.value, true) else f.value
  }

  function PrintFields(fields: seq<Field>, k: nat): string
    requires 0 < k <= |fields|
    decreases |fields| - k
  {
    if k == |fields| then ")" else "," + PrintField(fields[k]) + PrintFields(fields, k + 1)
  }

  function PrintComposite(fields: seq<Field>): string
    requires |fields| > 0
  {
    "(" + PrintField(fields[0]) + PrintFields(fields, 1)
  }

  predicate BeginsWithQuote(f: Field) {
    f.Some? && f.value != "" && f.value[0] == DQuote
  }
}
