/** The parser of PostgreSQL structural values. */
module StructureParser {
  import opened Wrappers
  import opened PostgresText

  datatype Error = Error(offset: nat)

  class Parser {
    const source: string
    var offset: nat

    constructor (source: string)
      ensures this.source == source && offset == 0
    {
      this.source := source;
      offset := 0;
    }

    ghost predicate Valid()
      reads this
    {
      offset <= |source|
    }

    /** The current character; past the end there is none, and nothing equals it. */
    function Current(): Option<char>
      reads this
    {
      if offset < |source| then Some(source[offset]) else None
    }

    function Fail<T>(): Result<T, Error>
      reads this
    {
      Failure(Error(offset))
    }

    method Consume(expected: char) returns (ok: bool)
      requires Valid()
      modifies this`offset
      ensures Valid() && ok == (old(Current()) == Some(expected))
      ensures offset == if ok then old(offset) + 1 else old(offset)
    {
      ok := Current() == Some(expected);
      if ok {
        offset := offset + 1;
      }
    }

    method SkipOne(ghost start: nat, ghost rest: string, ghost doubled: bool, ghost ok: bool)
      requires offset < |source| && source[offset] != Backslash && source[offset] != DQuote
      requires ok ==> HasRead(source, start, offset, rest, doubled)
      modifies this`offset
      ensures offset == old(offset) + 1 && (ok ==> HasRead(source, start, offset, rest, doubled))
    {
      if ok {
        ReadStep(source, start, offset, rest, doubled);
      }
      offset := offset + 1;
    }

    /** Skip characters that stand for themselves inside quotes. */
    method SkipPlain(ghost rest: string, ghost doubled: bool) returns (text: string)
      requires Valid()
      modifies this`offset
      ensures Valid() && old(offset) <= offset && text == source[old(offset)..offset]
      ensures offset == |source| || source[offset] == Backslash || source[offset] == DQuote
      ensures old(Current()) == Some(DQuote) ==> offset == old(offset)
      ensures Quoted(source, old(offset), rest, doubled) ==> HasRead(source, old(offset), offset, rest, doubled)
    {
      var start := offset;
      ghost var ok := Quoted(source, offset, rest, doubled);
      if ok {
        ReadNone(source, offset, rest, doubled);
      }
      while offset < |source| && source[offset] != Backslash && source[offset] != DQuote
        invariant start <= offset <= |source| && (old(Current()) == Some(DQuote) ==> offset == start)
        invariant ok ==> HasRead(source, start, offset, rest, doubled)
      {
        SkipOne(start, rest, doubled, ok);
      }
      text := source[start..offset];
    }

    method BufferPlain(ghost doubled: bool, ghost start: nat, buffer0: string, ghost rest0: string, ghost s: string, ghost end: nat, ghost ok: bool)
      returns (buffer: string, ghost rest: string)
      requires Valid() && start <= offset && (ok ==> Inside(source, start, offset, s, buffer0, rest0, doubled, end))
      modifies this`offset
      ensures Valid() && old(offset) <= offset && (offset < |source| ==> source[offset] == Backslash || source[offset] == DQuote)
      ensures ok ==> Inside(source, start, offset, s, buffer, rest, doubled, end)
      ensures old(Current()) == Some(DQuote) ==> offset == old(offset) && buffer == buffer0
    {
      ghost var begin := offset;
      var text := SkipPlain(rest0, doubled);
      buffer := buffer0 + text;
      rest := "";
      if ok {
        PlainRead(source, start, begin, offset, s, buffer0, rest0, doubled, end);
        rest := rest0[offset - begin..];
      }
    }

    /** One stretch of plain characters, and what ends it: an escape, or the closing quote. */
    method QuotedPart(doubled: bool, start: nat, buffer0: string, ghost rest0: string, ghost s: string, ghost end: nat, ghost ok: bool)
      returns (again: bool, failed: bool, buffer: string, ghost rest: string)
      requires Valid() && start <= offset && (ok ==> Inside(source, start, offset, s, buffer0, rest0, doubled, end))
      modifies this`offset
      ensures Valid() && old(offset) <= offset && (again && !failed ==> old(offset) < offset)
      ensures ok && again ==> !failed && Inside(source, start, offset, s, buffer, rest, doubled, end)
      ensures ok && !again ==> !failed && buffer == s && offset + 1 == end && Current() == Some(DQuote)
      ensures old(offset) == start && old(Current()) == Some(DQuote) ==> !again && !failed && buffer == buffer0 && offset == old(offset)
    {
      buffer, rest := BufferPlain(doubled, start, buffer0, rest0, s, end, ok);
      var c;
      again, failed, c := TakeSpecial(doubled, offset != start, rest, end, ok);
      if again {
        if ok {
          CharacterRead(source, start, offset, s, buffer, rest, doubled, end);
        }
        buffer := buffer + [c];
        rest := if rest == "" then "" else rest[1..];
      }
    }

    /** An escape, which gives a character, or the closing quote, which is left. */
    method TakeSpecial(doubled: bool, inside: bool, ghost rest: string, ghost end: nat, ghost ok: bool) returns (again: bool, failed: bool, c: char)
      requires Valid() && (offset < |source| ==> source[offset] == Backslash || source[offset] == DQuote)
      requires ok ==> ToRead(source, offset, rest, doubled, end) && (!inside ==> !(doubled && BeginsWithQuote(Some(rest))))
      modifies this`offset
      ensures Valid() && old(offset) <= offset && (again ==> !failed && old(offset) < offset)
      ensures ok && rest != "" ==> again && c == rest[0] && ToRead(source, offset, rest[1..], doubled, end)
      ensures ok && rest == "" ==> !again && !failed && offset + 1 == end && offset == old(offset) && Current() == Some(DQuote)
      ensures !inside && old(Current()) == Some(DQuote) ==> !again && !failed && offset == old(offset)
    {
      again, failed, c := false, false, DQuote;
      if offset == |source| {
        failed := true;
        return;
      }
      if ok {
        EscapeStep(source, offset, rest, doubled, end);
      }
      if source[offset] == DQuote {
        if inside && doubled && offset + 1 < |source| && source[offset + 1] == DQuote {
          offset := offset + 2;
          again := true;
        }
      } else {
        offset := offset + 1;
        if Current() != Some(DQuote) && Current() != Some(Backslash) {
          failed := true;
          return;
        }
        c := source[offset];
        offset := offset + 1;
        again := true;
      }
    }

    /** A quoted string. With `doubled`, two quotes stand for one, but not right after the opening quote. */
    method QuotedString(doubled: bool, ghost s: string) returns (r: Result<string, Error>)
      requires Valid()
      modifies this`offset
      ensures Valid() && old(offset) <= offset && (r.Success? ==> old(offset) < offset)
      ensures Closed(source, old(offset), s, doubled) && !(doubled && BeginsWithQuote(Some(s))) ==>
                r == Success(s) && offset == old(offset) + |Quote(s, doubled)|
      ensures At(source, old(offset), Quote(s, doubled)) && doubled && BeginsWithQuote(Some(s)) ==>
                r == Success("") && offset == old(offset) + 2
    {
      ghost var ok := Closed(source, offset, s, doubled) && !(doubled && BeginsWithQuote(Some(s)));
      ghost var bad := At(source, offset, Quote(s, doubled)) && doubled && BeginsWithQuote(Some(s));
      ghost var end := offset + |Quote(s, doubled)|;
      if ok || bad {
        Opens(source, offset, s, doubled);
      }
      var isOpen := Consume(DQuote);
      if !isOpen {
        return Fail();
      }
      var start := offset;
      var buffer := "";
      ghost var rest := s;
      while true
        invariant old(offset) < start <= offset <= |source|
        invariant ok ==> Inside(source, start, offset, s, buffer, rest, doubled, end)
        invariant bad ==> offset == start && buffer == "" && Current() == Some(DQuote) && start == old(offset) + 1
        decreases |source| - offset
      {
        var again, failed;
        again, failed, buffer, rest := QuotedPart(doubled, start, buffer, rest, s, end, ok);
        if failed {
          return Fail();
        }
        if !again {
          break;
        }
      }
      var closed := Consume(DQuote);
      return if closed then Success(buffer) else Fail();
    }

    /** Text up to a character that ends it; its first character is taken as it comes. */
    method UnquotedString(endedBy: set<char>, illegal: set<char>, ghost s: string) returns (r: Result<string, Error>)
      requires Valid()
      modifies this`offset
      ensures Valid() && old(offset) <= offset && (r.Success? ==> old(offset) < offset)
      ensures Bare(source, old(offset), s, endedBy, illegal) ==> r == Success(s) && offset == old(offset) + |s|
    {
      ghost var ok := Bare(source, offset, s, endedBy, illegal);
      var start := offset;
      if offset == |source| {
        return Fail();
      }
      offset := offset + 1;
      while offset == |source| || source[offset] !in endedBy
        invariant start < offset <= |source| && (ok ==> offset <= start + |s|)
        decreases |source| - offset
      {
        if offset == |source| || source[offset] in illegal {
          return Fail();
        }
        offset := offset + 1;
      }
      return Success(source[start..offset]);
    }

    /** One value of an array: a nested array, a quoted string, or bare text. */
    method ParseElement(delimiter: char, ghost e: Element, ghost after: string) returns (r: Result<Element, Error>)
      requires Valid()
      modifies this`offset
      ensures Valid() && old(offset) <= offset && (r.Success? ==> old(offset) < offset)
      ensures ElementAt(source, old(offset), e, after, delimiter) ==> r == Success(e) && offset == old(offset) + |PrintElement(e, delimiter)|
      decreases |source| - offset, 1
    {
      ghost var ok := ElementAt(source, offset, e, after, delimiter);
      ghost var text := if e.Text? then e.text else "NULL";
      if ok {
        ElementForms(source, offset, e, after, delimiter);
      }
      if Current() == Some('{') {
        r := ParseArrayInner(delimiter, e);
      } else if Current() == Some(DQuote) {
        var q := QuotedString(false, text);
        r := if q.Failure? then Failure(q.error) else Success(Text(q.value));
      } else {
        var u := UnquotedString({delimiter, '}'}, {DQuote, '{'}, text);
        r := if u.Failure? then Failure(u.error) else Success(if u.value == "NULL" then Null else Text(u.value));
      }
    }

    method ParseArrayInner(delimiter: char, ghost e: Element) returns (r: Result<Element, Error>)
      requires Valid()
      modifies this`offset
      ensures Valid() && old(offset) <= offset && (r.Success? ==> old(offset) < offset)
      ensures ArrayAt(source, old(offset), e, delimiter) ==> r == Success(e) && offset == old(offset) + |PrintElement(e, delimiter)|
      decreases |source| - offset, 0
    {
      ghost var ok := ArrayAt(source, offset, e, delimiter);
      ghost var end := offset + |PrintElement(e, delimiter)|;
      if ok {
        ArrayOpens(source, offset, e, delimiter);
      }
      var open := Consume('{');
      if !open {
        return Fail();
      }
      if Current() == Some('}') {
        offset := offset + 1;
        return Success(Nested([]));
      }
      var elements: seq<Element> := [];
      var more := true;
      while more
        invariant old(offset) < offset <= |source|
        invariant ok ==> ItemsLeft(source, offset, e, elements, more, delimiter, end)
        decreases more, |source| - offset
      {
        var taken;
        taken, more := TakeItem(delimiter, elements, e, end, ok);
        if taken.Failure? {
          return Failure(taken.error);
        }
        elements := taken.value;
      }
      var closed := Consume('}');
      return if closed then Success(Nested(elements)) else Fail();
    }

    /** The next element, and the delimiter after it if there is one. */
    method TakeItem(delimiter: char, elements: seq<Element>, ghost e: Element, ghost end: nat, ghost ok: bool)
      returns (r: Result<seq<Element>, Error>, more: bool)
      requires Valid() && (ok ==> ItemsLeft(source, offset, e, elements, true, delimiter, end))
      modifies this`offset
      ensures Valid() && old(offset) <= offset && (r.Success? ==> old(offset) < offset)
      ensures ok ==> r.Success? && ItemsLeft(source, offset, e, r.value, more, delimiter, end)
      decreases |source| - offset, 2
    {
      ghost var k := |elements|;
      if ok {
        NextItem(source, offset, e, k, delimiter, end);
      }
      var x := ParseElement(delimiter, if ok then e.items[k] else Null, if ok then PrintAfter(e, k + 1, delimiter) else "");
      if x.Failure? {
        return Failure(x.error), false;
      }
      more := Current() == Some(delimiter);
      if more {
        offset := offset + 1;
      }
      r := Success(elements + [x.value]);
    }

    /** The text of an array with nothing after it parses to that array. */
    method ParseArray(delimiter: char, ghost e: Element) returns (r: Result<Element, Error>)
      requires offset == 0
      modifies this`offset
      ensures IsDelimiter(delimiter) && e.Nested? && source == PrintElement(e, delimiter) ==> r == Success(e)
    {
      assert source[0..|source|] == source;
      r := ParseArrayInner(delimiter, e);
      if r.Success? && offset < |source| {
        r := Fail();
      }
    }

    method ParseField(ghost f: Field, ghost after: string) returns (r: Result<Field, Error>)
      requires Valid()
      modifies this`offset
      ensures Valid() && old(offset) <= offset
      ensures FieldAt(source, old(offset), f, after) && !BeginsWithQuote(f) ==> r == Success(f) && offset == old(offset) + |PrintField(f)|
      ensures FieldAt(source, old(offset), f, after) && BeginsWithQuote(f) ==> r.Success? && Current() == Some(DQuote)
    {
      ghost var text := if f.Some? then f.value else "";
      if FieldAt(source, offset, f, after) {
        FieldForms(source, offset, f, after);
      }
      if Current() == Some(',') || Current() == Some(')') {
        return Success(None);
      }
      var q;
      if Current() == Some(DQuote) {
        q := QuotedString(true, text);
      } else {
        q := UnquotedString({',', ')'}, {DQuote, '('}, text);
      }
      r := if q.Failure? then Failure(q.error) else Success(Some(q.value));
    }

    /** One more field, up to what ends it; it may turn out to begin with a quote. */
    method TakeField(ghost fields: seq<Field>, ghost values: seq<Field>, ghost ok: bool) returns (x: Result<Field, Error>, ghost broken: bool)
      requires Valid() && (ok ==> FieldsRead(source, offset, fields, values, true, false))
      modifies this`offset
      ensures Valid() && old(offset) <= offset
      ensures ok ==> x.Success?
      ensures ok && broken ==> FieldsRead(source, offset, fields, values, false, true)
      ensures ok && !broken ==> FieldEnds(source, offset, fields, values + [x.value])
    {
      var k := |values|;
      broken := ok && BeginsWithQuote(fields[k]);
      if ok {
        NextField(source, offset, fields, k);
        if !broken {
          FieldTaken(source, offset, fields, values, fields[k]);
        }
      }
      x := ParseField(if ok then fields[k] else None, if ok then PrintFields(fields, k + 1) else "");
    }

    /** And the comma after it, if there is one. */
    method ParseNext(ghost fields: seq<Field>, values0: seq<Field>, ghost ok: bool)
      returns (failed: Option<Error>, values: seq<Field>, more: bool, ghost broken: bool)
      requires Valid() && (ok ==> FieldsRead(source, offset, fields, values0, true, false))
      modifies this`offset
      ensures Valid() && old(offset) <= offset && (more ==> old(offset) < offset)
      ensures ok ==> failed.None? && FieldsRead(source, offset, fields, values, more, broken)
    {
      var x;
      x, broken := TakeField(fields, values0, ok);
      if x.Failure? {
        return Some(x.error), values0, false, broken;
      }
      failed, values := None, values0 + [x.value];
      more := offset < |source| && source[offset] == ',';
      if ok {
        FieldIsPassed(source, offset, fields, values0, values, broken);
      }
      if more {
        offset := offset + 1;
      }
    }

    /** The text of a composite value parses to its fields exactly when none of them begins with a double
        quote; any other is an error. */
    method ParseComposite(ghost fields: seq<Field>) returns (r: Result<seq<Field>, Error>)
      requires offset == 0
      modifies this`offset
      ensures |fields| > 0 && source == PrintComposite(fields) ==>
                if exists i :: 0 <= i < |fields| && BeginsWithQuote(fields[i]) then r.Failure? else r == Success(fields)
    {
      ghost var ok := |fields| > 0 && source == PrintComposite(fields);
      if ok {
        CompositeOpens(source, fields);
      }
      var open := Consume('(');
      if !open {
        return Fail();
      }
      var values: seq<Field> := [];
      var more := true;
      ghost var broken := false;
      while more
        invariant 0 < offset <= |source|
        invariant ok ==> FieldsRead(source, offset, fields, values, more, broken)
        decreases more, |source| - offset
      {
        var failed;
        failed, values, more, broken := ParseNext(fields, values, ok);
        if failed.Some? {
          return Failure(failed.value);
        }
      }
      assert fields[..|fields|] == fields;
      var closed := Consume(')');
      if !closed || offset < |source| {
        return Fail();
      }
      return Success(values);
    }
  }

  /** Fields parse one by one until one that begins with a quote, after which nothing fits. */
  ghost predicate FieldsRead(source: string, offset: nat, fields: seq<Field>, values: seq<Field>, more: bool, broken: bool) {
    if broken then !more && offset < |source| && source[offset] == DQuote && exists i :: 0 <= i < |fields| && BeginsWithQuote(fields[i])
    else
      && |values| <= |fields| && values == fields[..|values|] && (forall i :: 0 <= i < |values| ==> !BeginsWithQuote(fields[i]))
      && (if more then FieldsAt(source, offset, fields, |values|)
          else |values| == |fields| && offset + 1 == |source| && source[offset] == ')')
  }

  /** The values are read, and what ends the last one stands here. */
  ghost predicate FieldEnds(source: string, offset: nat, fields: seq<Field>, values: seq<Field>) {
    && offset < |source|
    && (if |values| < |fields| then source[offset] == ',' && FieldsRead(source, offset + 1, fields, values, true, false)
        else source[offset] == ')' && FieldsRead(source, offset, fields, values, false, false))
  }

  lemma FieldTaken(source: string, offset: nat, fields: seq<Field>, values: seq<Field>, value: Field)
    requires FieldsRead(source, offset, fields, values, true, false) && value == fields[|values|] && !BeginsWithQuote(value)
    ensures FieldEnds(source, offset + |PrintField(value)|, fields, values + [value])
  {
    NextField(source, offset, fields, |values|);
    OneMoreRead(fields, values, value);
  }

  lemma FieldIsPassed(source: string, offset: nat, fields: seq<Field>, values: seq<Field>, values': seq<Field>, broken: bool)
    requires if broken then FieldsRead(source, offset, fields, values, false, true) else FieldEnds(source, offset, fields, values')
    ensures var more := offset < |source| && source[offset] == ',';
            FieldsRead(source, if more then offset + 1 else offset, fields, values', more, broken)
  {
  }

  lemma OneMoreRead(fields: seq<Field>, values: seq<Field>, value: Field)
    requires |values| < |fields| && values == fields[..|values|] && value == fields[|values|] && !BeginsWithQuote(value)
    requires forall i :: 0 <= i < |values| ==> !BeginsWithQuote(fields[i])
    ensures var more := values + [value];
            more == fields[..|more|] && forall i :: 0 <= i < |more| ==> !BeginsWithQuote(fields[i])
  {
    assert fields[..|values| + 1] == fields[..|values|] + [value];
  }

  // ----- array values -----

  /** Bare text, ended by one of the given characters. */
  ghost predicate Bare(source: string, offset: nat, s: string, endedBy: set<char>, illegal: set<char>) {
    && s != "" && At(source, offset, s) && (forall i :: 0 <= i < |s| ==> s[i] !in endedBy && s[i] !in illegal)
    && offset + |s| < |source| && source[offset + |s|] in endedBy
  }

  ghost predicate ElementAt(source: string, offset: nat, e: Element, after: string, delimiter: char) {
    && IsDelimiter(delimiter) && At(source, offset, PrintElement(e, delimiter) + after)
    && after != "" && (after[0] == delimiter || after[0] == '}')
  }

  ghost predicate ArrayAt(source: string, offset: nat, e: Element, delimiter: char) {
    IsDelimiter(delimiter) && e.Nested? && At(source, offset, PrintElement(e, delimiter))
  }

  /** The elements of an array from k on, and what follows them. */
  ghost predicate ItemsAt(source: string, offset: nat, e: Element, k: nat, delimiter: char, end: nat) {
    && IsDelimiter(delimiter) && e.Nested? && k < |e.items|
    && At(source, offset, PrintElement(e.items[k], delimiter) + PrintAfter(e, k + 1, delimiter))
    && offset + |PrintElement(e.items[k], delimiter)| + |PrintAfter(e, k + 1, delimiter)| == end
  }

  lemma BareText(source: string, offset: nat, s: string, after: string, delimiter: char)
    requires At(source, offset, s + after) && after != "" && (after[0] == delimiter || after[0] == '}')
    requires s != "" && forall c :: c in s ==> c != '{' && c != '}' && c != delimiter && c != DQuote
    ensures Bare(source, offset, s, {delimiter, '}'}, {DQuote, '{'})
    ensures source[offset] == s[0]
  {
    AtSplit(source, offset, s, after);
    AtIndex(source, offset, s, 0);
    AtIndex(source, offset + |s|, after, 0);
    assert forall i :: 0 <= i < |s| ==> s[i] in s;
  }

  /** How the first character of a value tells its form. */
  lemma ElementForms(source: string, offset: nat, e: Element, after: string, delimiter: char)
    requires ElementAt(source, offset, e, after, delimiter)
    ensures offset < |source|
    ensures e.Nested? ==> source[offset] == '{' && ArrayAt(source, offset, e, delimiter)
    ensures var text := if e.Text? then e.text else "NULL";
            !e.Nested? ==>
              if e.Text? && ArrayNeedsQuotes(text, delimiter) then source[offset] == DQuote && Closed(source, offset, text, false)
              else source[offset] != '{' && source[offset] != DQuote && Bare(source, offset, text, {delimiter, '}'}, {DQuote, '{'})
                   && (e.Text? ==> text != "NULL") && PrintElement(e, delimiter) == text
  {
    AtSplit(source, offset, PrintElement(e, delimiter), after);
    match e
    case Nested(items) => AtIndex(source, offset, PrintElement(e, delimiter), 0);
    case Null => BareText(source, offset, "NULL", after, delimiter);
    case Text(text) =>
      if ArrayNeedsQuotes(text, delimiter) {
        AtIndex(source, offset, Quote(text, false), 0);
      } else {
        BareText(source, offset, text, after, delimiter);
      }
  }

  lemma ArrayOpens(source: string, offset: nat, e: Element, delimiter: char)
    requires ArrayAt(source, offset, e, delimiter)
    ensures var end := offset + |PrintElement(e, delimiter)|;
            && offset + 1 < |source| && source[offset] == '{'
            && (source[offset + 1] == '}' <==> e.items == [])
            && (e.items == [] ==> offset + 2 == end)
            && (e.items != [] ==> ItemsAt(source, offset + 1, e, 0, delimiter, end))
  {
    var body := if e.items == [] then "}" else PrintElement(e.items[0], delimiter) + PrintAfter(e, 1, delimiter);
    AtSplit(source, offset, "{", body);
    AtIndex(source, offset, "{", 0);
    AtIndex(source, offset + 1, body, 0);
    if e.items != [] {
      AfterIsEnded(e, 1, delimiter);
      ElementForms(source, offset + 1, e.items[0], PrintAfter(e, 1, delimiter), delimiter);
      FirstIsNotClosing(e.items[0], delimiter);
      assert body[0] == PrintElement(e.items[0], delimiter)[0];
    }
  }

  lemma FirstIsNotClosing(e: Element, delimiter: char)
    ensures PrintElement(e, delimiter) != "" && PrintElement(e, delimiter)[0] != '}'
  {
    if e.Text? && e.text != "" {
      assert e.text[0] in e.text;
    }
  }

  lemma AfterIsEnded(e: Element, k: nat, delimiter: char)
    requires e.Nested? && 0 < k <= |e.items|
    ensures PrintAfter(e, k, delimiter) != "" && (PrintAfter(e, k, delimiter)[0] == delimiter || PrintAfter(e, k, delimiter)[0] == '}')
  {
  }

  /** Element k is next; after it comes the delimiter and the next one, or the closing brace. */
  /** The elements read so far, and whether more of them are to come. */
  ghost predicate ItemsLeft(source: string, offset: nat, e: Element, elements: seq<Element>, more: bool, delimiter: char, end: nat) {
    if more then ItemsAt(source, offset, e, |elements|, delimiter, end) && elements == e.items[..|elements|]
    else IsDelimiter(delimiter) && e == Nested(elements) && offset + 1 == end && offset < |source| && source[offset] == '}'
  }

  lemma NextItem(source: string, offset: nat, e: Element, k: nat, delimiter: char, end: nat)
    requires ItemsAt(source, offset, e, k, delimiter, end)
    ensures ElementAt(source, offset, e.items[k], PrintAfter(e, k + 1, delimiter), delimiter)
    ensures var next := offset + |PrintElement(e.items[k], delimiter)|;
            && next < |source|
            && (k + 1 < |e.items| ==> source[next] == delimiter && ItemsAt(source, next + 1, e, k + 1, delimiter, end))
            && (k + 1 == |e.items| ==> source[next] == '}' && next + 1 == end)
  {
    var printed, after := PrintElement(e.items[k], delimiter), PrintAfter(e, k + 1, delimiter);
    AfterIsEnded(e, k + 1, delimiter);
    AtSplit(source, offset, printed, after);
    AtIndex(source, offset + |printed|, after, 0);
    if k + 1 < |e.items| {
      var rest := PrintElement(e.items[k + 1], delimiter) + PrintAfter(e, k + 2, delimiter);
      assert after == [delimiter] + rest;
      AtSplit(source, offset + |printed|, [delimiter], rest);
    }
  }

  // ----- quoted strings -----

  /** A quoted value followed by something that does not continue it. */
  ghost predicate Closed(source: string, offset: nat, s: string, doubled: bool) {
    && At(source, offset, Quote(s, doubled))
    && (doubled && offset + |Quote(s, doubled)| < |source| ==> source[offset + |Quote(s, doubled)|] != DQuote)
  }

  ghost predicate ToRead(source: string, offset: nat, rest: string, doubled: bool, end: nat) {
    && Quoted(source, offset, rest, doubled) && offset + |Escape(rest, doubled)| + 1 == end
    && (doubled && end < |source| ==> source[end] != DQuote)
  }

  /** What is still to be read of a quoted value. */
  ghost predicate Inside(source: string, start: nat, offset: nat, s: string, buffer: string, rest: string, doubled: bool, end: nat) {
    && s == buffer + rest && ToRead(source, offset, rest, doubled, end)
    && (offset == start ==> buffer == "" && !(doubled && BeginsWithQuote(Some(rest))))
  }

  /** Plain characters move from what is still to be read to the buffer. */
  lemma PlainRead(source: string, start: nat, begin: nat, offset: nat, s: string, buffer: string, rest: string, doubled: bool, end: nat)
    requires Inside(source, start, begin, s, buffer, rest, doubled, end) && HasRead(source, begin, offset, rest, doubled) && start <= begin
    ensures Inside(source, start, offset, s, buffer + source[begin..offset], rest[offset - begin..], doubled, end)
  {
    assert rest[0..] == rest;
    assert rest == source[begin..offset] + rest[offset - begin..];
  }

  lemma CharacterRead(source: string, start: nat, offset: nat, s: string, buffer: string, rest: string, doubled: bool, end: nat)
    requires rest != "" && s == buffer + rest && start < offset && ToRead(source, offset, rest[1..], doubled, end)
    ensures Inside(source, start, offset, s, buffer + [rest[0]], rest[1..], doubled, end)
  {
  }

  /** An escape stands for the next character of the value; a quote alone closes it. */
  lemma EscapeStep(source: string, offset: nat, rest: string, doubled: bool, end: nat)
    requires offset < |source| && (source[offset] == Backslash || source[offset] == DQuote)
    requires ToRead(source, offset, rest, doubled, end)
    ensures rest == "" ==> source[offset] == DQuote && offset + 1 == end
    ensures rest != "" ==> offset + 1 < |source| && source[offset + 1] == rest[0] && (source[offset] == DQuote ==> doubled && rest[0] == DQuote)
                           && ToRead(source, offset + 2, rest[1..], doubled, end)
  {
    AtIndex(source, offset, Escape(rest, doubled) + [DQuote], 0);
    if rest != "" {
      var head, tail := EscapeChar(rest[0], doubled), Escape(rest[1..], doubled) + [DQuote];
      assert Escape(rest, doubled) + [DQuote] == head + tail;
      AtSplit(source, offset, head, tail);
      assert source[offset..offset + |head|][1] == source[offset + 1];
    }
  }

  lemma Opens(source: string, offset: nat, s: string, doubled: bool)
    requires At(source, offset, Quote(s, doubled))
    ensures offset < |source| && source[offset] == DQuote && Quoted(source, offset + 1, s, doubled)
    ensures doubled && BeginsWithQuote(Some(s)) ==> offset + 1 < |source| && source[offset + 1] == DQuote
  {
    assert Quote(s, doubled) == [DQuote] + (Escape(s, doubled) + [DQuote]);
    AtSplit(source, offset, [DQuote], Escape(s, doubled) + [DQuote]);
    AtIndex(source, offset, [DQuote], 0);
    AtIndex(source, offset + 1, Escape(s, doubled) + [DQuote], 0);
  }

  /** The rest of a quoted string, up to and with its closing quote. */
  ghost predicate Quoted(source: string, offset: nat, rest: string, doubled: bool) {
    At(source, offset, Escape(rest, doubled) + [DQuote])
  }

  /** Between start and offset stands the start of a value, as it is. */
  ghost predicate HasRead(source: string, start: nat, offset: nat, rest: string, doubled: bool) {
    && start <= offset <= |source| && offset - start <= |rest| && rest[..offset - start] == source[start..offset]
    && Quoted(source, offset, rest[offset - start..], doubled)
    && offset + |Escape(rest[offset - start..], doubled)| == start + |Escape(rest, doubled)|
  }

  lemma ReadNone(source: string, start: nat, rest: string, doubled: bool)
    requires start <= |source| && Quoted(source, start, rest, doubled)
    ensures HasRead(source, start, start, rest, doubled)
  {
    assert rest[0..] == rest && rest[..0] == source[start..start];
  }

  lemma ReadStep(source: string, start: nat, offset: nat, rest: string, doubled: bool)
    requires HasRead(source, start, offset, rest, doubled)
    requires offset < |source| && source[offset] != Backslash && source[offset] != DQuote
    ensures HasRead(source, start, offset + 1, rest, doubled)
  {
    var tail := rest[offset - start..];
    PlainStep(source, offset, tail, doubled);
    assert tail[1..] == rest[offset + 1 - start..];
    assert rest[..offset + 1 - start] == rest[..offset - start] + [tail[0]];
  }

  /** A character that needs no escape is the next of the value. */
  lemma PlainStep(source: string, offset: nat, rest: string, doubled: bool)
    requires offset < |source| && source[offset] != Backslash && source[offset] != DQuote
    requires At(source, offset, Escape(rest, doubled) + [DQuote])
    ensures rest != "" && rest[0] == source[offset] && At(source, offset + 1, Escape(rest[1..], doubled) + [DQuote])
  {
    PlainFirst(source, offset, rest, doubled);
    var first, others := EscapeChar(rest[0], doubled), Escape(rest[1..], doubled);
    assert (first + others) + [DQuote] == first + (others + [DQuote]);
    AtSplit(source, offset, first, others + [DQuote]);
  }

  lemma PlainFirst(source: string, offset: nat, rest: string, doubled: bool)
    requires offset < |source| && source[offset] != Backslash && source[offset] != DQuote
    requires At(source, offset, Escape(rest, doubled) + [DQuote])
    ensures rest != "" && rest[0] == source[offset] && |EscapeChar(rest[0], doubled)| == 1
  {
    AtIndex(source, offset, Escape(rest, doubled) + [DQuote], 0);
  }

  // ----- composite values -----

  ghost predicate FieldAt(source: string, offset: nat, f: Field, after: string) {
    At(source, offset, PrintField(f) + after) && after != "" && (after[0] == ',' || after[0] == ')')
  }

  /** The fields of a composite value from k on, to the end of the source. */
  ghost predicate FieldsAt(source: string, offset: nat, fields: seq<Field>, k: nat) {
    && k < |fields| && At(source, offset, PrintField(fields[k]) + PrintFields(fields, k + 1))
    && offset + |PrintField(fields[k])| + |PrintFields(fields, k + 1)| == |source|
  }

  lemma FieldForms(source: string, offset: nat, f: Field, after: string)
    requires FieldAt(source, offset, f, after)
    ensures offset < |source|
    ensures f.None? <==> source[offset] == ',' || source[offset] == ')'
    ensures f.Some? ==>
              if FieldNeedsQuotes(f.value)
              then source[offset] == DQuote && Closed(source, offset, f.value, true)
                   && (BeginsWithQuote(f) ==> offset + 2 < |source| && source[offset + 2] == DQuote)
              else source[offset] != DQuote && Bare(source, offset, f.value, {',', ')'}, {DQuote, '('}) && PrintField(f) == f.value
                   && !BeginsWithQuote(f)
  {
    AtSplit(source, offset, PrintField(f), after);
    AtIndex(source, offset + |PrintField(f)|, after, 0);
    if f.Some? {
      if FieldNeedsQuotes(f.value) {
        AtIndex(source, offset, PrintField(f), 0);
        if BeginsWithQuote(f) {
          var rest := Escape(f.value[1..], true) + [DQuote];
          assert PrintField(f) == [DQuote, DQuote, DQuote] + rest;
          AtSplit(source, offset, [DQuote, DQuote, DQuote], rest);
          assert source[offset..offset + 3][2] == source[offset + 2];
        }
      } else {
        AtIndex(source, offset, f.value, 0);
        assert forall i :: 0 <= i < |f.value| ==> f.value[i] in f.value;
      }
    }
  }

  lemma FieldsAreEnded(fields: seq<Field>, k: nat)
    requires 0 < k <= |fields|
    ensures PrintFields(fields, k) != "" && (PrintFields(fields, k)[0] == ',' || PrintFields(fields, k)[0] == ')')
  {
  }

  lemma CompositeOpens(source: string, fields: seq<Field>)
    requires |fields| > 0 && source == PrintComposite(fields)
    ensures source[0] == '(' && FieldsAt(source, 1, fields, 0)
  {
    var rest := PrintField(fields[0]) + PrintFields(fields, 1);
    assert source == "(" + rest;
    assert source[0..|source|] == source;
    AtSplit(source, 0, "(", rest);
  }

  lemma AfterField(fields: seq<Field>, k: nat)
    requires k + 1 < |fields|
    ensures PrintFields(fields, k + 1) == "," + (PrintField(fields[k + 1]) + PrintFields(fields, k + 2))
  {
  }

  /** What follows a text begins right after it. */
  lemma FollowedBy(source: string, offset: nat, text: string, after: string)
    requires At(source, offset, text + after) && after != ""
    ensures var next := offset + |text|; next < |source| && source[next] == after[0] && At(source, next, after)
  {
    AtSplit(source, offset, text, after);
    AtIndex(source, offset + |text|, after, 0);
  }

  lemma NextField(source: string, offset: nat, fields: seq<Field>, k: nat)
    requires FieldsAt(source, offset, fields, k)
    ensures FieldAt(source, offset, fields[k], PrintFields(fields, k + 1))
    ensures var next := offset + |PrintField(fields[k])|;
            && next < |source|
            && (k + 1 < |fields| ==> source[next] == ',' && FieldsAt(source, next + 1, fields, k + 1))
            && (k + 1 == |fields| ==> source[next] == ')' && next + 1 == |source|)
  {
    FieldsAreEnded(fields, k + 1);
    FollowedBy(source, offset, PrintField(fields[k]), PrintFields(fields, k + 1));
    if k + 1 < |fields| {
      AfterField(fields, k);
      FollowedBy(source, offset + |PrintField(fields[k])|, ",", PrintField(fields[k + 1]) + PrintFields(fields, k + 2));
    }
  }
}
