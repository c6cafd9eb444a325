/** The growable buffer that JSON is written to, a byte at a time or a quoted slice at once. */
module JsonWriter {
  import opened Bytes
  import opened JsonText
  import opened Wrappers

  function HexAll(s: Buffer): Buffer {
    if s == [] then [] else HexAll(s[..|s| - 1]) + [Hex(s[|s| - 1] / 16), Hex(s[|s| - 1] % 16)]
  }

  /** The hexadecimal groups of a UUID: 4, 2, 2, 2 and 6 bytes. */
  function UuidText(s: Buffer): Buffer
    requires |s| == 16
  {
    HexAll(s[0..4]) + [0x2d] + HexAll(s[4..6]) + [0x2d] + HexAll(s[6..8]) + [0x2d] + HexAll(s[8..10]) + [0x2d] + HexAll(s[10..16])
  }

  predicate DashBefore(i: nat) {
    i == 4 || i == 6 || i == 8 || i == 10
  }

  function Dash(i: nat): Buffer {
    if DashBefore(i) then [0x2d] else []
  }

  /** The same text byte by byte, a dash before each byte that starts a group. */
  function UuidPrefix(s: Buffer): Buffer {
    if s == [] then []
    else
      var i := |s| - 1;
      UuidPrefix(s[..i]) + Dash(i) + [Hex(s[i] / 16), Hex(s[i] % 16)]
  }

  /** A group with no dash inside adds plain hexadecimal. */
  lemma {:induction false} UuidGroup(s: Buffer, lo: nat, hi: nat)
    requires lo < hi <= |s| && forall i :: lo < i < hi ==> !DashBefore(i)
    ensures UuidPrefix(s[..hi]) == UuidPrefix(s[..lo]) + Dash(lo) + HexAll(s[lo..hi])
    decreases hi
  {
    var i := hi - 1;
    assert s[..hi][..i] == s[..i] && s[lo..hi][..i - lo] == s[lo..i];
    if lo < i {
      UuidGroup(s, lo, i);
      assert !DashBefore(i);
    } else {
      assert s[lo..i] == [];
    }
  }

  lemma UuidStart(s: Buffer)
    requires |s| == 16
    ensures UuidPrefix(s[..8]) == HexAll(s[0..4]) + [0x2d] + HexAll(s[4..6]) + [0x2d] + HexAll(s[6..8])
  {
    UuidGroup(s, 0, 4);
    assert s[..0] == [];
    assert UuidPrefix(s[..4]) == HexAll(s[0..4]);
    UuidGroup(s, 4, 6);
    UuidGroup(s, 6, 8);
  }

  lemma UuidPrefixIsText(s: Buffer)
    requires |s| == 16
    ensures UuidPrefix(s) == UuidText(s)
  {
    UuidStart(s);
    UuidGroup(s, 8, 10);
    UuidGroup(s, 10, 16);
    assert s[..16] == s;
  }

  /** A date and time of day in the years the fast path covers. */
  datatype DateTime = DateTime(year: nat, month: nat, day: nat, hour: nat, minute: nat, second: nat, millisecond: nat)

  predicate InRange(t: DateTime) {
    t.year <= 9999 && t.month < 100 && t.day < 100 && t.hour < 100 && t.minute < 100 && t.second < 100 && t.millisecond < 1000
  }

  function Digit(n: nat): Byte {
    0x30 + n % 10
  }

  function Two(n: nat): Buffer {
    [Digit(n / 10), Digit(n)]
  }

  function Three(n: nat): Buffer {
    [Digit(n / 100)] + Two(n)
  }

  function Four(n: nat): Buffer {
    Two(n / 100) + Two(n)
  }

  function Field(separator: Byte, n: nat): Buffer {
    [separator] + Two(n)
  }

  function DateText(t: DateTime): Buffer {
    Four(t.year) + Field(0x2d, t.month) + Field(0x2d, t.day)
  }

  function Clock(t: DateTime): Buffer {
    Two(t.hour) + Field(0x3a, t.minute) + Field(0x3a, t.second)
  }

  function Fraction(n: nat, includeMilliseconds: bool): Buffer {
    if includeMilliseconds then [0x2e] + Three(n) else []
  }

  function TimeText(t: DateTime, includeMilliseconds: bool): Buffer {
    Clock(t) + Fraction(t.millisecond, includeMilliseconds)
  }

  function DateTimeText(t: DateTime, separator: Byte, includeMilliseconds: bool): Buffer {
    DateText(t) + [separator] + TimeText(t, includeMilliseconds) + [0x5a]
  }

  function Number(digits: Buffer): int {
    if digits == [] then 0 else 10 * Number(digits[..|digits| - 1]) + digits[|digits| - 1] - 0x30
  }

  lemma NumberOf(digits: Buffer, d: Byte)
    ensures Number(digits + [d]) == 10 * Number(digits) + d - 0x30
  {
    assert (digits + [d])[..|digits|] == digits;
  }

  lemma NumberOfTwo(a: Byte, b: Byte)
    ensures Number([a, b]) == 10 * (a - 0x30) + b - 0x30
  {
    NumberOf([], a);
    NumberOf([a], b);
    assert [] + [a] == [a] && [a] + [b] == [a, b];
  }

  lemma LastDigit(n: nat)
    ensures n == 10 * (n / 10) + Digit(n) - 0x30 && n / 10 / 10 == n / 100
  {
  }

  lemma TwoReadsBack(n: nat)
    requires n < 100
    ensures Number(Two(n)) == n
  {
    NumberOfTwo(Digit(n / 10), Digit(n));
    LastDigit(n);
  }

  lemma ThreeReadsBack(n: nat)
    requires n < 1000
    ensures Number(Three(n)) == n
  {
    NumberOfTwo(Digit(n / 100), Digit(n / 10));
    NumberOf([Digit(n / 100), Digit(n / 10)], Digit(n));
    assert [Digit(n / 100), Digit(n / 10)] + [Digit(n)] == Three(n);
    LastDigit(n);
    LastDigit(n / 10);
  }

  lemma FourReadsBack(n: nat)
    requires n < 10000
    ensures Number(Four(n)) == n
  {
    var m := n / 100;
    TwoReadsBack(m);
    NumberOf(Two(m), Digit(n / 10));
    NumberOf(Two(m) + [Digit(n / 10)], Digit(n));
    assert Two(m) + [Digit(n / 10)] + [Digit(n)] == Four(n);
    LastDigit(n);
    LastDigit(n / 10);
  }

  /** Every field reads back from its place in the text, so no two times are written alike. */
  lemma DateTimeReadsBack(t: DateTime, separator: Byte, includeMilliseconds: bool)
    requires InRange(t)
    ensures var text := DateTimeText(t, separator, includeMilliseconds);
            && |text| == (if includeMilliseconds then 24 else 20)
            && Number(text[0..4]) == t.year && Number(text[5..7]) == t.month && Number(text[8..10]) == t.day
            && Number(text[11..13]) == t.hour && Number(text[14..16]) == t.minute && Number(text[17..19]) == t.second
            && (includeMilliseconds ==> Number(text[20..23]) == t.millisecond)
  {
    var text := DateTimeText(t, separator, includeMilliseconds);
    FourReadsBack(t.year);
    TwoReadsBack(t.month);
    TwoReadsBack(t.day);
    TwoReadsBack(t.hour);
    TwoReadsBack(t.minute);
    TwoReadsBack(t.second);
    ThreeReadsBack(t.millisecond);
    assert text[0..4] == Four(t.year) && text[5..7] == Two(t.month) && text[8..10] == Two(t.day);
    assert text[11..13] == Two(t.hour) && text[14..16] == Two(t.minute) && text[17..19] == Two(t.second);
    assert includeMilliseconds ==> text[20..23] == Three(t.millisecond);
  }

  predicate Plain(s: Buffer) {
    forall i :: 0 <= i < |s| ==> !NeedsEscape(s[i])
  }

  lemma PlainConcat(a: Buffer, b: Buffer)
    requires Plain(a) && Plain(b)
    ensures Plain(a + b)
  {
  }

  /** A date needs no escaping inside a JSON string. */
  lemma DateTimeIsPlain(t: DateTime, separator: Byte, includeMilliseconds: bool)
    requires !NeedsEscape(separator)
    ensures EscapeAll(DateTimeText(t, separator, includeMilliseconds)) == DateTimeText(t, separator, includeMilliseconds)
  {
    var year, month, day := Four(t.year), Field(0x2d, t.month), Field(0x2d, t.day);
    PlainConcat(year, month);
    PlainConcat(year + month, day);
    PlainConcat(DateText(t), [separator]);
    var hour, minute, second := Two(t.hour), Field(0x3a, t.minute), Field(0x3a, t.second);
    PlainConcat(hour, minute);
    PlainConcat(hour + minute, second);
    PlainConcat(Clock(t), Fraction(t.millisecond, includeMilliseconds));
    PlainConcat(DateText(t) + [separator], TimeText(t, includeMilliseconds));
    PlainConcat(DateText(t) + [separator] + TimeText(t, includeMilliseconds), [0x5a]);
    EscapePlain(DateTimeText(t, separator, includeMilliseconds));
  }

  function Pow2(n: nat): nat {
    if n == 0 then 1 else 2 * Pow2(n - 1)
  }

  class JsonBufferWriter {
    var buffer: array<Byte>
    var length: nat

    /** Bytes past the written length are zero, so no stale text is ever exposed. */
    ghost predicate Valid()
      reads this, buffer
    {
      && length <= buffer.Length && buffer.Length > 0
      && forall i :: length <= i < buffer.Length ==> buffer[i] == 0
    }

    ghost function Contents(): Buffer
      reads this, buffer
      requires Valid()
    {
      buffer[..length]
    }

    /** The first `at` bytes are `text`, and the rest are zero. */
    ghost predicate Holds(at: nat, text: Buffer)
      reads this, buffer
    {
      && at == |text| <= buffer.Length && buffer.Length > 0 && buffer[..at] == text
      && forall i :: at <= i < buffer.Length ==> buffer[i] == 0
    }

    constructor (capacity: nat)
      requires capacity > 0
      ensures Valid() && fresh(buffer) && Contents() == [] && buffer.Length == capacity
    {
      buffer := new Byte[capacity](i => 0);
      length := 0;
    }

    method Truncate(newLength: nat)
      requires Valid() && newLength <= length
      modifies this`length, buffer
      ensures Valid() && Contents() == old(Contents())[..newLength]
    {
      forall i | newLength <= i < length {
        buffer[i] := 0;
      }
      length := newLength;
    }

    method Reset()
      requires Valid()
      modifies this`length, buffer
      ensures Valid() && Contents() == []
    {
      Truncate(0);
    }

    /** Capacity doubles until the extra bytes fit; what is written stays. */
    method EnsureCapacity(extra: nat)
      requires Valid()
      modifies this`buffer
      ensures Valid() && Contents() == old(Contents()) && length + extra <= buffer.Length
      ensures buffer == old(buffer) || fresh(buffer)
      ensures old(buffer.Length) <= buffer.Length
      ensures exists n :: buffer.Length == old(buffer.Length) * Pow2(n)
      ensures length + extra <= old(buffer.Length) ==> buffer == old(buffer)
      ensures buffer.Length > old(buffer.Length) ==> buffer.Length < 2 * (length + extra)
    {
      var required := length + extra;
      assert buffer.Length == buffer.Length * Pow2(0);
      if required <= buffer.Length {
        return;
      }
      var nextLength := buffer.Length;
      ghost var n := 0;
      while nextLength < required
        invariant 0 < nextLength == buffer.Length * Pow2(n)
        invariant nextLength > buffer.Length ==> nextLength < 2 * required
        invariant buffer.Length <= nextLength
        decreases required - nextLength
      {
        nextLength := nextLength * 2;
        n := n + 1;
      }
      var next := new Byte[nextLength](i => 0);
      forall i | 0 <= i < length {
        next[i] := buffer[i];
      }
      assert next[..length] == buffer[..length];
      buffer := next;
    }

    method WriteByte(value: Byte)
      requires Valid()
      modifies this, buffer
      ensures Valid() && Contents() == old(Contents()) + [value]
      ensures buffer == old(buffer) || fresh(buffer)
    {
      EnsureCapacity(1);
      buffer[length] := value;
      length := length + 1;
    }

    /** Raw bytes, for ASCII and UTF-8 text alike. */
    method WriteBytes(text: Buffer)
      requires Valid()
      modifies this, buffer
      ensures Valid() && Contents() == old(Contents()) + text
      ensures buffer == old(buffer) || fresh(buffer)
    {
      EnsureCapacity(|text|);
      CopyAt(length, text, 0, |text|, Contents());
      length := length + |text|;
    }

    method CopyAt(at: nat, bytes: Buffer, start: nat, end: nat, ghost text: Buffer)
      requires start <= end <= |bytes| && Holds(at, text) && at + (end - start) <= buffer.Length
      modifies buffer
      ensures Holds(at + (end - start), text + bytes[start..end])
    {
      forall i | 0 <= i < end - start {
        buffer[at + i] := bytes[start + i];
      }
      assert buffer[..at + (end - start)] == text + bytes[start..end];
    }

    method Put(at: nat, value: Byte, ghost text: Buffer) returns (next: nat)
      requires Holds(at, text) && at < buffer.Length
      modifies buffer
      ensures next == at + 1 && Holds(next, text + [value])
    {
      buffer[at] := value;
      next := at + 1;
      assert buffer[..at] == text;
      assert buffer[..next] == buffer[..at] + [value];
    }

    method WriteQuotedJsonString(text: Buffer)
      requires Valid()
      modifies this, buffer
      ensures Valid() && Contents() == old(Contents()) + Quoted(text)
      ensures buffer == old(buffer) || fresh(buffer)
    {
      ghost var base := Contents() + [DQuote];
      WriteByte(DQuote);
      var start := 0;
      assert text[0..0] == [] && base + [] == base;
      for i := 0 to |text|
        invariant 0 <= start <= i && Valid() && (buffer == old(buffer) || fresh(buffer))
        invariant Contents() == base + EscapeAll(text[0..start])
        invariant forall j :: start <= j < i ==> !NeedsEscape(text[j])
      {
        if NeedsEscape(text[i]) {
          WriteEscaped(text, start, i, base);
          start := i + 1;
        }
      }
      WriteLast(text, start, base);
      Assoc(old(Contents()), [DQuote], EscapeAll(text), [DQuote]);
    }

    method WriteLast(text: Buffer, start: nat, ghost base: Buffer)
      requires Valid() && start <= |text| && Contents() == base + EscapeAll(text[0..start])
      requires forall j :: start <= j < |text| ==> !NeedsEscape(text[j])
      modifies this, buffer
      ensures Valid() && Contents() == base + EscapeAll(text) + [DQuote]
      ensures buffer == old(buffer) || fresh(buffer)
    {
      WriteChunk(text[start..|text|]);
      ExtendPlain(text, 0, start, |text|);
      assert text[0..|text|] == text;
      assert base + EscapeAll(text[0..start]) + text[start..|text|] == base + EscapeAll(text);
      WriteByte(DQuote);
    }

    method WriteEscaped(text: Buffer, start: nat, i: nat, ghost base: Buffer)
      requires Valid() && start <= i < |text| && NeedsEscape(text[i])
      requires Contents() == base + EscapeAll(text[0..start])
      requires forall j :: start <= j < i ==> !NeedsEscape(text[j])
      modifies this, buffer
      ensures Valid() && Contents() == base + EscapeAll(text[0..i + 1])
      ensures buffer == old(buffer) || fresh(buffer)
    {
      WriteChunk(text[start..i]);
      WriteBytes(Escape(text[i]));
      ExtendEscaped(text, 0, start, i);
      Assoc(base, EscapeAll(text[0..start]), text[start..i], Escape(text[i]));
    }

    method WriteChunk(chunk: Buffer)
      requires Valid()
      modifies this, buffer
      ensures Valid() && Contents() == old(Contents()) + chunk
      ensures buffer == old(buffer) || fresh(buffer)
    {
      if chunk != [] {
        WriteBytes(chunk);
      }
    }

    method WriteQuotedUtf8Slice(bytes: Buffer, start: nat, end: nat)
      requires Valid() && start <= end <= |bytes|
      modifies this, buffer
      ensures Valid() && Contents() == old(Contents()) + Quoted(bytes[start..end])
      ensures buffer == old(buffer) || fresh(buffer)
    {
      var firstEscape := start;
      while firstEscape < end && !NeedsEscape(bytes[firstEscape])
        invariant start <= firstEscape <= end
        invariant forall j :: start <= j < firstEscape ==> !NeedsEscape(bytes[j])
      {
        firstEscape := firstEscape + 1;
      }
      ghost var base := Contents() + [DQuote];
      EnsureCapacity(end - start + 2);
      var at := Put(length, DQuote, Contents());
      EscapePlain(bytes[start..firstEscape]);
      CopyAt(at, bytes, start, firstEscape, base);
      at := at + (firstEscape - start);
      if firstEscape < end {
        at := EscapeSlice(bytes, start, firstEscape, end, at, base);
      }
      CloseString(at, bytes[start..end], base);
      Assoc(old(Contents()), [DQuote], EscapeAll(bytes[start..end]), [DQuote]);
    }

    method CloseString(at: nat, s: Buffer, ghost base: Buffer)
      requires Holds(at, base + EscapeAll(s)) && at < buffer.Length
      modifies this`length, buffer
      ensures Valid() && Contents() == base + EscapeAll(s) + [DQuote]
    {
      length := Put(at, DQuote, base + EscapeAll(s));
    }

    /** The rest of a slice from its first byte that needs escaping: plain chunks are copied whole. */
    method EscapeSlice(bytes: Buffer, start: nat, firstEscape: nat, end: nat, at0: nat, ghost base: Buffer) returns (at: nat)
      requires start <= firstEscape <= end <= |bytes| && Holds(at0, base + EscapeAll(bytes[start..firstEscape]))
      modifies this, buffer
      ensures Holds(at, base + EscapeAll(bytes[start..end])) && at < buffer.Length
      ensures buffer == old(buffer) || fresh(buffer)
    {
      at := at0;
      var chunkStart := firstEscape;
      for index := firstEscape to end
        invariant start <= chunkStart <= index && (buffer == old(buffer) || fresh(buffer))
        invariant Holds(at, base + EscapeAll(bytes[start..chunkStart]))
        invariant forall j :: chunkStart <= j < index ==> !NeedsEscape(bytes[j])
      {
        if NeedsEscape(bytes[index]) {
          at := EscapeOneMore(bytes, start, chunkStart, index, at, base);
          chunkStart := index + 1;
        }
      }
      at := EscapeLast(bytes, start, chunkStart, end, at, base);
    }

    method EscapeLast(bytes: Buffer, start: nat, chunkStart: nat, end: nat, at0: nat, ghost base: Buffer) returns (at: nat)
      requires start <= chunkStart <= end <= |bytes| && Holds(at0, base + EscapeAll(bytes[start..chunkStart]))
      requires forall j :: chunkStart <= j < end ==> !NeedsEscape(bytes[j])
      modifies this, buffer
      ensures Holds(at, base + EscapeAll(bytes[start..end])) && at < buffer.Length
      ensures buffer == old(buffer) || fresh(buffer)
    {
      at := CopyChunk(bytes, chunkStart, end, 1, at0, base + EscapeAll(bytes[start..chunkStart]));
      ExtendText(bytes, start, chunkStart, end, base);
    }

    method EscapeOneMore(bytes: Buffer, start: nat, chunkStart: nat, index: nat, at0: nat, ghost base: Buffer) returns (at: nat)
      requires start <= chunkStart <= index < |bytes| && NeedsEscape(bytes[index])
      requires Holds(at0, base + EscapeAll(bytes[start..chunkStart]))
      requires forall j :: chunkStart <= j < index ==> !NeedsEscape(bytes[j])
      modifies this, buffer
      ensures Holds(at, base + EscapeAll(bytes[start..index + 1]))
      ensures buffer == old(buffer) || fresh(buffer)
    {
      ghost var text := base + EscapeAll(bytes[start..chunkStart]);
      at := CopyChunk(bytes, chunkStart, index, 6, at0, text);
      at := PutEscape(at, bytes[index], text + bytes[chunkStart..index]);
      ExtendEscaped(bytes, start, chunkStart, index);
      Assoc(base, EscapeAll(bytes[start..chunkStart]), bytes[chunkStart..index], Escape(bytes[index]));
    }

    /** Copy a plain chunk, which may be empty, leaving room for `extra` more bytes. */
    method CopyChunk(bytes: Buffer, start: nat, end: nat, extra: nat, at0: nat, ghost text: Buffer) returns (at: nat)
      requires start <= end <= |bytes| && Holds(at0, text)
      modifies this, buffer
      ensures Holds(at, text + bytes[start..end]) && at + extra <= buffer.Length
      ensures buffer == old(buffer) || fresh(buffer)
    {
      at := at0;
      length := at;
      if start < end {
        EnsureCapacity(end - start + extra);
        CopyAt(at, bytes, start, end, text);
        at := at + (end - start);
      } else {
        EnsureCapacity(extra);
        assert text + bytes[start..end] == text;
      }
    }

    method PutTwo(at: nat, a: Byte, b: Byte, ghost text: Buffer) returns (next: nat)
      requires Holds(at, text) && at + 2 <= buffer.Length
      modifies buffer
      ensures next == at + 2 && Holds(next, text + [a, b])
    {
      next := Put(at, a, text);
      next := Put(next, b, text + [a]);
      assert text + [a] + [b] == text + [a, b];
    }

    method PutEscape(at: nat, value: Byte, ghost text: Buffer) returns (next: nat)
      requires NeedsEscape(value) && Holds(at, text) && at + 6 <= buffer.Length
      modifies buffer
      ensures Holds(next, text + Escape(value))
    {
      if value == DQuote || value == Backslash {
        next := PutTwo(at, Backslash, value, text);
      } else if value == 0x08 {
        next := PutTwo(at, Backslash, 0x62, text);
      } else if value == 0x09 {
        next := PutTwo(at, Backslash, 0x74, text);
      } else if value == 0x0a {
        next := PutTwo(at, Backslash, 0x6e, text);
      } else if value == 0x0c {
        next := PutTwo(at, Backslash, 0x66, text);
      } else if value == 0x0d {
        next := PutTwo(at, Backslash, 0x72, text);
      } else {
        next := PutTwo(at, Backslash, 0x75, text);
        next := PutTwo(next, 0x30, 0x30, text + [Backslash, 0x75]);
        next := PutTwo(next, Hex(value / 16), Hex(value % 16), text + [Backslash, 0x75] + [0x30, 0x30]);
        assert text + [Backslash, 0x75] + [0x30, 0x30] + [Hex(value / 16), Hex(value % 16)] == text + Escape(value);
      }
    }

    method WriteQuotedHexLower(bytes: Buffer, start: nat, count: nat)
      requires Valid() && start + count <= |bytes|
      modifies this, buffer
      ensures Valid() && Contents() == old(Contents()) + [DQuote] + HexAll(bytes[start..start + count]) + [DQuote]
      ensures buffer == old(buffer) || fresh(buffer)
    {
      ghost var base := Contents() + [DQuote];
      EnsureCapacity(count * 2 + 2);
      ghost var capacity := buffer;
      var at: nat := Put(length, DQuote, Contents());
      for index := start to start + count
        invariant buffer == capacity && at + 2 * (start + count - index) + 1 <= buffer.Length
        invariant Holds(at, base + HexAll(bytes[start..index]))
      {
        ghost var text := base + HexAll(bytes[start..index]);
        at := PutTwo(at, Hex(bytes[index] / 16), Hex(bytes[index] % 16), text);
        HexAllMore(bytes, start, index, base);
      }
      at := Put(at, DQuote, base + HexAll(bytes[start..start + count]));
      length := at;
    }

    method WriteQuotedUuid(bytes: Buffer)
      requires Valid() && |bytes| == 16
      modifies this, buffer
      ensures Valid() && Contents() == old(Contents()) + [DQuote] + UuidText(bytes) + [DQuote]
      ensures buffer == old(buffer) || fresh(buffer)
    {
      ghost var base := Contents() + [DQuote];
      EnsureCapacity(38);
      ghost var capacity := buffer;
      ghost var from := length;
      var at := Put(length, DQuote, Contents());
      for index := 0 to 16
        invariant buffer == capacity
        invariant at == from + 1 + 2 * index + Dashes(index) && from + 38 <= buffer.Length
        invariant Holds(at, base + UuidPrefix(bytes[..index]))
      {
        at := PutGroupByte(bytes, index, at, base);
      }
      UuidPrefixIsText(bytes);
      assert bytes[..16] == bytes;
      at := Put(at, DQuote, base + UuidText(bytes));
      length := at;
    }

    method PutGroupByte(bytes: Buffer, index: nat, at: nat, ghost base: Buffer) returns (next: nat)
      requires index < |bytes| && Holds(at, base + UuidPrefix(bytes[..index])) && at + 3 <= buffer.Length
      modifies buffer
      ensures next == at + 2 + |Dash(index)| && Holds(next, base + UuidPrefix(bytes[..index + 1]))
    {
      ghost var text := base + UuidPrefix(bytes[..index]);
      next := at;
      if DashBefore(index) {
        next := Put(next, 0x2d, text);
      } else {
        assert text + Dash(index) == text;
      }
      next := PutTwo(next, Hex(bytes[index] / 16), Hex(bytes[index] % 16), text + Dash(index));
      assert bytes[..index + 1][..index] == bytes[..index];
      assert text + Dash(index) + [Hex(bytes[index] / 16), Hex(bytes[index] % 16)] == base + UuidPrefix(bytes[..index + 1]);
    }

    method PutDigits(at: nat, n: nat, ghost text: Buffer) returns (next: nat)
      requires Holds(at, text) && at + 2 <= buffer.Length && n < 100
      modifies buffer
      ensures next == at + 2 && Holds(next, text + Two(n))
    {
      next := PutTwo(at, 0x30 + n / 10, 0x30 + n % 10, text);
      assert [0x30 + n / 10, 0x30 + n % 10] == Two(n);
    }

    method PutYear(at: nat, year: nat, ghost text: Buffer) returns (next: nat)
      requires Holds(at, text) && at + 4 <= buffer.Length && year <= 9999
      modifies buffer
      ensures next == at + 4 && Holds(next, text + Four(year))
    {
      assert year / 100 / 10 == year / 1000;
      next := PutTwo(at, 0x30 + year / 1000, 0x30 + year / 100 % 10, text);
      next := PutTwo(next, 0x30 + year / 10 % 10, 0x30 + year % 10, text + Two(year / 100));
      Assoc(text, Two(year / 100), Two(year), []);
    }

    /** A separator and a two-digit field. */
    method PutField(at: nat, separator: Byte, n: nat, ghost text: Buffer) returns (next: nat)
      requires Holds(at, text) && at + 3 <= buffer.Length && n < 100
      modifies buffer
      ensures next == at + 3 && Holds(next, text + Field(separator, n))
    {
      next := Put(at, separator, text);
      next := PutDigits(next, n, text + [separator]);
      assert text + [separator] + Two(n) == text + Field(separator, n);
    }

    method PutDate(at: nat, t: DateTime, ghost text: Buffer) returns (next: nat)
      requires Holds(at, text) && at + 10 <= buffer.Length && InRange(t)
      modifies buffer
      ensures next == at + 10 && Holds(next, text + DateText(t))
    {
      next := PutYear(at, t.year, text);
      next := PutField(next, 0x2d, t.month, text + Four(t.year));
      next := PutField(next, 0x2d, t.day, text + Four(t.year) + Field(0x2d, t.month));
      assert text + Four(t.year) + Field(0x2d, t.month) + Field(0x2d, t.day) == text + DateText(t);
    }

    method PutTime(at: nat, t: DateTime, includeMilliseconds: bool, ghost text: Buffer) returns (next: nat)
      requires Holds(at, text) && at + 12 <= buffer.Length && InRange(t)
      modifies buffer
      ensures next <= at + 12 && Holds(next, text + TimeText(t, includeMilliseconds))
    {
      next := PutDigits(at, t.hour, text);
      next := PutField(next, 0x3a, t.minute, text + Two(t.hour));
      next := PutField(next, 0x3a, t.second, text + Two(t.hour) + Field(0x3a, t.minute));
      assert text + Two(t.hour) + Field(0x3a, t.minute) + Field(0x3a, t.second) == text + Clock(t);
      next := PutFraction(next, t.millisecond, includeMilliseconds, text + Clock(t));
      assert text + Clock(t) + Fraction(t.millisecond, includeMilliseconds) == text + TimeText(t, includeMilliseconds);
    }

    method PutFraction(at: nat, n: nat, includeMilliseconds: bool, ghost text: Buffer) returns (next: nat)
      requires Holds(at, text) && at + 4 <= buffer.Length && n < 1000
      modifies buffer
      ensures next <= at + 4 && Holds(next, text + Fraction(n, includeMilliseconds))
    {
      if includeMilliseconds {
        next := PutTwo(at, 0x2e, 0x30 + n / 100, text);
        next := PutTwo(next, 0x30 + n / 10 % 10, 0x30 + n % 10, text + [0x2e, 0x30 + n / 100]);
        assert text + [0x2e, 0x30 + n / 100] + [0x30 + n / 10 % 10, 0x30 + n % 10] == text + Fraction(n, includeMilliseconds);
      } else {
        next := at;
        assert text + Fraction(n, includeMilliseconds) == text;
      }
    }

    method PutQuoteIf(at: nat, quoted: bool, ghost text: Buffer) returns (next: nat)
      requires Holds(at, text) && at + 1 <= buffer.Length
      modifies buffer
      ensures next <= at + 1 && Holds(next, text + QuoteIf(quoted))
    {
      if quoted {
        next := Put(at, DQuote, text);
      } else {
        next := at;
        assert text + QuoteIf(quoted) == text;
      }
    }

    method WriteDateTime(t: DateTime, quoted: bool, separator: Byte, includeMilliseconds: bool)
      requires Valid() && InRange(t)
      modifies this, buffer
      ensures Valid()
      ensures Contents() == old(Contents()) + QuoteIf(quoted) + DateTimeText(t, separator, includeMilliseconds) + QuoteIf(quoted)
      ensures buffer == old(buffer) || fresh(buffer)
    {
      EnsureCapacity(26);
      ghost var text := Contents();
      var offset := PutQuoteIf(length, quoted, text);
      text := text + QuoteIf(quoted);
      offset := PutDateTime(offset, t, separator, includeMilliseconds, text);
      text := text + DateTimeText(t, separator, includeMilliseconds);
      offset := PutQuoteIf(offset, quoted, text);
      FinishAt(offset, text + QuoteIf(quoted));
    }

    method FinishAt(at: nat, ghost text: Buffer)
      requires Holds(at, text)
      modifies this`length
      ensures Valid() && Contents() == text
    {
      length := at;
    }

    method PutDateTime(at: nat, t: DateTime, separator: Byte, includeMilliseconds: bool, ghost text: Buffer) returns (next: nat)
      requires Holds(at, text) && at + 24 <= buffer.Length && InRange(t)
      modifies buffer
      ensures next <= at + 24 && Holds(next, text + DateTimeText(t, separator, includeMilliseconds))
    {
      ghost var date, time := DateText(t), TimeText(t, includeMilliseconds);
      next := PutDate(at, t, text);
      next := Put(next, separator, text + date);
      next := PutTime(next, t, includeMilliseconds, text + date + [separator]);
      next := Put(next, 0x5a, text + date + [separator] + time);
      DateTimeParts(text, date, separator, time);
    }
  }

  function QuoteIf(quoted: bool): Buffer {
    if quoted then [DQuote] else []
  }

  function Dashes(n: nat): nat {
    (if n > 4 then 1 else 0) + (if n > 6 then 1 else 0) + (if n > 8 then 1 else 0) + (if n > 10 then 1 else 0)
  }

  lemma Assoc(a: Buffer, b: Buffer, c: Buffer, d: Buffer)
    ensures a + b + c + d == a + (b + c + d)
  {
  }

  lemma DateTimeParts(text: Buffer, date: Buffer, separator: Byte, time: Buffer)
    ensures text + date + [separator] + time + [0x5a] == text + (date + [separator] + time + [0x5a])
  {
  }

  lemma HexAllMore(bytes: Buffer, start: nat, index: nat, base: Buffer)
    requires start <= index < |bytes|
    ensures base + HexAll(bytes[start..index]) + [Hex(bytes[index] / 16), Hex(bytes[index] % 16)] == base + HexAll(bytes[start..index + 1])
  {
    assert bytes[start..index + 1][..index - start] == bytes[start..index];
  }

  lemma PlainTail(a: Buffer, b: Buffer)
    requires forall j :: 0 <= j < |b| ==> !NeedsEscape(b[j])
    ensures EscapeAll(a + b) == EscapeAll(a) + b
  {
    EscapePlain(b);
    EscapeConcat(a, b);
  }

  lemma ExtendPlain(bytes: Buffer, start: nat, chunk: nat, end: nat)
    requires start <= chunk <= end <= |bytes| && forall j :: chunk <= j < end ==> !NeedsEscape(bytes[j])
    ensures EscapeAll(bytes[start..end]) == EscapeAll(bytes[start..chunk]) + bytes[chunk..end]
  {
    PlainTail(bytes[start..chunk], bytes[chunk..end]);
    assert bytes[start..end] == bytes[start..chunk] + bytes[chunk..end];
  }

  lemma ExtendText(bytes: Buffer, start: nat, chunk: nat, end: nat, base: Buffer)
    requires start <= chunk <= end <= |bytes| && forall j :: chunk <= j < end ==> !NeedsEscape(bytes[j])
    ensures base + EscapeAll(bytes[start..chunk]) + bytes[chunk..end] == base + EscapeAll(bytes[start..end])
  {
    ExtendPlain(bytes, start, chunk, end);
    var escaped, plain := EscapeAll(bytes[start..chunk]), bytes[chunk..end];
    ConcatIsAssociative(base, escaped, plain);
  }

  lemma ExtendEscaped(bytes: Buffer, start: nat, chunk: nat, index: nat)
    requires start <= chunk <= index < |bytes| && forall j :: chunk <= j < index ==> !NeedsEscape(bytes[j])
    ensures EscapeAll(bytes[start..index + 1]) == EscapeAll(bytes[start..chunk]) + bytes[chunk..index] + Escape(bytes[index])
  {
    ExtendPlain(bytes, start, chunk, index);
    EscapeOne(bytes[index]);
    EscapeConcat(bytes[start..index], [bytes[index]]);
    assert bytes[start..index + 1] == bytes[start..index] + [bytes[index]];
  }
}
