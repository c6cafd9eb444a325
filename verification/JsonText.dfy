/** JSON strings over UTF-8 bytes, as RFC 8259 section 7 defines them. */
module JsonText {
  import opened Bytes
  import opened Wrappers

  const DQuote: Byte := 0x22
  const Backslash: Byte := 0x5c

  function Hex(n: int): Byte
    requires 0 <= n < 16
  {
    if n < 10 then 0x30 + n else 0x57 + n
  }

  predicate NeedsEscape(b: Byte) {
    b < 0x20 || b == DQuote || b == Backslash
  }

  function Escape(b: Byte): Buffer {
    if b == DQuote then [Backslash, DQuote]
    else if b == Backslash then [Backslash, Backslash]
    else if b == 0x08 then [Backslash, 0x62]
    else if b == 0x09 then [Backslash, 0x74]
    else if b == 0x0a then [Backslash, 0x6e]
    else if b == 0x0c then [Backslash, 0x66]
    else if b == 0x0d then [Backslash, 0x72]
    else if b < 0x20 then [Backslash, 0x75, 0x30, 0x30, Hex(b / 16), Hex(b % 16)]
    else [b]
  }

  function EscapeAll(s: Buffer): Buffer {
    if s == [] then [] else Escape(s[0]) + EscapeAll(s[1..])
  }

  function Quoted(s: Buffer): Buffer {
    [DQuote] + EscapeAll(s) + [DQuote]
  }

  lemma {:induction false} EscapeConcat(a: Buffer, b: Buffer)
    ensures EscapeAll(a + b) == EscapeAll(a) + EscapeAll(b)
  {
    if a == [] {
      assert a + b == b;
    } else {
      var rest := a[1..];
      EscapeConcat(rest, b);
      assert (a + b)[1..] == rest + b;
      var first, others := Escape(a[0]), EscapeAll(rest);
      ConcatIsAssociative(first, others, EscapeAll(b));
    }
  }

  lemma ConcatIsAssociative(a: Buffer, b: Buffer, c: Buffer)
    ensures a + (b + c) == (a + b) + c
  {
  }

  lemma {:induction false} EscapePlain(s: Buffer)
    requires forall i :: 0 <= i < |s| ==> !NeedsEscape(s[i])
    ensures EscapeAll(s) == s
  {
    if s != [] {
      EscapePlain(s[1..]);
      assert s == [s[0]] + s[1..];
    }
  }

  lemma EscapeOne(b: Byte)
    ensures EscapeAll([b]) == Escape(b)
  {
    assert [b][1..] == [];
  }

  // ----- reading a string -----

  function HexValue(b: Byte): Option<int> {
    if 0x30 <= b <= 0x39 then Some(b - 0x30)
    else if 0x61 <= b <= 0x66 then Some(b - 0x57)
    else if 0x41 <= b <= 0x46 then Some(b - 0x37)
    else None
  }

  function HexDigits(s: Buffer): (r: Option<int>)
    ensures r.Some? ==> r.value >= 0
  {
    if s == [] then Some(0)
    else
      var high := HexDigits(s[..|s| - 1]);
      var low := HexValue(s[|s| - 1]);
      if high.Some? && low.Some? then Some(16 * high.value + low.value) else None
  }

  /** The UTF-8 bytes of a code point that is not half of a pair. */
  function Utf8(c: int): Option<Buffer> {
    if 0 <= c < 0x80 then Some([c])
    else if 0x80 <= c < 0x800 then Some([0xc0 + c / 0x40, 0x80 + c % 0x40])
    else if 0x800 <= c < 0xd800 || 0xe000 <= c < 0x1_0000 then
      Some([0xe0 + c / 0x1000, 0x80 + c / 0x40 % 0x40, 0x80 + c % 0x40])
    else None
  }

  function Unescape(text: Buffer): Option<(Buffer, nat)>
    requires |text| > 0
  {
    if text[0] < 0x20 || text[0] == DQuote then None
    else if text[0] != Backslash then Some(([text[0]], 1))
    else if |text| < 2 then None
    else if text[1] == DQuote || text[1] == Backslash || text[1] == 0x2f then Some(([text[1]], 2))
    else if text[1] == 0x62 then Some(([0x08], 2))
    else if text[1] == 0x74 then Some(([0x09], 2))
    else if text[1] == 0x6e then Some(([0x0a], 2))
    else if text[1] == 0x66 then Some(([0x0c], 2))
    else if text[1] == 0x72 then Some(([0x0d], 2))
    else if text[1] == 0x75 && |text| >= 6 && HexDigits(text[2..6]).Some? && Utf8(HexDigits(text[2..6]).value).Some? then
      Some((Utf8(HexDigits(text[2..6]).value).value, 6))
    else None
  }

  /** The string up to its closing quote, and the text after it. */
  function ReadString(text: Buffer): Option<(Buffer, Buffer)>
    decreases |text|
  {
    if text == [] then None
    else if text[0] == DQuote then Some(([], text[1..]))
    else
      var one := Unescape(text);
      if one.None? || one.value.1 == 0 || one.value.1 > |text| then None
      else
        var rest := ReadString(text[one.value.1..]);
        if rest.None? then None else Some((one.value.0 + rest.value.0, rest.value.1))
  }

  lemma UnescapeEscape(b: Byte, rest: Buffer)
    ensures Escape(b)[0] != DQuote && Unescape(Escape(b) + rest) == Some(([b], |Escape(b)|))
  {
    var text := Escape(b) + rest;
    if b < 0x20 && |Escape(b)| == 6 {
      var d := text[2..6];
      assert d == [0x30, 0x30, Hex(b / 16), Hex(b % 16)];
      assert d[..3] == [0x30, 0x30, Hex(b / 16)] && d[..3][..2] == [0x30, 0x30] && d[..3][..2][..1] == [0x30];
      assert HexDigits([0x30]) == Some(0) by { assert [0x30][..0] == []; }
      assert HexDigits([0x30, 0x30]) == Some(0);
      assert HexDigits(d) == Some(b);
    }
  }

  /** What is written for a string reads back as that string, and ends where it was ended. */
  lemma {:induction false} QuotedReadsBack(s: Buffer, rest: Buffer)
    ensures ReadString(EscapeAll(s) + [DQuote] + rest) == Some((s, rest))
  {
    if s != [] {
      var tail := EscapeAll(s[1..]) + [DQuote] + rest;
      assert EscapeAll(s) + [DQuote] + rest == Escape(s[0]) + tail;
      UnescapeEscape(s[0], tail);
      QuotedReadsBack(s[1..], rest);
      assert (Escape(s[0]) + tail)[|Escape(s[0])|..] == tail;
      assert s == [s[0]] + s[1..];
    }
  }
}
