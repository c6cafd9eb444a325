/** Bytes, and the fixed-width little-endian integers read from them. */
module Bytes {
  import opened Wrappers

  type Byte = b: int | 0 <= b < 0x100

  type Buffer = seq<Byte>

  function Ascii(text: string): Buffer {
    seq(|text|, i requires 0 <= i < |text| => if text[i] < 128 as char then text[i] as int else 0x3f)
  }

  /** The signed 32-bit number at an offset; out of range is an error. */
  function ReadInt32(bytes: Buffer, offset: nat): Option<int> {
    if offset + 4 > |bytes| then None
    else
      var b0: int, b1: int, b2: int, b3: int := bytes[offset], bytes[offset + 1], bytes[offset + 2], bytes[offset + 3];
      var n := b0 + 0x100 * b1 + 0x1_0000 * b2 + 0x100_0000 * b3;
      Some(if n < 0x8000_0000 then n else n - 0x1_0000_0000)
  }

  function Int32(n: int): (r: Buffer)
    ensures |r| == 4
  {
    var u := n % 0x1_0000_0000;
    var high := u / 0x100;
    var higher := high / 0x100;
    [u % 0x100, high % 0x100, higher % 0x100, higher / 0x100]
  }

  lemma ReadsBack(bytes: Buffer, offset: nat, n: int)
    requires -0x8000_0000 <= n < 0x8000_0000 && At(bytes, offset, Int32(n))
    ensures ReadInt32(bytes, offset) == Some(n)
  {
    var part := Int32(n);
    AtIndex(bytes, offset, part, 0);
    AtIndex(bytes, offset, part, 1);
    AtIndex(bytes, offset, part, 2);
    AtIndex(bytes, offset, part, 3);
    var u := n % 0x1_0000_0000;
    assert u == 0x100 * (u / 0x100) + u % 0x100;
    var high := u / 0x100;
    assert high == 0x100 * (high / 0x100) + high % 0x100;
    var higher := high / 0x100;
    assert higher == 0x100 * (higher / 0x100) + higher % 0x100;
  }

  /** The first zero byte at or after an offset. */
  function IndexOfZero(bytes: Buffer, start: nat): (r: Option<nat>)
    ensures r.Some? ==> start <= r.value < |bytes| && bytes[r.value] == 0 && forall i :: start <= i < r.value ==> bytes[i] != 0
    ensures r.None? ==> forall i :: start <= i < |bytes| ==> bytes[i] != 0
    decreases |bytes| - start
  {
    if start >= |bytes| then None
    else if bytes[start] == 0 then Some(start)
    else IndexOfZero(bytes, start + 1)
  }

  ghost predicate NoZero(s: Buffer) {
    forall i :: 0 <= i < |s| ==> s[i] != 0
  }

  /** A zero-terminated name is found where it was put. */
  lemma FindsName(bytes: Buffer, offset: nat, name: Buffer)
    requires NoZero(name) && At(bytes, offset, name + [0])
    ensures IndexOfZero(bytes, offset) == Some(offset + |name|)
  {
    forall i | offset <= i <= offset + |name| ensures bytes[i] == (name + [0])[i - offset] {
      AtIndex(bytes, offset, name + [0], i - offset);
    }
    assert bytes[offset + |name|] == 0;
    assert forall i :: offset <= i < offset + |name| ==> bytes[i] == name[i - offset];
  }
}
