/** Comparable log positions. */
module Lsn {
  // A position is a coordinate in hexadecimal, then perhaps a resume token.

  import opened Wrappers

  /** The order of strings, by code unit. */
  predicate Less(a: string, b: string) {
    b != "" && (a == "" || a[0] < b[0] || (a[0] == b[0] && Less(a[1..], b[1..])))
  }

  function Digit(n: nat): char
    requires n < 16
  {
    if n < 10 then '0' + n as char else 'a' + (n - 10) as char
  }

  function ToHex(n: nat): string {
    if n < 16 then [Digit(n)] else ToHex(n / 16) + [Digit(n % 16)]
  }

  /** The text of a signed number, as printed with base 16. */
  function SignedHex(n: int): string {
    if n < 0 then "-" + ToHex(-n) else ToHex(n)
  }

  function PadStart(s: string, width: nat): string {
    if |s| >= width then s else "0" + PadStart(s, width - 1)
  }

  function Power16(n: nat): nat {
    if n == 0 then 1 else 16 * Power16(n - 1)
  }

  const Half := 0x8000_0000
  const Word := 0x1_0000_0000

  /** A 32-bit half of a timestamp, as the signed number it is stored as. */
  function Signed(n: nat): int
    requires n < Word
  {
    if n < Half then n else n - Word
  }

  /** A MongoDB timestamp: two unsigned 32-bit halves. */
  datatype Timestamp = Timestamp(high: nat, low: nat)

  predicate IsTimestamp(t: Timestamp) {
    t.high < Word && t.low < Word
  }

  function Suffix(token: Option<string>): string {
    if token.Some? && token.value != "" then "|" + token.value else ""
  }

  function MongoComparable(t: Timestamp, token: Option<string>): string
    requires IsTimestamp(t)
  {
    PadStart(SignedHex(Signed(t.high)), 8) + PadStart(SignedHex(Signed(t.low)), 8) + Suffix(token)
  }

  function SentinelComparable(sentinel: nat, token: Option<string>): string {
    PadStart(ToHex(sentinel), 16) + Suffix(token)
  }

  /** Both halves below 2^31. */
  predicate InRange(t: Timestamp) {
    t.high < Half && t.low < Half
  }

  function Coordinate(t: Timestamp): nat {
    t.high * Word + t.low
  }

  // ----- fixed-width numbers -----

  /** Exactly `width` digits. */
  function Fixed(n: nat, width: nat): (s: string)
    ensures |s| == width
  {
    if width == 0 then "" else Fixed(n / 16, width - 1) + [Digit(n % 16)]
  }

  lemma {:induction false} FixedZero(width: nat)
    ensures width > 0 ==> Fixed(0, width) == "0" + Fixed(0, width - 1)
  {
    if width > 1 {
      FixedZero(width - 1);
    } else if width == 1 {
      assert Fixed(0, 0) == "";
    }
  }

  lemma {:induction false} FixedLeads(n: nat, width: nat)
    requires n < Power16(width)
    ensures Fixed(n, width + 1) == "0" + Fixed(n, width)
  {
    if width > 0 {
      FixedLeads(n / 16, width - 1);
    } else {
      assert Fixed(0, 0) == "";
    }
  }

  lemma {:induction false} HexIsFixed(n: nat)
    ensures n < Power16(|ToHex(n)|) && ToHex(n) == Fixed(n, |ToHex(n)|) && |ToHex(n)| > 0
    ensures n >= 16 ==> Power16(|ToHex(n)| - 1) <= n
    ensures n < 16 ==> |ToHex(n)| == 1
  {
    if n >= 16 {
      HexIsFixed(n / 16);
      if n / 16 < 16 {
        assert |ToHex(n)| == 2 && Power16(1) == 16 * Power16(0);
      }
    } else {
      assert Fixed(n, 1) == Fixed(n / 16, 0) + [Digit(n % 16)] == [Digit(n)];
      assert Power16(1) == 16 * Power16(0);
    }
  }

  lemma {:induction false} PowerGrows(a: nat, b: nat)
    requires a <= b
    ensures Power16(a) <= Power16(b)
  {
    if a < b { PowerGrows(a, b - 1); }
  }

  lemma {:induction false} PadFixed(n: nat, width: nat, target: nat)
    requires n < Power16(width) && width <= target
    ensures PadStart(Fixed(n, width), target) == Fixed(n, target)
    decreases target - width
  {
    if width < target {
      PadOnce(n, width, target);
    }
  }

  lemma {:induction false} PadOnce(n: nat, width: nat, target: nat)
    requires n < Power16(width) && width < target
    ensures PadStart(Fixed(n, width), target) == Fixed(n, target)
    decreases target - width, 1
  {
    if width == target - 1 {
      FixedLeads(n, width);
      assert PadStart(Fixed(n, width), target - 1) == Fixed(n, width);
    } else {
      PadOnce(n, width, target - 1);
      PowerGrows(width, target - 1);
      FixedLeads(n, target - 1);
    }
  }

  /** Padding a number that fits gives exactly the width asked for. */
  lemma PadIsFixed(n: nat, width: nat)
    requires n < Power16(width) && width > 0
    ensures PadStart(ToHex(n), width) == Fixed(n, width)
  {
    HexIsFixed(n);
    var length := |ToHex(n)|;
    if length > width {
      PowerGrows(width, length - 1);
    }
    PadFixed(n, length, width);
  }

  // ----- order -----

  lemma {:induction false} LessPrefix(p: string, a: string, b: string)
    ensures Less(p + a, p + b) == Less(a, b)
  {
    if p == "" {
      assert p + a == a && p + b == b;
    } else {
      LessPrefix(p[1..], a, b);
      assert (p + a)[1..] == p[1..] + a && (p + b)[1..] == p[1..] + b;
    }
  }

  lemma DigitOrder(a: nat, b: nat)
    requires a < 16 && b < 16
    ensures Digit(a) < Digit(b) <==> a < b
    ensures Digit(a) == Digit(b) <==> a == b
  {
  }

  /** Different numbers of one width are ordered as numbers, whatever follows them. */
  lemma {:induction false} FixedOrder(a: nat, b: nat, width: nat, x: string, y: string)
    requires a < Power16(width) && b < Power16(width) && a != b
    ensures Less(Fixed(a, width) + x, Fixed(b, width) + y) <==> a < b
  {
    var p, q := Fixed(a / 16, width - 1), Fixed(b / 16, width - 1);
    assert Fixed(a, width) + x == p + ([Digit(a % 16)] + x);
    assert Fixed(b, width) + y == q + ([Digit(b % 16)] + y);
    if a / 16 != b / 16 {
      FixedOrder(a / 16, b / 16, width - 1, [Digit(a % 16)] + x, [Digit(b % 16)] + y);
    } else {
      LessPrefix(p, [Digit(a % 16)] + x, [Digit(b % 16)] + y);
      DigitOrder(a % 16, b % 16);
    }
  }

  lemma JoinArithmetic(high: nat, low: nat, power: nat)
    ensures high * (16 * power) + low == 16 * (high * power + low / 16) + low % 16
    ensures (high * (16 * power) + low) / 16 == high * power + low / 16
    ensures (high * (16 * power) + low) % 16 == low % 16
  {
    var m := high * power;
    assert high * (16 * power) == 16 * m;
  }

  lemma {:induction false} FixedJoin(high: nat, low: nat, width: nat, width': nat)
    requires low < Power16(width')
    ensures Fixed(high, width) + Fixed(low, width') == Fixed(high * Power16(width') + low, width + width')
  {
    if width' > 0 {
      FixedJoin(high, low / 16, width, width' - 1);
      JoinArithmetic(high, low, Power16(width' - 1));
      var a, b, c := Fixed(high, width), Fixed(low / 16, width' - 1), [Digit(low % 16)];
      assert a + (b + c) == a + b + c;
    } else {
      assert Fixed(low, 0) == "" && high * Power16(0) + low == high;
      assert Fixed(high, width) + "" == Fixed(high, width);
    }
  }

  lemma Powers()
    ensures Power16(8) == Word && Power16(16) == Word * Word
  {
    assert Power16(4) == 0x1_0000;
    assert Power16(8) == 0x1_0000_0000;
    assert Power16(12) == 0x1_0000_0000_0000;
  }

  /** In range, the timestamp form is the sixteen digits of the coordinate. */
  lemma MongoIsFixed(t: Timestamp, token: Option<string>)
    requires InRange(t)
    ensures MongoComparable(t, token) == Fixed(Coordinate(t), 16) + Suffix(token) && Coordinate(t) < Power16(16)
  {
    Powers();
    PadIsFixed(t.high, 8);
    PadIsFixed(t.low, 8);
    FixedJoin(t.high, t.low, 8, 8);
  }

  lemma SentinelIsFixed(n: nat, token: Option<string>)
    requires n < Word * Word
    ensures SentinelComparable(n, token) == Fixed(n, 16) + Suffix(token) && n < Power16(16)
  {
    Powers();
    PadIsFixed(n, 16);
  }

  /** A position of either form. */
  datatype Position = Mongo(time: Timestamp) | Sentinel(count: nat)

  predicate Ordinary(p: Position) {
    match p
    case Mongo(t) => InRange(t)
    case Sentinel(n) => n < Word * Word
  }

  function Value(p: Position): nat {
    match p
    case Mongo(t) => Coordinate(t)
    case Sentinel(n) => n
  }

  function Comparable(p: Position, token: Option<string>): string
    requires p.Mongo? ==> IsTimestamp(p.time)
  {
    match p
    case Mongo(t) => MongoComparable(t, token)
    case Sentinel(n) => SentinelComparable(n, token)
  }

  /** String order is numeric order, within and across the two forms, with or without tokens. */
  lemma OrderIsNumeric(p: Position, q: Position, token: Option<string>, token': Option<string>)
    requires Ordinary(p) && Ordinary(q) && Value(p) != Value(q)
    ensures Less(Comparable(p, token), Comparable(q, token')) <==> Value(p) < Value(q)
  {
    match p { case Mongo(t) => MongoIsFixed(t, token); case Sentinel(n) => SentinelIsFixed(n, token); }
    match q { case Mongo(t) => MongoIsFixed(t, token'); case Sentinel(n) => SentinelIsFixed(n, token'); }
    FixedOrder(Value(p), Value(q), 16, Suffix(token), Suffix(token'));
  }

  lemma JoinDash(zeros: string, hex: string, low: string, suffix: string)
    ensures zeros + ("-" + hex) + low + suffix == zeros + ("-" + (hex + low + suffix))
  {
  }

  lemma LateIsDash(t: Timestamp, token: Option<string>) returns (k: nat, rest: string)
    requires IsTimestamp(t) && t.high >= Half
    ensures k < 8 && MongoComparable(t, token) == Zeros(k) + ("-" + rest)
  {
    var hex, low := ToHex(Word - t.high), PadStart(SignedHex(Signed(t.low)), 8);
    k := DashPads("-" + hex, 8);
    rest := hex + low + Suffix(token);
    JoinDash(Zeros(k), hex, low, Suffix(token));
  }

  lemma OrdinaryIsDigits(p: Position, token: Option<string>)
    requires Ordinary(p)
    ensures Comparable(p, token) == Fixed(Value(p), 16) + Suffix(token)
  {
    match p { case Mongo(u) => MongoIsFixed(u, token); case Sentinel(n) => SentinelIsFixed(n, token); }
  }

  /** A timestamp whose first half has its top bit set, a time from 2038 on, sorts before every ordinary
      position, however much later it is. */
  lemma LateTimestampsSortFirst(t: Timestamp, p: Position, token: Option<string>, token': Option<string>)
    requires IsTimestamp(t) && t.high >= Half && Ordinary(p)
    ensures Less(MongoComparable(t, token), Comparable(p, token'))
    ensures p.Mongo? ==> Value(p) < Coordinate(t)
  {
    var k, rest := LateIsDash(t, token);
    OrdinaryIsDigits(p, token');
    FixedIsHex(Value(p), 16);
    DashSortsFirst(k, rest, Fixed(Value(p), 16) + Suffix(token'));
  }

  lemma {:induction false} FixedIsHex(n: nat, width: nat)
    ensures forall i :: 0 <= i < width ==> Fixed(n, width)[i] >= '0'
  {
    if width > 0 { FixedIsHex(n / 16, width - 1); }
  }

  function Zeros(k: nat): (s: string)
    ensures |s| == k
  {
    if k == 0 then "" else "0" + Zeros(k - 1)
  }

  lemma {:induction false} DashPads(s: string, width: nat) returns (k: nat)
    requires s != ""
    ensures k <= width && (width > 0 ==> k < width) && PadStart(s, width) == Zeros(k) + s
    decreases width
  {
    if |s| >= width {
      k := 0;
      assert Zeros(0) + s == s;
    } else {
      k := DashPads(s, width - 1);
      assert "0" + (Zeros(k) + s) == Zeros(k + 1) + s;
      k := k + 1;
    }
  }

  /** A dash sorts before every digit. */
  lemma {:induction false} DashSortsFirst(k: nat, rest: string, digits: string)
    requires k < |digits| && forall i :: 0 <= i <= k ==> digits[i] >= '0'
    ensures Less(Zeros(k) + ("-" + rest), digits)
  {
    if k > 0 {
      DashSortsFirst(k - 1, rest, digits[1..]);
      assert (Zeros(k) + ("-" + rest))[1..] == Zeros(k - 1) + ("-" + rest);
    }
  }

  lemma JoinLow(high: string, zeros: string, hex: string, suffix: string)
    ensures high + (zeros + ("-" + hex)) + suffix == high + (zeros + ("-" + (hex + suffix)))
  {
  }

  lemma LateLowIsDash(t: Timestamp, token: Option<string>) returns (k: nat, rest: string)
    requires IsTimestamp(t) && t.high < Half && t.low >= Half
    ensures k < 8 && MongoComparable(t, token) == Fixed(t.high, 8) + (Zeros(k) + ("-" + rest))
  {
    Powers();
    PadIsFixed(t.high, 8);
    var hex := ToHex(Word - t.low);
    k := DashPads("-" + hex, 8);
    rest := hex + Suffix(token);
    JoinLow(Fixed(t.high, 8), Zeros(k), hex, Suffix(token));
  }

  lemma LateLowSortsFirst(t: Timestamp, token: Option<string>)
    requires IsTimestamp(t) && t.high < Half && t.low >= Half
    ensures Less(MongoComparable(t, token), SentinelComparable(t.high * Word, None)) && t.high * Word < Coordinate(t)
  {
    var k, rest := LateLowIsDash(t, token);
    SentinelIsFixed(t.high * Word, None);
    Powers();
    FixedJoin(t.high, 0, 8, 8);
    FixedIsHex(0, 8);
    var high, low, zero := Fixed(t.high, 8), Zeros(k) + ("-" + rest), Fixed(0, 8);
    DashSortsFirst(k, rest, zero);
    LessPrefix(high, low, zero);
    assert SentinelComparable(t.high * Word, None) == high + zero;
  }

  ghost predicate SortsRight(t: Timestamp, token: Option<string>)
    requires IsTimestamp(t)
  {
    forall p, token' :: Ordinary(p) && Value(p) != Coordinate(t) ==>
      (Less(MongoComparable(t, token), Comparable(p, token')) <==> Coordinate(t) < Value(p))
  }

  /** A timestamp sorts right among the ordinary positions exactly when both halves are below 2^31. */
  lemma SortsRightIffInRange(t: Timestamp, token: Option<string>)
    requires IsTimestamp(t)
    ensures SortsRight(t, token) <==> InRange(t)
  {
    if InRange(t) {
      forall p, token' | Ordinary(p) && Value(p) != Coordinate(t)
        ensures Less(MongoComparable(t, token), Comparable(p, token')) <==> Coordinate(t) < Value(p)
      {
        OrderIsNumeric(Mongo(t), p, token, token');
      }
    } else if t.high >= Half {
      LateTimestampsSortFirst(t, Mongo(Timestamp(0, 0)), token, None);
      assert Ordinary(Mongo(Timestamp(0, 0))) && Comparable(Mongo(Timestamp(0, 0)), None) == MongoComparable(Timestamp(0, 0), None);
    } else {
      LateLowSortsFirst(t, token);
      var p := Sentinel(t.high * Word);
      assert Ordinary(p) && Comparable(p, None) == SentinelComparable(t.high * Word, None);
    }
  }

  // ----- parsing -----

  function DigitValue(c: char): Option<nat> {
    if '0' <= c <= '9' then Some((c - '0') as nat)
    else if 'a' <= c <= 'f' then Some((c - 'a') as nat + 10)
    else None
  }

  /** The number that hexadecimal text stands for. */
  function ParseHex(s: string): Option<nat> {
    if s == "" then Some(0)
    else
      var before, digit := ParseHex(s[..|s| - 1]), DigitValue(s[|s| - 1]);
      if before.None? || digit.None? then None else Some(16 * before.value + digit.value)
  }

  function BarIndex(s: string): (i: nat)
    ensures i <= |s| && (i < |s| ==> s[i] == '|') && forall k :: 0 <= k < i ==> s[k] != '|'
  {
    if s == "" || s[0] == '|' then 0 else 1 + BarIndex(s[1..])
  }

  function TokenOf(s: string): Option<string> {
    var i := BarIndex(s);
    if i < |s| && i + 1 < |s| then Some(s[i + 1..]) else None
  }

  function ParseMongo(s: string): Option<(Timestamp, Option<string>)> {
    var text := s[..BarIndex(s)];
    if |text| < 16 then None
    else
      var high, low := ParseHex(text[..8]), ParseHex(text[8..16]);
      if high.None? || low.None? then None else Some((Timestamp(high.value, low.value), TokenOf(s)))
  }

  function ParseSentinel(s: string): Option<(nat, Option<string>)> {
    var count := ParseHex(s[..BarIndex(s)]);
    if count.None? then None else Some((count.value, TokenOf(s)))
  }

  lemma {:induction false} ParseFixed(n: nat, width: nat)
    requires n < Power16(width)
    ensures ParseHex(Fixed(n, width)) == Some(n)
  {
    if width > 0 {
      ParseFixed(n / 16, width - 1);
      assert Fixed(n, width)[..width - 1] == Fixed(n / 16, width - 1);
    }
  }

  lemma {:induction false} FixedHasNoBar(n: nat, width: nat)
    ensures forall i :: 0 <= i < width ==> Fixed(n, width)[i] != '|'
  {
    if width > 0 { FixedHasNoBar(n / 16, width - 1); }
  }

  /** A token as it is written: not empty, and with no bar in it. */
  predicate IsToken(token: Option<string>) {
    token.Some? ==> token.value != "" && '|' !in token.value
  }

  lemma {:induction false} BarAfter(digits: string, rest: string)
    requires forall i :: 0 <= i < |digits| ==> digits[i] != '|'
    requires rest == "" || rest[0] == '|'
    ensures BarIndex(digits + rest) == |digits|
  {
    if digits == "" {
      assert digits + rest == rest;
    } else {
      BarAfter(digits[1..], rest);
      assert (digits + rest)[1..] == digits[1..] + rest;
    }
  }

  lemma SplitsAtBar(digits: string, token: Option<string>)
    requires IsToken(token) && forall i :: 0 <= i < |digits| ==> digits[i] != '|'
    ensures BarIndex(digits + Suffix(token)) == |digits| && TokenOf(digits + Suffix(token)) == token
  {
    BarAfter(digits, Suffix(token));
    assert token.Some? ==> (digits + Suffix(token))[|digits| + 1..] == token.value;
  }

  /** Parsing undoes printing, for both forms. */
  lemma ParseUndoesPrint(t: Timestamp, n: nat, token: Option<string>)
    requires InRange(t) && n < Word * Word && IsToken(token)
    ensures ParseMongo(MongoComparable(t, token)) == Some((t, token))
    ensures ParseSentinel(SentinelComparable(n, token)) == Some((n, token))
  {
    Powers();
    PadIsFixed(t.high, 8);
    PadIsFixed(t.low, 8);
    FixedHasNoBar(t.high, 8);
    FixedHasNoBar(t.low, 8);
    var digits := Fixed(t.high, 8) + Fixed(t.low, 8);
    SplitsAtBar(digits, token);
    assert (digits + Suffix(token))[..16] == digits && digits[..8] == Fixed(t.high, 8) && digits[8..16] == Fixed(t.low, 8);
    ParseFixed(t.high, 8);
    ParseFixed(t.low, 8);
    SentinelIsFixed(n, token);
    FixedHasNoBar(n, 16);
    SplitsAtBar(Fixed(n, 16), token);
    assert (Fixed(n, 16) + Suffix(token))[..16] == Fixed(n, 16);
    ParseFixed(n, 16);
  }
}
