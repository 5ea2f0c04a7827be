/**
 * The two standard-library text conversions the viewer depends on: the
 * decimal `to_string` of integers (row counts, type lengths, statistics) and
 * `std::str::from_utf8` on the raw bytes of byte-array statistics.  A Rust
 * `String` is UTF-8; here a string is a sequence of Unicode scalar values and
 * `Utf8Encode` gives its bytes, so `s.len()` in the source is
 * `|Utf8Encode(s)|` and `s.chars().count()` is `|s|`.
 */
module Text {
  import opened Wrappers

  newtype byte = b: int | 0 <= b < 256

  // ---------------------------------------------------------------- decimal

  predicate IsDigit(c: char) { '0' <= c <= '9' }

  predicate AllDigits(s: string) { forall i :: 0 <= i < |s| ==> IsDigit(s[i]) }

  function DigitChar(d: nat): (c: char)
    requires d < 10
    ensures IsDigit(c) && c as int - '0' as int == d
  {
    ('0' as int + d) as char
  }

  /** `n.to_string()` for an unsigned integer: decimal digits, most significant first, no leading zero. */
  function NatToString(n: nat): (s: string)
    ensures |s| >= 1 && AllDigits(s)
    ensures s[0] == '0' <==> n == 0
    ensures n == 0 ==> s == "0"
    decreases n
  {
    if n < 10 then [DigitChar(n)] else NatToString(n / 10) + [DigitChar(n % 10)]
  }

  /** `i.to_string()` for a signed integer: a minus sign before the magnitude when negative. */
  function IntToString(i: int): (s: string)
    ensures |s| >= 1
    ensures (s[0] == '-') <==> i < 0
  {
    if i < 0 then "-" + NatToString(-i) else NatToString(i)
  }

  /** `b.to_string()` for a boolean: "true" or "false", never the empty text of an absent value. */
  function BoolToString(b: bool): (s: string)
    ensures s != ""
    ensures s == "true" <==> b
    ensures s == "false" <==> !b
  {
    if b then "true" else "false"
  }

  /** The number a string of decimal digits denotes, read independently of how `NatToString` builds it. */
  function DigitsValue(s: string): nat
    requires AllDigits(s)
  {
    if s == [] then 0 else DigitsValue(s[..|s| - 1]) * 10 + (s[|s| - 1] as int - '0' as int)
  }

  /** Reads a decimal integer with an optional leading minus sign; `None` for any other text. */
  function ParseInt(s: string): Option<int>
  {
    if |s| >= 2 && s[0] == '-' && AllDigits(s[1..]) then Some(-(DigitsValue(s[1..]) as int))
    else if |s| >= 1 && AllDigits(s) then Some(DigitsValue(s))
    else None
  }

  lemma {:induction false} NatToStringRoundTrip(n: nat)
    ensures DigitsValue(NatToString(n)) == n
    decreases n
  {
    if n >= 10 {
      NatToStringRoundTrip(n / 10);
      var s := NatToString(n);
      assert s[..|s| - 1] == NatToString(n / 10);
    }
  }

  /** A count's decimal digits parse back as that count. */
  lemma NatToStringParses(n: nat)
    ensures ParseInt(NatToString(n)) == Some(n)
  {
    NatToStringRoundTrip(n);
  }

  /** The decimal rendering of every integer reads back as that integer, so distinct integers render differently. */
  lemma IntToStringRoundTrip(i: int)
    ensures ParseInt(IntToString(i)) == Some(i)
  {
    var s := IntToString(i);
    if i < 0 {
      var digits := NatToString(-i);
      NatToStringRoundTrip(-i);
      assert s == "-" + digits;
      assert s[1..] == digits;
      assert |s| >= 2 && s[0] == '-' && AllDigits(s[1..]);
    } else {
      NatToStringRoundTrip(i);
      assert s == NatToString(i);
    }
  }

  // ------------------------------------------------------------------ UTF-8

  predicate IsContinuation(b: byte) { 0x80 <= b <= 0xBF }

  /** The UTF-8 encoding of one scalar value (RFC 3629, section 3). */
  function EncodeChar(c: char): (bs: seq<byte>)
    ensures 1 <= |bs| <= 4
  {
    var v := c as int;
    if v < 0x80 then [v as byte]
    else if v < 0x800 then [(0xC0 + v / 0x40) as byte, (0x80 + v % 0x40) as byte]
    else if v < 0x1_0000 then
      [(0xE0 + v / 0x1000) as byte, (0x80 + v / 0x40 % 0x40) as byte, (0x80 + v % 0x40) as byte]
    else
      [(0xF0 + v / 0x4_0000) as byte, (0x80 + v / 0x1000 % 0x40) as byte,
       (0x80 + v / 0x40 % 0x40) as byte, (0x80 + v % 0x40) as byte]
  }

  /** The bytes of a Rust `String` holding `s`. */
  function Utf8Encode(s: string): (bs: seq<byte>)
    ensures |s| <= |bs| <= 4 * |s|
  {
    if s == [] then [] else EncodeChar(s[0]) + Utf8Encode(s[1..])
  }

  /** The number of bytes UTF-8 spends on `c`. */
  function CharWidth(c: char): (n: nat)
    ensures 1 <= n <= 4
  {
    if c as int < 0x80 then 1 else if c as int < 0x800 then 2 else if c as int < 0x1_0000 then 3 else 4
  }

  /** `str::len`: the length of `s` in bytes, not in characters. */
  function Utf8Length(s: string): (n: nat)
    ensures |s| <= n <= 4 * |s|
  {
    if s == [] then 0 else CharWidth(s[0]) + Utf8Length(s[1..])
  }

  /** The byte length of a string is the length of its UTF-8 encoding. */
  lemma {:induction false} Utf8LengthIsEncodedLength(s: string)
    ensures Utf8Length(s) == |Utf8Encode(s)|
  {
    if s != [] {
      Utf8LengthIsEncodedLength(s[1..]);
    }
  }

  /**
   * Decodes the scalar value at the start of `bs` as `std::str::from_utf8`
   * accepts it: shortest form only, no surrogate halves, nothing above
   * U+10FFFF.  Gives the value and the number of bytes it occupies.
   */
  function DecodeFirst(bs: seq<byte>): (r: Option<(char, nat)>)
    requires |bs| > 0
    ensures r.Some? ==> 1 <= r.value.1 <= |bs| && r.value.1 <= 4
  {
    var b0 := bs[0] as int;
    if b0 < 0x80 then Some((b0 as char, 1))
    else if 0xC2 <= b0 <= 0xDF then
      if |bs| >= 2 && IsContinuation(bs[1]) then
        Some((((b0 - 0xC0) * 0x40 + (bs[1] as int - 0x80)) as char, 2))
      else None
    else if 0xE0 <= b0 <= 0xEF then
      var lo := if b0 == 0xE0 then 0xA0 else 0x80;
      var hi := if b0 == 0xED then 0x9F else 0xBF;
      if |bs| >= 3 && lo <= bs[1] as int <= hi && IsContinuation(bs[2]) then
        Some((((b0 - 0xE0) * 0x1000 + (bs[1] as int - 0x80) * 0x40 + (bs[2] as int - 0x80)) as char, 3))
      else None
    else if 0xF0 <= b0 <= 0xF4 then
      var lo := if b0 == 0xF0 then 0x90 else 0x80;
      var hi := if b0 == 0xF4 then 0x8F else 0xBF;
      if |bs| >= 4 && lo <= bs[1] as int <= hi && IsContinuation(bs[2]) && IsContinuation(bs[3]) then
        Some((((b0 - 0xF0) * 0x4_0000 + (bs[1] as int - 0x80) * 0x1000
               + (bs[2] as int - 0x80) * 0x40 + (bs[3] as int - 0x80)) as char, 4))
      else None
    else None
  }

  /** `std::str::from_utf8(bs)`: `None` stands for its `Utf8Error`. */
  function Utf8Decode(bs: seq<byte>): (r: Option<string>)
    ensures bs == [] ==> r == Some("")
    ensures r.Some? ==> |r.value| <= |bs| <= 4 * |r.value|
    decreases |bs|
  {
    if bs == [] then Some("")
    else
      match DecodeFirst(bs)
      case None => None
      case Some((c, w)) =>
        match Utf8Decode(bs[w..])
        case None => None
        case Some(rest) => Some([c] + rest)
  }

  // Euclidean division by the three radices UTF-8 uses.
  lemma Split64(q: int, r: int)
    requires 0 <= r < 0x40
    ensures (q * 0x40 + r) / 0x40 == q && (q * 0x40 + r) % 0x40 == r
  {
  }

  lemma Split4096(q: int, r: int)
    requires 0 <= r < 0x1000
    ensures (q * 0x1000 + r) / 0x1000 == q && (q * 0x1000 + r) % 0x1000 == r
  {
  }

  lemma Split262144(q: int, r: int)
    requires 0 <= r < 0x4_0000
    ensures (q * 0x4_0000 + r) / 0x4_0000 == q
  {
  }

  /** The digits of `v` in radix 64, as the encoder takes them apart. */
  lemma Radix64(v: nat)
    ensures v == v / 0x40 * 0x40 + v % 0x40
    ensures v / 0x1000 == v / 0x40 / 0x40 && v / 0x40 == v / 0x1000 * 0x40 + v / 0x40 % 0x40
    ensures v / 0x4_0000 == v / 0x1000 / 0x40 && v / 0x1000 == v / 0x4_0000 * 0x40 + v / 0x1000 % 0x40
  {
    var q1, r0 := v / 0x40, v % 0x40;
    var q2, r1 := q1 / 0x40, q1 % 0x40;
    var q3, r2 := q2 / 0x40, q2 % 0x40;
    assert v == q2 * 0x1000 + (r1 * 0x40 + r0);
    Split4096(q2, r1 * 0x40 + r0);
    assert v == q3 * 0x4_0000 + (r2 * 0x1000 + r1 * 0x40 + r0);
    Split262144(q3, r2 * 0x1000 + r1 * 0x40 + r0);
    assert q2 == q3 * 0x40 + r2;
  }

  lemma DecodesOneByte(c: char, rest: seq<byte>)
    requires c as int < 0x80
    ensures DecodeFirst(EncodeChar(c) + rest) == Some((c, 1))
  {
  }

  lemma DecodesTwoBytes(c: char, rest: seq<byte>)
    requires 0x80 <= c as int < 0x800
    ensures DecodeFirst(EncodeChar(c) + rest) == Some((c, 2))
  {
    var v := c as int;
    var bs := EncodeChar(c) + rest;
    Radix64(v);
    assert bs[0] as int - 0xC0 == v / 0x40 && bs[1] as int - 0x80 == v % 0x40;
    assert ((bs[0] as int - 0xC0) * 0x40 + (bs[1] as int - 0x80)) == v;
  }

  lemma DecodesThreeBytes(c: char, rest: seq<byte>)
    requires 0x800 <= c as int < 0x1_0000
    ensures DecodeFirst(EncodeChar(c) + rest) == Some((c, 3))
  {
    var v := c as int;
    var bs := EncodeChar(c) + rest;
    Radix64(v);
    assert bs[0] as int - 0xE0 == v / 0x1000;
    assert bs[1] as int - 0x80 == v / 0x40 % 0x40 && bs[2] as int - 0x80 == v % 0x40;
    assert (bs[0] as int - 0xE0) * 0x1000 + (bs[1] as int - 0x80) * 0x40 + (bs[2] as int - 0x80) == v;
  }

  lemma DecodesFourBytes(c: char, rest: seq<byte>)
    requires 0x1_0000 <= c as int
    ensures DecodeFirst(EncodeChar(c) + rest) == Some((c, 4))
  {
    var v := c as int;
    var bs := EncodeChar(c) + rest;
    Radix64(v);
    assert bs[0] as int - 0xF0 == v / 0x4_0000;
    assert bs[1] as int - 0x80 == v / 0x1000 % 0x40;
    assert bs[2] as int - 0x80 == v / 0x40 % 0x40 && bs[3] as int - 0x80 == v % 0x40;
    assert (bs[0] as int - 0xF0) * 0x4_0000 + (bs[1] as int - 0x80) * 0x1000
           + (bs[2] as int - 0x80) * 0x40 + (bs[3] as int - 0x80) == v;
  }

  /** The decoder reads back the character the encoder wrote, whatever follows it. */
  lemma EncodeCharDecodes(c: char, rest: seq<byte>)
    ensures DecodeFirst(EncodeChar(c) + rest) == Some((c, |EncodeChar(c)|))
  {
    var v := c as int;
    if v < 0x80 {
      DecodesOneByte(c, rest);
    } else if v < 0x800 {
      DecodesTwoBytes(c, rest);
    } else if v < 0x1_0000 {
      DecodesThreeBytes(c, rest);
    } else {
      DecodesFourBytes(c, rest);
    }
  }

  lemma EncodeTwo(x: int, y: int)
    requires 2 <= x < 0x20 && 0 <= y < 0x40
    ensures EncodeChar((x * 0x40 + y) as char) == [(0xC0 + x) as byte, (0x80 + y) as byte]
  {
    Split64(x, y);
  }

  lemma EncodeThree(x: int, y: int, z: int)
    requires 0 <= x < 0x10 && 0 <= y < 0x40 && 0 <= z < 0x40
    requires 0x800 <= x * 0x1000 + y * 0x40 + z && !(0xD800 <= x * 0x1000 + y * 0x40 + z < 0xE000)
    ensures EncodeChar((x * 0x1000 + y * 0x40 + z) as char)
         == [(0xE0 + x) as byte, (0x80 + y) as byte, (0x80 + z) as byte]
  {
    Split4096(x, y * 0x40 + z);
    Split64(x * 0x40 + y, z);
    Split64(x, y);
  }

  lemma EncodeFour(x: int, y: int, z: int, t: int)
    requires 0 <= x < 5 && 0 <= y < 0x40 && 0 <= z < 0x40 && 0 <= t < 0x40
    requires 0x1_0000 <= x * 0x4_0000 + y * 0x1000 + z * 0x40 + t < 0x11_0000
    ensures EncodeChar((x * 0x4_0000 + y * 0x1000 + z * 0x40 + t) as char)
         == [(0xF0 + x) as byte, (0x80 + y) as byte, (0x80 + z) as byte, (0x80 + t) as byte]
  {
    Split262144(x, y * 0x1000 + z * 0x40 + t);
    Split4096(x * 0x40 + y, z * 0x40 + t);
    Split64(x * 0x1000 + y * 0x40 + z, t);
    Split64(x * 0x40 + y, z);
  }

  lemma DecodeFirstEncodes(bs: seq<byte>)
    requires |bs| > 0 && DecodeFirst(bs).Some?
    ensures EncodeChar(DecodeFirst(bs).value.0) == bs[..DecodeFirst(bs).value.1]
  {
    var b0 := bs[0] as int;
    if b0 < 0x80 {
    } else if b0 <= 0xDF {
      EncodeTwo(b0 - 0xC0, bs[1] as int - 0x80);
      assert bs[..2] == [bs[0], bs[1]];
    } else if b0 <= 0xEF {
      EncodeThree(b0 - 0xE0, bs[1] as int - 0x80, bs[2] as int - 0x80);
      assert bs[..3] == [bs[0], bs[1], bs[2]];
    } else {
      EncodeFour(b0 - 0xF0, bs[1] as int - 0x80, bs[2] as int - 0x80, bs[3] as int - 0x80);
      assert bs[..4] == [bs[0], bs[1], bs[2], bs[3]];
    }
  }

  /** Every string's bytes are valid UTF-8 and decode to exactly that string. */
  lemma {:induction false} EncodeDecodeRoundTrip(s: string)
    ensures Utf8Decode(Utf8Encode(s)) == Some(s)
  {
    if s != [] {
      var bs := Utf8Encode(s);
      EncodeCharDecodes(s[0], Utf8Encode(s[1..]));
      assert bs[|EncodeChar(s[0])|..] == Utf8Encode(s[1..]);
      EncodeDecodeRoundTrip(s[1..]);
      assert [s[0]] + s[1..] == s;
    }
  }

  /** One step of the decoder: the first character's bytes, and the decoding of what follows them. */
  lemma DecodeStep(bs: seq<byte>) returns (c: char, w: nat)
    requires bs != [] && Utf8Decode(bs).Some?
    ensures 1 <= w <= |bs| && EncodeChar(c) == bs[..w]
    ensures Utf8Decode(bs[w..]).Some? && Utf8Decode(bs).value == [c] + Utf8Decode(bs[w..]).value
  {
    c, w := DecodeFirst(bs).value.0, DecodeFirst(bs).value.1;
    DecodeFirstEncodes(bs);
  }

  /** Whatever bytes decode give back exactly those bytes when the text is encoded again. */
  lemma {:induction false} DecodeEncodeRoundTrip(bs: seq<byte>)
    requires Utf8Decode(bs).Some?
    ensures Utf8Encode(Utf8Decode(bs).value) == bs
    decreases |bs|
  {
    if bs != [] {
      var c, w := DecodeStep(bs);
      var rest := Utf8Decode(bs[w..]).value;
      DecodeEncodeRoundTrip(bs[w..]);
      assert ([c] + rest)[1..] == rest;
      assert bs == bs[..w] + bs[w..];
    }
  }
}
