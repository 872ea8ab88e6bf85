/**
 * Strict UTF-8 decoding, as Python's `bytes.decode("utf-8")` performs it: a
 * byte string that is not well-formed UTF-8 (a stray continuation byte, a
 * truncated sequence, an overlong form, an encoded surrogate or a code point
 * above U+10FFFF) makes the decoder fail.
 */
module Utf8 {
  import opened Wrappers

  newtype byte = x: int | 0 <= x < 256

  predicate InRange(b: byte, lo: int, hi: int) {
    lo <= b as int <= hi
  }

  predicate IsContinuation(b: byte) {
    InRange(b, 0x80, 0xBF)
  }

  /** One decoded character and the number of bytes it took. */
  datatype Decoded = Decoded(c: char, size: nat)

  /** Decodes the character at the head of `s`, if the head is well formed. */
  function DecodeFirst(s: seq<byte>): (r: Option<Decoded>)
    requires |s| > 0
    ensures r.Some? ==> 1 <= r.value.size <= 4 && r.value.size <= |s|
  {
    var b0 := s[0] as int;
    if b0 < 0x80 then
      Some(Decoded(b0 as char, 1))
    else if 0xC2 <= b0 <= 0xDF then
      if |s| >= 2 && IsContinuation(s[1]) then
        Some(Decoded(((b0 - 0xC0) * 64 + (s[1] as int - 0x80)) as char, 2))
      else None
    else if 0xE0 <= b0 <= 0xEF then
      var lo := if b0 == 0xE0 then 0xA0 else 0x80;
      var hi := if b0 == 0xED then 0x9F else 0xBF;
      if |s| >= 3 && InRange(s[1], lo, hi) && IsContinuation(s[2]) then
        var cp := (b0 - 0xE0) * 4096 + (s[1] as int - 0x80) * 64 + (s[2] as int - 0x80);
        Some(Decoded(cp as char, 3))
      else None
    else if 0xF0 <= b0 <= 0xF4 then
      var lo := if b0 == 0xF0 then 0x90 else 0x80;
      var hi := if b0 == 0xF4 then 0x8F else 0xBF;
      if |s| >= 4 && InRange(s[1], lo, hi) && IsContinuation(s[2]) && IsContinuation(s[3]) then
        var cp := (b0 - 0xF0) * 262144 + (s[1] as int - 0x80) * 4096
          + (s[2] as int - 0x80) * 64 + (s[3] as int - 0x80);
        Some(Decoded(cp as char, 4))
      else None
    else None
  }

  /** `bytes.decode("utf-8")`: `None` where Python raises `UnicodeDecodeError`. */
  function Decode(s: seq<byte>): Option<string>
    decreases |s|
  {
    if s == [] then Some([])
    else
      match DecodeFirst(s)
      case None => None
      case Some(d) =>
        match Decode(s[d.size..])
        case None => None
        case Some(rest) => Some([d.c] + rest)
  }

  /** The UTF-8 encoding of one character (the shortest form). */
  function EncodeChar(c: char): (r: seq<byte>)
    ensures 1 <= |r| <= 4
  {
    var cp := c as int;
    if cp < 0x80 then [cp as byte]
    else if cp < 0x800 then [(0xC0 + cp / 64) as byte, (0x80 + cp % 64) as byte]
    else if cp < 0x10000 then
      var low := cp % 4096;
      [(0xE0 + cp / 4096) as byte, (0x80 + low / 64) as byte, (0x80 + low % 64) as byte]
    else
      var mid := cp % 262144;
      var low := mid % 4096;
      [(0xF0 + cp / 262144) as byte, (0x80 + mid / 4096) as byte,
       (0x80 + low / 64) as byte, (0x80 + low % 64) as byte]
  }

  function Encode(s: string): seq<byte> {
    if s == [] then [] else EncodeChar(s[0]) + Encode(s[1..])
  }

  lemma {:induction false} DecodeFirstOneByte(c: char, rest: seq<byte>)
    requires c as int < 0x80
    ensures DecodeFirst(EncodeChar(c) + rest) == Some(Decoded(c, 1))
  {
    assert (EncodeChar(c) + rest)[0] == c as int as byte;
  }

  lemma {:induction false} DecodeFirstTwoBytes(c: char, rest: seq<byte>)
    requires 0x80 <= c as int < 0x800
    ensures DecodeFirst(EncodeChar(c) + rest) == Some(Decoded(c, 2))
  {
    var cp := c as int;
    var s := EncodeChar(c) + rest;
    assert s[0] as int == 0xC0 + cp / 64 && s[1] as int == 0x80 + cp % 64;
    assert (cp / 64) * 64 + cp % 64 == cp;
  }

  lemma {:induction false} DecodeFirstThreeBytes(c: char, rest: seq<byte>)
    requires 0x800 <= c as int < 0x10000
    ensures DecodeFirst(EncodeChar(c) + rest) == Some(Decoded(c, 3))
  {
    var cp := c as int;
    var low := cp % 4096;
    var s := EncodeChar(c) + rest;
    assert s[0] as int == 0xE0 + cp / 4096 && s[1] as int == 0x80 + low / 64 && s[2] as int == 0x80 + low % 64;
    assert cp == (cp / 4096) * 4096 + low && low == (low / 64) * 64 + low % 64;
  }

  lemma {:induction false} DecodeFirstFourBytes(c: char, rest: seq<byte>)
    requires 0x10000 <= c as int
    ensures DecodeFirst(EncodeChar(c) + rest) == Some(Decoded(c, 4))
  {
    var cp := c as int;
    var mid := cp % 262144;
    var low := mid % 4096;
    var s := EncodeChar(c) + rest;
    assert s[0] as int == 0xF0 + cp / 262144 && s[1] as int == 0x80 + mid / 4096;
    assert s[2] as int == 0x80 + low / 64 && s[3] as int == 0x80 + low % 64;
    assert cp == (cp / 262144) * 262144 + mid && mid == (mid / 4096) * 4096 + low;
    assert low == (low / 64) * 64 + low % 64;
  }

  /** The decoder reads back exactly the character the encoder wrote. */
  lemma {:induction false} DecodeFirstEncodeChar(c: char, rest: seq<byte>)
    ensures DecodeFirst(EncodeChar(c) + rest) == Some(Decoded(c, |EncodeChar(c)|))
  {
    var cp := c as int;
    if cp < 0x80 {
      DecodeFirstOneByte(c, rest);
    } else if cp < 0x800 {
      DecodeFirstTwoBytes(c, rest);
    } else if cp < 0x10000 {
      DecodeFirstThreeBytes(c, rest);
    } else {
      DecodeFirstFourBytes(c, rest);
    }
  }

  /** Decoding an encoded string gives the string back, so every text value survives. */
  lemma {:induction false} DecodeEncode(s: string)
    ensures Decode(Encode(s)) == Some(s)
  {
    if s != [] {
      var e := EncodeChar(s[0]);
      DecodeFirstEncodeChar(s[0], Encode(s[1..]));
      assert (e + Encode(s[1..]))[|e|..] == Encode(s[1..]);
      DecodeEncode(s[1..]);
      assert [s[0]] + s[1..] == s;
    }
  }
}
