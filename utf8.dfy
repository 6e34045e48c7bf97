/** UTF-8 as Python's `str.encode()` and strict `bytes.decode()` apply it:
    shortest form only, no surrogates, nothing above U+10FFFF. */
module Utf8 {
  import opened Wrappers
  import opened Bytes

  /** The bytes of one character, in the shortest form. */
  function EncodeChar(c: char): (r: seq<Byte>)
    ensures 1 <= |r| <= 4
    ensures (c as int < 0x80) <==> |r| == 1
    ensures |r| == 1 ==> r[0] == c as int
  {
    var n := c as int;
    if n < 0x80 then [n]
    else if n < 0x800 then [0xC0 + n / 64, 0x80 + n % 64]
    else if n < 0x10000 then [0xE0 + n / 4096, 0x80 + n / 64 % 64, 0x80 + n % 64]
    else [0xF0 + n / 262144, 0x80 + n / 4096 % 64, 0x80 + n / 64 % 64, 0x80 + n % 64]
  }

  function Encode(s: string): seq<Byte> {
    if s == [] then [] else EncodeChar(s[0]) + Encode(s[1..])
  }

  predicate IsContinuation(b: Byte) {
    0x80 <= b < 0xC0
  }

  /** Code point of a two-, three- or four-byte sequence. */
  function Point2(b0: int, b1: int): int { (b0 - 0xC0) * 64 + (b1 - 0x80) }
  function Point3(b0: int, b1: int, b2: int): int { (b0 - 0xE0) * 4096 + (b1 - 0x80) * 64 + (b2 - 0x80) }
  function Point4(b0: int, b1: int, b2: int, b3: int): int {
    (b0 - 0xF0) * 262144 + (b1 - 0x80) * 4096 + (b2 - 0x80) * 64 + (b3 - 0x80)
  }

  /** The character at the head of `b` and the number of bytes it takes, or
      None when `b` does not start with a well-formed sequence. */
  function DecodeChar(b: seq<Byte>): (r: Option<(char, nat)>)
    requires |b| > 0
    ensures r.Some? ==> 1 <= r.value.1 <= |b|
  {
    var b0: int := b[0];
    if b0 < 0x80 then Some((b0 as char, 1))
    else if 0xC2 <= b0 < 0xE0 then
      if |b| >= 2 && IsContinuation(b[1]) then Some((Point2(b0, b[1]) as char, 2))
      else None
    else if 0xE0 <= b0 < 0xF0 then
      var lo := if b0 == 0xE0 then 0xA0 else 0x80;
      var hi := if b0 == 0xED then 0xA0 else 0xC0;
      if |b| >= 3 && lo <= b[1] < hi && IsContinuation(b[2]) then Some((Point3(b0, b[1], b[2]) as char, 3))
      else None
    else if 0xF0 <= b0 < 0xF5 then
      var lo := if b0 == 0xF0 then 0x90 else 0x80;
      var hi := if b0 == 0xF4 then 0x90 else 0xC0;
      if |b| >= 4 && lo <= b[1] < hi && IsContinuation(b[2]) && IsContinuation(b[3]) then
        Some((Point4(b0, b[1], b[2], b[3]) as char, 4))
      else None
    else None
  }

  /** Strict decoding: None is the UnicodeDecodeError. */
  function Decode(b: seq<Byte>): Option<string>
    decreases |b|
  {
    if b == [] then Some([])
    else match DecodeChar(b)
      case None => None
      case Some((c, n)) =>
        match Decode(b[n..])
        case None => None
        case Some(rest) => Some([c] + rest)
  }

  lemma DivMod64(p: int, q: int, r: int)
    requires 0 <= r < 64 && p == q * 64 + r
    ensures p / 64 == q && p % 64 == r
  {
  }

  lemma TwoBytes(n: int)
    requires 0x80 <= n < 0x800
    ensures 0xC2 <= 0xC0 + n / 64 < 0xE0
    ensures Point2(0xC0 + n / 64, 0x80 + n % 64) == n
  {
  }

  lemma ThreeBytes(n: int)
    requires 0x800 <= n < 0x10000 && !(0xD800 <= n < 0xE000)
    ensures 0xE0 <= 0xE0 + n / 4096 < 0xF0
    ensures n / 4096 == 0 ==> 0xA0 <= 0x80 + n / 64 % 64
    ensures n / 4096 == 0xD ==> 0x80 + n / 64 % 64 < 0xA0
    ensures Point3(0xE0 + n / 4096, 0x80 + n / 64 % 64, 0x80 + n % 64) == n
  {
    assert n % 4096 == (n / 64 % 64) * 64 + n % 64;
    assert n == (n / 4096) * 4096 + n % 4096;
  }

  lemma FourBytes(n: int)
    requires 0x10000 <= n < 0x110000
    ensures 0xF0 <= 0xF0 + n / 262144 < 0xF5
    ensures n / 262144 == 0 ==> 0x90 <= 0x80 + n / 4096 % 64
    ensures n / 262144 == 4 ==> 0x80 + n / 4096 % 64 < 0x90
    ensures Point4(0xF0 + n / 262144, 0x80 + n / 4096 % 64, 0x80 + n / 64 % 64, 0x80 + n % 64) == n
  {
    assert n % 4096 == (n / 64 % 64) * 64 + n % 64;
    assert n % 262144 == (n / 4096 % 64) * 4096 + n % 4096;
    assert n == (n / 262144) * 262144 + n % 262144;
  }

  lemma DecodeEncodedChar(c: char, rest: seq<Byte>)
    ensures DecodeChar(EncodeChar(c) + rest) == Some((c, |EncodeChar(c)|))
  {
    var n := c as int;
    if n < 0x80 {
    } else if n < 0x800 {
      TwoBytes(n);
    } else if n < 0x10000 {
      ThreeBytes(n);
    } else {
      FourBytes(n);
    }
  }

  /** Decoding undoes encoding, for every string. */
  lemma {:induction false} DecodeEncode(s: string)
    ensures Decode(Encode(s)) == Some(s)
  {
    if s != [] {
      var head := EncodeChar(s[0]);
      var tail := Encode(s[1..]);
      DecodeEncodedChar(s[0], tail);
      assert (head + tail)[|head|..] == tail;
      DecodeEncode(s[1..]);
      assert [s[0]] + s[1..] == s;
    }
  }

  lemma DivMod4096(p: int, q: int, r: int)
    requires 0 <= r < 4096 && p == q * 4096 + r
    ensures p / 4096 == q && p % 4096 == r
  {
  }

  lemma DivMod262144(p: int, q: int, r: int)
    requires 0 <= r < 262144 && p == q * 262144 + r
    ensures p / 262144 == q
  {
  }

  lemma ShortestTwo(b0: int, b1: int)
    requires 0xC2 <= b0 < 0xE0 && 0x80 <= b1 < 0xC0
    ensures 0x80 <= Point2(b0, b1) < 0x800
    ensures 0xC0 + Point2(b0, b1) / 64 == b0 && 0x80 + Point2(b0, b1) % 64 == b1
  {
    DivMod64(Point2(b0, b1), b0 - 0xC0, b1 - 0x80);
  }

  lemma ShortestThree(b0: int, b1: int, b2: int)
    requires 0xE0 <= b0 < 0xF0 && 0x80 <= b1 < 0xC0 && 0x80 <= b2 < 0xC0
    requires b0 == 0xE0 ==> 0xA0 <= b1
    requires b0 == 0xED ==> b1 < 0xA0
    ensures var p := Point3(b0, b1, b2);
      && 0x800 <= p < 0x10000 && !(0xD800 <= p < 0xE000)
      && 0xE0 + p / 4096 == b0 && 0x80 + p / 64 % 64 == b1 && 0x80 + p % 64 == b2
  {
    var p := Point3(b0, b1, b2);
    DivMod64(p, (b0 - 0xE0) * 64 + (b1 - 0x80), b2 - 0x80);
    DivMod64(p / 64, b0 - 0xE0, b1 - 0x80);
    DivMod4096(p, b0 - 0xE0, (b1 - 0x80) * 64 + (b2 - 0x80));
  }

  lemma ShortestFour(b0: int, b1: int, b2: int, b3: int)
    requires 0xF0 <= b0 < 0xF5 && 0x80 <= b1 < 0xC0 && 0x80 <= b2 < 0xC0 && 0x80 <= b3 < 0xC0
    requires b0 == 0xF0 ==> 0x90 <= b1
    requires b0 == 0xF4 ==> b1 < 0x90
    ensures var p := Point4(b0, b1, b2, b3);
      && 0x10000 <= p < 0x110000
      && 0xF0 + p / 262144 == b0 && 0x80 + p / 4096 % 64 == b1
      && 0x80 + p / 64 % 64 == b2 && 0x80 + p % 64 == b3
  {
    var p := Point4(b0, b1, b2, b3);
    DivMod64(p, (b0 - 0xF0) * 4096 + (b1 - 0x80) * 64 + (b2 - 0x80), b3 - 0x80);
    DivMod64(p / 64, (b0 - 0xF0) * 64 + (b1 - 0x80), b2 - 0x80);
    DivMod4096(p, (b0 - 0xF0) * 64 + (b1 - 0x80), (b2 - 0x80) * 64 + (b3 - 0x80));
    DivMod64(p / 4096, b0 - 0xF0, b1 - 0x80);
    DivMod262144(p, b0 - 0xF0, (b1 - 0x80) * 4096 + (b2 - 0x80) * 64 + (b3 - 0x80));
  }

  /** Strictness: a decoded character came from its shortest encoding, so
      every byte string is the encoding of at most one text. */
  lemma DecodedCharIsShortest(b: seq<Byte>)
    requires |b| > 0 && DecodeChar(b).Some?
    ensures EncodeChar(DecodeChar(b).value.0) == b[..DecodeChar(b).value.1]
  {
    var b0: int := b[0];
    if b0 < 0x80 {
    } else if b0 < 0xE0 {
      ShortestTwo(b0, b[1]);
    } else if b0 < 0xF0 {
      ShortestThree(b0, b[1], b[2]);
    } else {
      ShortestFour(b0, b[1], b[2], b[3]);
    }
  }

  lemma {:induction false} EncodeDecode(b: seq<Byte>)
    requires Decode(b).Some?
    ensures Encode(Decode(b).value) == b
    decreases |b|
  {
    if b != [] {
      var (c, n) := DecodeChar(b).value;
      DecodedCharIsShortest(b);
      EncodeDecode(b[n..]);
      assert Decode(b).value == [c] + Decode(b[n..]).value;
      assert ([c] + Decode(b[n..]).value)[1..] == Decode(b[n..]).value;
      assert b == b[..n] + b[n..];
    }
  }
}
