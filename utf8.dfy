/**
 * UTF-8 (RFC 3629), as .NET's `Encoding.UTF8` converts between strings and
 * bytes. A Dafny `char` is a Unicode scalar value, so every string encodes;
 * decoding replaces each maximal ill-formed subpart by U+FFFD, the
 * replacement practice the Unicode Standard recommends and .NET follows.
 */
module Utf8 {
  import opened Common

  const Replacement: char := '\U{FFFD}'

  /** The bytes of one scalar value: one to four bytes by the table of section 3 of RFC 3629. */
  function EncodeScalar(c: char): (r: Bytes)
    ensures 1 <= |r| <= 4
  {
    var v := c as int;
    if v < 0x80 then [v]
    else if v < 0x800 then [0xC0 + v / 64, 0x80 + v % 64]
    else if v < 0x10000 then [0xE0 + v / 4096, 0x80 + (v / 64) % 64, 0x80 + v % 64]
    else [0xF0 + v / 262144, 0x80 + (v / 4096) % 64, 0x80 + (v / 64) % 64, 0x80 + v % 64]
  }

  /** `Encoding.UTF8.GetBytes`: the concatenated encodings of the scalar values. */
  function Encode(s: string): (r: Bytes)
    ensures |s| <= |r| <= 4 * |s|
    ensures |r| == 0 <==> |s| == 0
  {
    if |s| == 0 then [] else EncodeScalar(s[0]) + Encode(s[1..])
  }

  /** The length a lead byte announces: 1 to 4, or 0 for a byte that cannot start a sequence. */
  function SequenceLength(b0: byte): nat {
    if b0 < 0x80 then 1
    else if 0xC2 <= b0 <= 0xDF then 2
    else if 0xE0 <= b0 <= 0xEF then 3
    else if 0xF0 <= b0 <= 0xF4 then 4
    else 0
  }

  predicate IsContinuation(b: byte) {
    0x80 <= b <= 0xBF
  }

  /**
   * The range allowed for the second byte depends on the lead byte, which
   * excludes overlong forms, surrogates and values above U+10FFFF
   * (Table 3-7 of the Unicode Standard).
   */
  predicate SecondByteAllowed(b0: byte, b1: byte) {
    if b0 == 0xE0 then 0xA0 <= b1 <= 0xBF
    else if b0 == 0xED then 0x80 <= b1 <= 0x9F
    else if b0 == 0xF0 then 0x90 <= b1 <= 0xBF
    else if b0 == 0xF4 then 0x80 <= b1 <= 0x8F
    else IsContinuation(b1)
  }

  /**
   * How many bytes at the head of `b` belong to a well-formed prefix of the
   * sequence of length `n` that `b[0]` starts.
   */
  function PrefixLength(b: Bytes, n: nat): (k: nat)
    requires |b| > 0 && 2 <= n <= 4
    ensures 1 <= k <= n && k <= |b|
  {
    if |b| < 2 || !SecondByteAllowed(b[0], b[1]) then 1
    else if n == 2 || |b| < 3 || !IsContinuation(b[2]) then 2
    else if n == 3 || |b| < 4 || !IsContinuation(b[3]) then 3
    else 4
  }

  /** `b` starts with a complete well-formed multi-byte sequence of length `n`. */
  predicate WellFormedHead(b: Bytes, n: nat) {
    |b| > 0 && 2 <= n <= 4 && SequenceLength(b[0]) == n && PrefixLength(b, n) == n
  }

  /** The scalar value a complete well-formed multi-byte sequence stands for. */
  function ScalarOf(b: Bytes, n: nat): (c: char)
    requires WellFormedHead(b, n)
    ensures |EncodeScalar(c)| == n
  {
    var b0, b1 := b[0] as int, b[1] as int;
    if n == 2 then
      ((b0 - 0xC0) * 64 + (b1 - 0x80)) as char
    else if n == 3 then
      var v := (b0 - 0xE0) * 4096 + (b1 - 0x80) * 64 + (b[2] as int - 0x80);
      assert b[0] == 0xED ==> v < 0xD800;
      assert b[0] != 0xED ==> v < 0xD000 || v >= 0xE000;
      v as char
    else
      ((b0 - 0xF0) * 262144 + (b1 - 0x80) * 4096 + (b[2] as int - 0x80) * 64 + (b[3] as int - 0x80)) as char
  }

  /** The first decoded character and the number of bytes it consumes. */
  function DecodeStep(b: Bytes): (r: (char, nat))
    requires |b| > 0
    ensures 1 <= r.1 <= |b|
  {
    var n := SequenceLength(b[0]);
    if n == 0 then (Replacement, 1)
    else if n == 1 then (b[0] as char, 1)
    else
      var k := PrefixLength(b, n);
      if k < n then (Replacement, k) else (ScalarOf(b, n), n)
  }

  /** `Encoding.UTF8.GetString`: never fails, ill-formed input decodes to U+FFFD. */
  function Decode(b: Bytes): (s: string)
    ensures |s| <= |b|
    decreases |b|
  {
    if |b| == 0 then ""
    else
      var (c, n) := DecodeStep(b);
      [c] + Decode(b[n..])
  }

  lemma TwoByteStep(c: char, rest: Bytes)
    requires 0x80 <= c as int < 0x800
    ensures DecodeStep(EncodeScalar(c) + rest) == (c, 2)
  {
    var v := c as int;
    var b := EncodeScalar(c) + rest;
    assert b[0] == 0xC0 + v / 64 && b[1] == 0x80 + v % 64;
    assert WellFormedHead(b, 2);
    assert (b[0] as int - 0xC0) * 64 + (b[1] as int - 0x80) == v;
  }

  lemma ThreeByteStep(c: char, rest: Bytes)
    requires 0x800 <= c as int < 0x10000
    ensures DecodeStep(EncodeScalar(c) + rest) == (c, 3)
  {
    var v := c as int;
    var b := EncodeScalar(c) + rest;
    assert b[0] == 0xE0 + v / 4096 && b[1] == 0x80 + (v / 64) % 64 && b[2] == 0x80 + v % 64;
    assert v == (v / 4096) * 4096 + ((v / 64) % 64) * 64 + v % 64;
    assert WellFormedHead(b, 3);
  }

  /** The four 6-bit (and 3-bit) parts of a supplementary scalar value, and the ranges the lead byte implies. */
  lemma FourByteParts(v: int)
    requires 0x10000 <= v <= 0x10FFFF
    ensures var d0, d1, d2, d3 := v / 262144, (v / 4096) % 64, (v / 64) % 64, v % 64;
            && v == d0 * 262144 + d1 * 4096 + d2 * 64 + d3
            && 0 <= d0 <= 4
            && (d0 == 0 ==> d1 >= 16)
            && (d0 == 4 ==> d1 < 16)
  {
  }

  lemma FourByteStep(c: char, rest: Bytes)
    requires 0x10000 <= c as int
    ensures DecodeStep(EncodeScalar(c) + rest) == (c, 4)
  {
    var v := c as int;
    var b := EncodeScalar(c) + rest;
    FourByteParts(v);
    assert b[0] == 0xF0 + v / 262144 && b[1] == 0x80 + (v / 4096) % 64;
    assert b[2] == 0x80 + (v / 64) % 64 && b[3] == 0x80 + v % 64;
    assert WellFormedHead(b, 4);
  }

  /** Decoding a character's encoding, whatever follows, yields that character and consumes exactly its bytes. */
  lemma DecodeStepEncode(c: char, rest: Bytes)
    ensures DecodeStep(EncodeScalar(c) + rest) == (c, |EncodeScalar(c)|)
  {
    var v := c as int;
    if v < 0x80 {
    } else if v < 0x800 {
      TwoByteStep(c, rest);
    } else if v < 0x10000 {
      ThreeByteStep(c, rest);
    } else {
      FourByteStep(c, rest);
    }
  }

  /** Decoding the UTF-8 encoding of any string gives the string back. */
  lemma {:induction false} RoundTrip(s: string)
    ensures Decode(Encode(s)) == s
    decreases |s|
  {
    if |s| > 0 {
      var head, rest := EncodeScalar(s[0]), Encode(s[1..]);
      DecodeStepEncode(s[0], rest);
      assert (head + rest)[|head|..] == rest;
      RoundTrip(s[1..]);
      assert s == [s[0]] + s[1..];
    }
  }

  /**
   * Bytes none of which can start a sequence (continuation bytes, 0xC0,
   * 0xC1 and 0xF5 to 0xFF) decode to one replacement character each.
   */
  lemma {:induction false} InvalidLeadsAreReplaced(b: Bytes)
    requires forall k :: 0 <= k < |b| ==> SequenceLength(b[k]) == 0
    ensures Decode(b) == seq(|b|, _ => Replacement)
    decreases |b|
  {
    if |b| > 0 {
      assert SequenceLength(b[0]) == 0;
      InvalidLeadsAreReplaced(b[1..]);
      assert seq(|b|, _ => Replacement) == [Replacement] + seq(|b| - 1, _ => Replacement);
    }
  }
}
