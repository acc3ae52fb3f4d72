/**
 * Standard padded base64 (section 4 of RFC 4648), as produced by .NET's
 * `Convert.ToBase64String` and read back by `Convert.FromBase64String`.
 * Bytes map to symbols (the 64 digit values and the pad) and symbols to the
 * characters of the alphabet; each layer is inverted on its own.
 */
module Base64Encoding {
  import opened Common

  /** A 6-bit value: the index of one base64 digit. */
  type Sextet = i: int | 0 <= i < 64

  /** A digit value, or `PadSymbol` for the pad character. */
  type Symbol = i: int | 0 <= i <= 64

  const PadSymbol: Symbol := 64
  const Pad: char := '='

  /** The digit for index `i` in the alphabet of Table 1 of RFC 4648. */
  function CharOf(i: Sextet): (c: char)
    ensures IsDigit(c)
  {
    if i < 26 then ('A' as int + i) as char
    else if i < 52 then ('a' as int + (i - 26)) as char
    else if i < 62 then ('0' as int + (i - 52)) as char
    else if i == 62 then '+'
    else '/'
  }

  predicate IsDigit(c: char) {
    ('A' <= c <= 'Z') || ('a' <= c <= 'z') || ('0' <= c <= '9') || c == '+' || c == '/'
  }

  /** The index of a base64 digit: the inverse of `CharOf`. */
  function IndexOf(c: char): (i: Sextet)
    requires IsDigit(c)
    ensures CharOf(i) == c
  {
    if 'A' <= c <= 'Z' then c as int - 'A' as int
    else if 'a' <= c <= 'z' then c as int - 'a' as int + 26
    else if '0' <= c <= '9' then c as int - '0' as int + 52
    else if c == '+' then 62
    else 63
  }

  /** The character of a symbol. */
  function SymbolChar(x: Symbol): char {
    if x == PadSymbol then Pad else CharOf(x)
  }

  /** The symbol of a character; `None` for a character outside the alphabet and the pad. */
  function CharSymbol(c: char): (r: Option<Symbol>)
    ensures r.None? <==> !IsDigit(c) && c != Pad
  {
    if IsDigit(c) then Some(IndexOf(c)) else if c == Pad then Some(PadSymbol) else None
  }

  /** The characters of a sequence of symbols. */
  function Chars(xs: seq<Symbol>): (s: string)
    ensures |s| == |xs|
  {
    if |xs| == 0 then "" else [SymbolChar(xs[0])] + Chars(xs[1..])
  }

  /** The symbols of a text; `None` when some character is outside the alphabet and the pad. */
  function Symbols(s: string): (r: Option<seq<Symbol>>)
    ensures r.Some? ==> |r.value| == |s|
    ensures r.Some? <==> forall k :: 0 <= k < |s| ==> CharSymbol(s[k]).Some?
  {
    if |s| == 0 then Some([])
    else
      match (CharSymbol(s[0]), Symbols(s[1..]))
      case (Some(x), Some(rest)) => Some([x] + rest)
      case _ => None
  }

  /** The four symbols of a full 3-byte group. */
  function EncodeTriple(b0: byte, b1: byte, b2: byte): seq<Symbol> {
    [b0 / 4, (b0 % 4) * 16 + b1 / 16, (b1 % 16) * 4 + b2 / 64, b2 % 64]
  }

  /** A final group of two bytes: three digits and one pad. */
  function EncodePair(b0: byte, b1: byte): seq<Symbol> {
    [b0 / 4, (b0 % 4) * 16 + b1 / 16, (b1 % 16) * 4, PadSymbol]
  }

  /** A final group of one byte: two digits and two pads. */
  function EncodeSingle(b0: byte): seq<Symbol> {
    [b0 / 4, (b0 % 4) * 16, PadSymbol, PadSymbol]
  }

  /** Every 3 bytes become 4 symbols, the tail is padded. */
  function EncodeSymbols(b: Bytes): (xs: seq<Symbol>)
    ensures |xs| == 4 * ((|b| + 2) / 3)
    decreases |b|
  {
    if |b| == 0 then []
    else if |b| == 1 then EncodeSingle(b[0])
    else if |b| == 2 then EncodePair(b[0], b[1])
    else EncodeTriple(b[0], b[1], b[2]) + EncodeSymbols(b[3..])
  }

  /** `Convert.ToBase64String`: four characters for every started group of three bytes. */
  function Encode(b: Bytes): (s: string)
    ensures |s| == 4 * ((|b| + 2) / 3)
  {
    Chars(EncodeSymbols(b))
  }

  /**
   * The bytes of the last quadruple, which may end in one or two pads;
   * `None` when its shape is not that of a base64 quadruple. The unused low
   * bits of the last digit before the padding are ignored.
   */
  function DecodeLast(x0: Symbol, x1: Symbol, x2: Symbol, x3: Symbol): (r: Option<Bytes>)
    ensures r.Some? ==> 1 <= |r.value| <= 3
    ensures r.Some? && x3 != PadSymbol ==> |r.value| == 3
  {
    if x0 == PadSymbol || x1 == PadSymbol then None
    else
      var b0 := x0 * 4 + x1 / 16;
      if x2 == PadSymbol && x3 == PadSymbol then Some([b0])
      else if x2 != PadSymbol && x3 == PadSymbol then Some([b0, (x1 % 16) * 16 + x2 / 4])
      else if x2 != PadSymbol && x3 != PadSymbol then Some([b0, (x1 % 16) * 16 + x2 / 4, (x2 % 4) * 64 + x3])
      else None
  }

  /** The bytes of a sequence of quadruples of which only the last may be padded. */
  function DecodeQuads(xs: seq<Symbol>): (r: Option<Bytes>)
    requires |xs| % 4 == 0
    ensures r.Some? ==> 4 * |r.value| <= 3 * |xs| <= 4 * |r.value| + 8
    decreases |xs|
  {
    if |xs| == 0 then Some([])
    else if |xs| == 4 then DecodeLast(xs[0], xs[1], xs[2], xs[3])
    else if xs[0] != PadSymbol && xs[1] != PadSymbol && xs[2] != PadSymbol && xs[3] != PadSymbol then
      match DecodeQuads(xs[4..])
      case None => None
      case Some(rest) => Some(DecodeLast(xs[0], xs[1], xs[2], xs[3]).value + rest)
    else None
  }

  /**
   * `Convert.FromBase64String`; `None` stands for the `FormatException`
   * thrown on text that is not base64: text whose length is not a multiple
   * of four, or holding a character outside the alphabet and the pad.
   * Every four characters give three bytes, less one or two for the padding.
   */
  function Decode(s: string): (r: Option<Bytes>)
    ensures |s| % 4 != 0 ==> r.None?
    ensures r.Some? ==> forall k :: 0 <= k < |s| ==> IsDigit(s[k]) || s[k] == Pad
    ensures r.Some? ==> 4 * |r.value| <= 3 * |s| <= 4 * |r.value| + 8
  {
    if |s| % 4 != 0 then None
    else
      match Symbols(s)
      case None => None
      case Some(xs) => DecodeQuads(xs)
  }

  lemma IndexOfCharOf(i: Sextet)
    ensures IndexOf(CharOf(i)) == i
  {
  }

  /** Reading back the character of a symbol gives the symbol. */
  lemma SymbolRoundTrip(x: Symbol)
    ensures CharSymbol(SymbolChar(x)) == Some(x)
  {
    if x != PadSymbol {
      IndexOfCharOf(x);
    }
  }

  /** Reading back the characters of symbols gives the symbols. */
  lemma {:induction false} SymbolsRoundTrip(xs: seq<Symbol>)
    ensures Symbols(Chars(xs)) == Some(xs)
    decreases |xs|
  {
    if |xs| > 0 {
      var s := Chars(xs);
      SymbolRoundTrip(xs[0]);
      SymbolsRoundTrip(xs[1..]);
      assert s[0] == SymbolChar(xs[0]) && s[1..] == Chars(xs[1..]);
      assert xs == [xs[0]] + xs[1..];
    }
  }

  /** The first two digits of a group give back its first byte. */
  lemma FirstByte(b0: int, b1: int)
    requires 0 <= b0 < 256 && 0 <= b1 < 256
    ensures (b0 / 4) * 4 + ((b0 % 4) * 16 + b1 / 16) / 16 == b0
  {
    assert ((b0 % 4) * 16 + b1 / 16) / 16 == b0 % 4;
  }

  /** The second and third digits of a group give back its second byte. */
  lemma SecondByte(b0: int, b1: int, b2: int)
    requires 0 <= b0 < 256 && 0 <= b1 < 256 && 0 <= b2 < 256
    ensures (((b0 % 4) * 16 + b1 / 16) % 16) * 16 + ((b1 % 16) * 4 + b2 / 64) / 4 == b1
  {
    assert ((b0 % 4) * 16 + b1 / 16) % 16 == b1 / 16;
    assert ((b1 % 16) * 4 + b2 / 64) / 4 == b1 % 16;
  }

  /** The third and fourth digits of a group give back its third byte. */
  lemma ThirdByte(b1: int, b2: int)
    requires 0 <= b1 < 256 && 0 <= b2 < 256
    ensures (((b1 % 16) * 4 + b2 / 64) % 4) * 64 + b2 % 64 == b2
  {
    assert ((b1 % 16) * 4 + b2 / 64) % 4 == b2 / 64;
  }

  lemma TripleRoundTrip(b0: byte, b1: byte, b2: byte)
    ensures var t := EncodeTriple(b0, b1, b2);
            t[0] != PadSymbol && t[1] != PadSymbol && t[2] != PadSymbol && t[3] != PadSymbol &&
            DecodeLast(t[0], t[1], t[2], t[3]) == Some([b0, b1, b2])
  {
    FirstByte(b0, b1);
    SecondByte(b0, b1, b2);
    ThirdByte(b1, b2);
  }

  /** The digits of a two-byte group give back its second byte, and its third digit is not the pad. */
  lemma SecondByteOfPair(b0: int, b1: int)
    requires 0 <= b0 < 256 && 0 <= b1 < 256
    ensures (b1 % 16) * 4 < 64
    ensures (((b0 % 4) * 16 + b1 / 16) % 16) * 16 + ((b1 % 16) * 4) / 4 == b1
  {
    assert ((b0 % 4) * 16 + b1 / 16) % 16 == b1 / 16;
    assert ((b1 % 16) * 4) / 4 == b1 % 16;
  }

  /** The first digit of a one-byte group and its second digit give back the byte. */
  lemma ByteOfSingle(b0: int)
    requires 0 <= b0 < 256
    ensures (b0 / 4) * 4 + ((b0 % 4) * 16) / 16 == b0
  {
    assert ((b0 % 4) * 16) / 16 == b0 % 4;
  }

  lemma PairRoundTrip(b0: byte, b1: byte)
    ensures var t := EncodePair(b0, b1);
            DecodeLast(t[0], t[1], t[2], t[3]) == Some([b0, b1])
  {
    FirstByte(b0, b1);
    SecondByteOfPair(b0, b1);
  }

  lemma SingleRoundTrip(b0: byte)
    ensures var t := EncodeSingle(b0);
            DecodeLast(t[0], t[1], t[2], t[3]) == Some([b0])
  {
    ByteOfSingle(b0);
  }

  /** Decoding the symbols of some bytes gives back the bytes. */
  lemma {:induction false} QuadsRoundTrip(b: Bytes)
    ensures DecodeQuads(EncodeSymbols(b)) == Some(b)
    decreases |b|
  {
    var xs := EncodeSymbols(b);
    if |b| == 1 {
      SingleRoundTrip(b[0]);
      assert b == [b[0]];
    } else if |b| == 2 {
      PairRoundTrip(b[0], b[1]);
      assert b == [b[0], b[1]];
    } else if |b| >= 3 {
      var t, rest := EncodeTriple(b[0], b[1], b[2]), EncodeSymbols(b[3..]);
      TripleRoundTrip(b[0], b[1], b[2]);
      QuadsRoundTrip(b[3..]);
      assert xs[..4] == t && xs[4..] == rest;
      if |rest| == 0 {
        assert b == [b[0], b[1], b[2]];
      } else {
        assert [b[0], b[1], b[2]] + b[3..] == b;
      }
    }
  }

  /** Decoding what `Encode` produced gives back the original bytes. */
  lemma RoundTrip(b: Bytes)
    ensures Decode(Encode(b)) == Some(b)
  {
    var xs := EncodeSymbols(b);
    assert |xs| % 4 == 0;
    DecodeChars(xs);
    QuadsRoundTrip(b);
  }

  /** Decoding the characters of whole quadruples of symbols decodes the symbols. */
  lemma DecodeChars(xs: seq<Symbol>)
    requires |xs| % 4 == 0
    ensures Decode(Chars(xs)) == DecodeQuads(xs)
  {
    SymbolsRoundTrip(xs);
  }

  /** A pad before the last quadruple is rejected. */
  lemma {:induction false} RejectsEarlyPad(xs: seq<Symbol>, k: nat)
    requires |xs| % 4 == 0 && k < |xs| - 4 && xs[k] == PadSymbol
    ensures DecodeQuads(xs) == None
    decreases |xs|
  {
    if k >= 4 {
      RejectsEarlyPad(xs[4..], k - 4);
    }
  }
}
