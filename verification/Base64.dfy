/**
 convert_to_base_64 (src/network/network.c:124-177) against section 4 of RFC 4648: the input's bits, most
 significant first and followed by zeros, are cut into groups of six; each group is one character, and `=`
 fills the last quantum.  A decoder given by the same reading of bits undoes it.
*/
module Base64 {
  type Octet = x: int | 0 <= x < 256

  const UPPER: string := "ABCDEFGHIJKLMNOPQRSTUVWXYZ"
  const LOWER: string := "abcdefghijklmnopqrstuvwxyz"
  const DIGITS: string := "0123456789+/"
  const TABLE: string := UPPER + LOWER + DIGITS

  /** 1 for a set bit; i counts from the most significant. */
  function OctetBit(o: Octet, i: nat): (b: int)
    requires i < 8
    ensures b == 0 || b == 1
  {
    match i
    case 0 => o / 128 % 2
    case 1 => o / 64 % 2
    case 2 => o / 32 % 2
    case 3 => o / 16 % 2
    case 4 => o / 8 % 2
    case 5 => o / 4 % 2
    case 6 => o / 2 % 2
    case 7 => o % 2
  }

  /** Bit i of the whole input, zeros after its end. */
  function Bit(input: seq<Octet>, i: nat): (b: int)
    ensures b == 0 || b == 1
  {
    if i / 8 < |input| then OctetBit(input[i / 8], i % 8) else 0
  }

  /** The six bits from t on as a number. */
  function SixBits(input: seq<Octet>, t: nat): (v: int)
    ensures 0 <= v < 64
  {
    32 * Bit(input, t) + 16 * Bit(input, t + 1) + 8 * Bit(input, t + 2)
    + 4 * Bit(input, t + 3) + 2 * Bit(input, t + 4) + Bit(input, t + 5)
  }

  function EightBits(input: seq<Octet>, t: nat): (v: int)
    ensures 0 <= v < 256
  {
    128 * Bit(input, t) + 64 * Bit(input, t + 1) + 32 * Bit(input, t + 2) + 16 * Bit(input, t + 3)
    + 8 * Bit(input, t + 4) + 4 * Bit(input, t + 5) + 2 * Bit(input, t + 6) + Bit(input, t + 7)
  }

  /** The k-th group of six bits. */
  function Sextet(input: seq<Octet>, k: nat): (v: int)
    ensures 0 <= v < 64
  {
    SixBits(input, 6 * k)
  }

  function EncodedLength(n: nat): nat {
    4 * ((n + 2) / 3)
  }

  function EncodedChar(input: seq<Octet>, k: nat): char {
    if 6 * k < 8 * |input| then TABLE[Sextet(input, k)] else '='
  }

  /** RFC 4648, section 4. */
  function Encoded(input: seq<Octet>): (s: string)
    ensures |s| == EncodedLength(|input|)
  {
    seq(EncodedLength(|input|), k requires k >= 0 => EncodedChar(input, k))
  }

  /** An octet is its bits. */
  lemma OctetBits(o: Octet)
    ensures o == 128 * OctetBit(o, 0) + 64 * OctetBit(o, 1) + 32 * OctetBit(o, 2) + 16 * OctetBit(o, 3)
               + 8 * OctetBit(o, 4) + 4 * OctetBit(o, 5) + 2 * OctetBit(o, 6) + OctetBit(o, 7)
  {
    var h, l := o / 16, o % 16;
    HighBits(o, h, l);
    LowBits(o, h, l);
    Nibble(h);
    Nibble(l);
  }

  lemma Nibble(h: nat)
    requires h < 16
    ensures h == 8 * (h / 8 % 2) + 4 * (h / 4 % 2) + 2 * (h / 2 % 2) + h % 2
  {
  }

  lemma HighBits(o: nat, h: nat, l: nat)
    requires o == 16 * h + l && l < 16
    ensures o / 128 == h / 8 && o / 64 == h / 4 && o / 32 == h / 2 && o / 16 == h
  {
  }

  lemma LowBits(o: nat, h: nat, l: nat)
    requires o == 16 * h + l && l < 16
    ensures o / 8 % 2 == l / 8 % 2 && o / 4 % 2 == l / 4 % 2 && o / 2 % 2 == l / 2 % 2 && o % 2 == l % 2
  {
    Parity(o / 8, l / 8, h);
    Parity(o / 4, l / 4, 2 * h);
    Parity(o / 2, l / 2, 4 * h);
    Parity(o, l, 8 * h);
  }

  lemma Parity(x: nat, y: nat, k: nat)
    requires x == y + 2 * k
    ensures x % 2 == y % 2
  {
  }

  function OctetAt(input: seq<Octet>, i: nat): int {
    if i < |input| then input[i] else 0
  }

  lemma OctetIsBits(input: seq<Octet>, i: nat)
    ensures OctetAt(input, i) == EightBits(input, 8 * i)
  {
    hide OctetBit;
    if i < |input| {
      OctetBits(input[i]);
    }
  }

  /** Three octets as one number are four groups of six bits as one number. */
  lemma Regroup(input: seq<Octet>, t: nat)
    ensures 65536 * EightBits(input, t) + 256 * EightBits(input, t + 8) + EightBits(input, t + 16)
         == 262144 * SixBits(input, t) + 4096 * SixBits(input, t + 6) + 64 * SixBits(input, t + 12) + SixBits(input, t + 18)
  {
    hide Bit;
  }

  /** Shifting and masking take a quantum apart. */
  lemma Apart(triple: nat, a: int, b: int, c: int, d: int)
    requires 0 <= a < 64 && 0 <= b < 64 && 0 <= c < 64 && 0 <= d < 64
    requires triple == 262144 * a + 4096 * b + 64 * c + d
    ensures triple / 262144 % 64 == a && triple / 4096 % 64 == b && triple / 64 % 64 == c && triple % 64 == d
  {
    assert triple / 64 == 4096 * a + 64 * b + c;
    assert triple / 4096 == 64 * a + b;
    assert triple / 262144 == a;
  }

  lemma Quantum(input: seq<Octet>, q: nat)
    ensures var triple := 65536 * OctetAt(input, 3 * q) + 256 * OctetAt(input, 3 * q + 1) + OctetAt(input, 3 * q + 2);
            && triple / 262144 % 64 == Sextet(input, 4 * q) && triple / 4096 % 64 == Sextet(input, 4 * q + 1)
            && triple / 64 % 64 == Sextet(input, 4 * q + 2) && triple % 64 == Sextet(input, 4 * q + 3)
  {
    hide SixBits, EightBits, OctetAt;
    OctetIsBits(input, 3 * q);
    OctetIsBits(input, 3 * q + 1);
    OctetIsBits(input, 3 * q + 2);
    Regroup(input, 24 * q);
    Apart(65536 * OctetAt(input, 3 * q) + 256 * OctetAt(input, 3 * q + 1) + OctetAt(input, 3 * q + 2),
          Sextet(input, 4 * q), Sextet(input, 4 * q + 1), Sextet(input, 4 * q + 2), Sextet(input, 4 * q + 3));
  }

  /** The encoder; shifts and masks are written as division and remainder. */
  method ConvertToBase64(input: seq<Octet>) returns (output: array<char>, outlen: nat)
    ensures fresh(output) && output.Length == outlen + 1
    ensures output[..outlen] == Encoded(input) && output[outlen] == '\0'
  {
    hide Sextet, EncodedChar, OctetAt;
    var encodedLen := 4 * ((|input| + 2) / 3);
    output := new char[encodedLen + 1](_ => '\0');
    var i, j := 0, 0;
    ghost var q := 0;
    while i < |input|
      invariant i == (if 3 * q < |input| then 3 * q else |input|) && j == 4 * q <= encodedLen
      invariant i == |input| ==> j == encodedLen
      invariant forall k :: 0 <= k < j ==> output[k] == TABLE[Sextet(input, k)]
    {
      var a, b, c;
      a, i := NextOctet(input, i, 3 * q);
      b, i := NextOctet(input, i, 3 * q + 1);
      c, i := NextOctet(input, i, 3 * q + 2);
      WriteQuantum(output, j, 65536 * a + 256 * b + c, input, q);
      j, q := j + 4, q + 1;
    }
    Pad(output, input, encodedLen);
    output[encodedLen] := '\0';
    outlen := encodedLen;
  }

  /** The octet at i, or 0 past the end, and the next position. */
  method NextOctet(input: seq<Octet>, i: nat, ghost at: nat) returns (o: int, next: nat)
    requires i == if at < |input| then at else |input|
    ensures o == OctetAt(input, at) && 0 <= o < 256
    ensures next == if at + 1 < |input| then at + 1 else |input|
  {
    o, next := 0, i;
    if i < |input| {
      o, next := input[i], i + 1;
    }
  }

  method WriteQuantum(output: array<char>, j: nat, triple: nat, ghost input: seq<Octet>, ghost q: nat)
    requires j == 4 * q && j + 4 < output.Length
    requires triple == 65536 * OctetAt(input, 3 * q) + 256 * OctetAt(input, 3 * q + 1) + OctetAt(input, 3 * q + 2)
    modifies output
    ensures forall k :: j <= k < j + 4 ==> output[k] == TABLE[Sextet(input, k)]
    ensures forall k :: 0 <= k < output.Length && !(j <= k < j + 4) ==> output[k] == old(output[k])
  {
    hide Sextet, OctetAt;
    Quantum(input, q);
    assert j == 4 * q && j + 1 == 4 * q + 1 && j + 2 == 4 * q + 2 && j + 3 == 4 * q + 3;
    var w, x, y, z := triple / 262144 % 64, triple / 4096 % 64, triple / 64 % 64, triple % 64;
    output[j] := TABLE[w];
    output[j + 1] := TABLE[x];
    output[j + 2] := TABLE[y];
    output[j + 3] := TABLE[z];
  }

  /** One or two of the last characters stand for no input. */
  method Pad(output: array<char>, input: seq<Octet>, encodedLen: nat)
    requires encodedLen == EncodedLength(|input|) < output.Length
    requires forall k :: 0 <= k < encodedLen ==> output[k] == TABLE[Sextet(input, k)]
    modifies output
    ensures output[..encodedLen] == Encoded(input)
  {
    hide Sextet, EncodedChar;
    var mod := |input| % 3;
    if mod > 0 {
      output[encodedLen - 1] := '=';
      if mod == 1 {
        output[encodedLen - 2] := '=';
      }
    }
    forall k | 0 <= k < encodedLen
      ensures output[k] == EncodedChar(input, k)
    {
      Padding(input, k);
    }
  }

  lemma Padding(input: seq<Octet>, k: nat)
    requires k < EncodedLength(|input|)
    ensures EncodedChar(input, k)
         == if (|input| % 3 == 1 && k >= EncodedLength(|input|) - 2) || (|input| % 3 == 2 && k == EncodedLength(|input|) - 1)
            then '=' else TABLE[Sextet(input, k)]
  {
    hide Sextet;
  }

  /** The place of a character in the table. */
  function ValueOf(c: char): (v: int)
    ensures 0 <= v < 64
  {
    if 'A' <= c <= 'Z' then c as int - 'A' as int
    else if 'a' <= c <= 'z' then c as int - 'a' as int + 26
    else if '0' <= c <= '9' then c as int - '0' as int + 52
    else if c == '+' then 62
    else 63
  }

  function SextetBit(v: int, i: nat): (b: int)
    requires 0 <= v < 64 && i < 6
    ensures b == 0 || b == 1
  {
    match i
    case 0 => v / 32 % 2
    case 1 => v / 16 % 2
    case 2 => v / 8 % 2
    case 3 => v / 4 % 2
    case 4 => v / 2 % 2
    case 5 => v % 2
  }

  function CharBit(s: string, t: nat): (b: int)
    ensures b == 0 || b == 1
  {
    if t / 6 < |s| then SextetBit(ValueOf(s[t / 6]), t % 6) else 0
  }

  function Pads(s: string): (p: nat)
    ensures p <= 2
  {
    if |s| < 4 || s[|s| - 1] != '=' then 0 else if s[|s| - 2] == '=' then 2 else 1
  }

  function DecodedOctet(s: string, i: nat): Octet {
    128 * CharBit(s, 8 * i) + 64 * CharBit(s, 8 * i + 1) + 32 * CharBit(s, 8 * i + 2) + 16 * CharBit(s, 8 * i + 3)
    + 8 * CharBit(s, 8 * i + 4) + 4 * CharBit(s, 8 * i + 5) + 2 * CharBit(s, 8 * i + 6) + CharBit(s, 8 * i + 7)
  }

  /** The decoder of the same section: padding shortens the result, and the characters' bits fill it. */
  function Decoded(s: string): seq<Octet> {
    var n := 3 * (|s| / 4) - Pads(s);
    if n < 0 then [] else seq(n, i requires i >= 0 => DecodedOctet(s, i))
  }

  lemma TableValues(v: int)
    requires 0 <= v < 64
    ensures ValueOf(TABLE[v]) == v && TABLE[v] != '='
  {
    if v < 26 {
      UpperAt(v);
    } else if v < 52 {
      LowerAt(v - 26);
    } else {
      DigitAt(v - 52);
    }
  }

  lemma UpperAt(v: int)
    requires 0 <= v < 26
    ensures TABLE[v] == UPPER[v] && UPPER[v] as int == v + 'A' as int
  {
  }

  lemma LowerAt(v: int)
    requires 0 <= v < 26
    ensures TABLE[v + 26] == LOWER[v] && LOWER[v] as int == v + 'a' as int
  {
  }

  lemma DigitAt(v: int)
    requires 0 <= v < 12
    ensures TABLE[v + 52] == DIGITS[v]
    ensures if v < 10 then DIGITS[v] as int == v + '0' as int else DIGITS[v] == if v == 10 then '+' else '/'
  {
  }

  lemma SixBitsBack(b0: int, b1: int, b2: int, b3: int, b4: int, b5: int)
    requires 0 <= b0 <= 1 && 0 <= b1 <= 1 && 0 <= b2 <= 1 && 0 <= b3 <= 1 && 0 <= b4 <= 1 && 0 <= b5 <= 1
    ensures var v := 32 * b0 + 16 * b1 + 8 * b2 + 4 * b3 + 2 * b4 + b5;
            && SextetBit(v, 0) == b0 && SextetBit(v, 1) == b1 && SextetBit(v, 2) == b2
            && SextetBit(v, 3) == b3 && SextetBit(v, 4) == b4 && SextetBit(v, 5) == b5
  {
    var v := 32 * b0 + 16 * b1 + 8 * b2 + 4 * b3 + 2 * b4 + b5;
    assert v / 2 == 16 * b0 + 8 * b1 + 4 * b2 + 2 * b3 + b4;
    assert v / 4 == 8 * b0 + 4 * b1 + 2 * b2 + b3;
    assert v / 8 == 4 * b0 + 2 * b1 + b2;
    assert v / 16 == 2 * b0 + b1;
    assert v / 32 == b0;
  }

  /** Every bit of the input is read back from the character that carries it. */
  lemma BitBack(input: seq<Octet>, t: nat)
    requires t < 8 * |input|
    ensures CharBit(Encoded(input), t) == Bit(input, t)
  {
    hide Bit, SextetBit, ValueOf, SixBits;
    var k := t / 6;
    TableValues(Sextet(input, k));
    SextetBits(input, 6 * k, t % 6);
  }

  lemma SextetBits(input: seq<Octet>, u: nat, i: nat)
    requires i < 6
    ensures SextetBit(SixBits(input, u), i) == Bit(input, u + i)
  {
    hide Bit, SextetBit;
    SixBitsBack(Bit(input, u), Bit(input, u + 1), Bit(input, u + 2), Bit(input, u + 3), Bit(input, u + 4), Bit(input, u + 5));
  }

  lemma OctetBack(input: seq<Octet>, i: nat)
    requires i < |input|
    ensures DecodedOctet(Encoded(input), i) == input[i]
  {
    hide CharBit, Bit, Encoded;
    BitBack(input, 8 * i);
    BitBack(input, 8 * i + 1);
    BitBack(input, 8 * i + 2);
    BitBack(input, 8 * i + 3);
    BitBack(input, 8 * i + 4);
    BitBack(input, 8 * i + 5);
    BitBack(input, 8 * i + 6);
    BitBack(input, 8 * i + 7);
    OctetIsBits(input, i);
  }

  /** Decoding undoes encoding, for every byte array. */
  lemma DecodeEncode(input: seq<Octet>)
    ensures Decoded(Encoded(input)) == input
  {
    hide DecodedOctet, Encoded;
    PadsBack(input);
    forall i | 0 <= i < |input|
      ensures DecodedOctet(Encoded(input), i) == input[i]
    {
      OctetBack(input, i);
    }
  }

  lemma PadsBack(input: seq<Octet>)
    ensures var s := Encoded(input); 3 * (|s| / 4) - Pads(s) == |input|
  {
    hide Sextet, EncodedChar, ValueOf, TABLE;
    var s := Encoded(input);
    if |input| > 0 {
      Padding(input, |s| - 1);
      Padding(input, |s| - 2);
      TableValues(Sextet(input, |s| - 1));
      TableValues(Sextet(input, |s| - 2));
    }
  }
}
