/** 64-bit machine words as signed integers, with the wrap-around written out. */
module Words {

  const TWO_31: int := 0x8000_0000
  const TWO_32: int := 0x1_0000_0000
  const TWO_63: int := 0x8000_0000_0000_0000
  const TWO_64: int := 0x1_0000_0000_0000_0000

  type Word = x: int | -TWO_63 <= x < TWO_63 witness 0

  /** The representative of x modulo 2^64 in the signed range. */
  function Wrap64(x: int): (w: Word)
    ensures (w - x) % TWO_64 == 0
  {
    (x + TWO_63) % TWO_64 - TWO_63
  }

  /** The representative of x modulo 2^32 in the signed range: C's conversion of a long to an int. */
  function Wrap32(x: int): (w: int)
    ensures -TWO_31 <= w < TWO_31
    ensures (w - x) % TWO_32 == 0
  {
    (x + TWO_31) % TWO_32 - TWO_31
  }

  predicate IsLetter(c: char) {
    'a' <= c <= 'z' || 'A' <= c <= 'Z' || c == '_'
  }

  predicate Name(s: string) {
    s != "" && IsLetter(s[0])
  }

  predicate IsDigit(c: char) {
    '0' <= c <= '9'
  }

  predicate IsDigits(s: string) {
    forall i :: 0 <= i < |s| ==> IsDigit(s[i])
  }

  /** The number written by a string of decimal digits, most significant first. */
  function DecimalValue(s: string): nat
    requires IsDigits(s)
  {
    if s == [] then 0 else 10 * DecimalValue(s[..|s| - 1]) + (s[|s| - 1] as int - '0' as int)
  }

  function DigitChar(d: nat): (c: char)
    requires d < 10
    ensures IsDigit(c) && c as int - '0' as int == d
  {
    '0' + d as char
  }

  /** The decimal digits of a number, without leading zeros. */
  function Decimal(n: nat): (s: string)
    ensures s != [] && IsDigits(s)
  {
    if n < 10 then [DigitChar(n)] else Decimal(n / 10) + [DigitChar(n % 10)]
  }

  /** Writing a number in decimal and reading it back gives the number. */
  lemma {:induction false} DecimalReadsBack(n: nat)
    ensures DecimalValue(Decimal(n)) == n
  {
    if n < 10 {
      assert Decimal(n)[..0] == [];
    } else {
      var s := Decimal(n / 10);
      assert Decimal(n)[..|Decimal(n)| - 1] == s;
      DecimalReadsBack(n / 10);
    }
  }

  function PowerOfTen(k: nat): nat {
    if k == 0 then 1 else 10 * PowerOfTen(k - 1)
  }

  lemma {:induction false} DecimalLength(n: nat, k: nat)
    requires k >= 1 && n < PowerOfTen(k)
    ensures |Decimal(n)| <= k
  {
    if n >= 10 {
      DecimalLength(n / 10, k - 1);
    }
  }

  /** The longest prefix of decimal digits. */
  function DigitPrefix(s: string): (p: string)
    ensures IsDigits(p) && p <= s
    ensures |p| == |s| || !IsDigit(s[|p|])
  {
    if s == [] || !IsDigit(s[0]) then [] else [s[0]] + DigitPrefix(s[1..])
  }

  lemma {:induction false} WrapFixesWords(x: Word)
    ensures Wrap64(x) == x
  {
    assert 0 <= x + TWO_63 < TWO_64;
  }

  /** Words are determined by their residue modulo 2^64. */
  lemma WrapUnique(x: int, w: Word)
    requires (w - x) % TWO_64 == 0
    ensures Wrap64(x) == w
  {
    var k := (w - x) / TWO_64;
    assert w - x == k * TWO_64;
    var j := (Wrap64(x) - x) / TWO_64;
    assert Wrap64(x) - x == j * TWO_64;
    assert w - Wrap64(x) == (k - j) * TWO_64;
  }

  /** Wrapping adds some multiple of 2^64. */
  lemma WrapMultiple(x: int) returns (k: int)
    ensures Wrap64(x) == x + k * TWO_64
  {
    k := (Wrap64(x) - x) / TWO_64;
  }

  /** Adding multiples of 2^64 does not change the word. */
  lemma WrapShift(x: int, k: int)
    ensures Wrap64(x + k * TWO_64) == Wrap64(x)
  {
    var j := WrapMultiple(x);
    assert (Wrap64(x) - (x + k * TWO_64)) == (j - k) * TWO_64;
    assert ((j - k) * TWO_64) % TWO_64 == 0;
    WrapUnique(x + k * TWO_64, Wrap64(x));
  }
}
