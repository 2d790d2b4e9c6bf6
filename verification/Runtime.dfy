/**
 The assembly runtime (preamble.h:11-60, 91-149): print_int and read_int as loops over 64-bit registers and
 the bytes of the stack.  Characters stand for bytes.
*/
module Runtime {
  import opened Words
  import opened Machine

  /** The decimal text of a number. */
  function DecimalText(n: int): string {
    (if n < 0 then "-" else "") + Decimal(Abs(n))
  }

  /** The bytes stored at addresses lo..hi-1. */
  function Stored(mem: map<int, char>, lo: int, hi: int): string
    requires lo <= hi && forall a :: lo <= a < hi ==> a in mem
  {
    seq(hi - lo, i requires 0 <= i < hi - lo => mem[lo + i])
  }

  /** The bytes between rsp and rbp spell a text. */
  predicate Spells(mem: map<int, char>, rsp: int, rbp: int, text: string) {
    rsp < rbp && (forall a :: rsp < a < rbp ==> a in mem) && Stored(mem, rsp + 1, rbp) == text
  }

  lemma PushByte(mem: map<int, char>, rsp: int, rbp: int, text: string, c: char)
    requires Spells(mem, rsp, rbp, text)
    ensures Spells(mem[rsp := c], rsp - 1, rbp, [c] + text)
  {
  }

  /** The digits of a number still to be written, when k is what is left of it. */
  function Pending(k: nat): string {
    if k == 0 then "" else Decimal(k)
  }

  /** One division step: the last digit is the remainder, sign aside. */
  lemma DigitStep(x: int)
    requires x != 0
    ensures var q, r := TruncDiv(x, 10), TruncRem(x, 10);
            -9 <= r <= 9 && Abs(q) == Abs(x) / 10 && Abs(r) == Abs(x) % 10 && (r < 0 ==> x < 0)
    ensures Abs(TruncDiv(x, 10)) < Abs(x)
    ensures Pending(Abs(x)) == Pending(Abs(TruncDiv(x, 10))) + [DigitChar(Abs(TruncRem(x, 10)))]
  {
    assert Abs(10) == 10;
    var k := Abs(x);
    assert k == 10 * (k / 10) + k % 10;
    if k < 10 {
      assert k / 10 == 0 && k % 10 == k;
    }
  }

  /** The digit loop (preamble.h:24-39): the digits go below rsp, last one first. */
  method DigitLoop(n: Word, stack: map<int, char>, top: int, rbp: int) returns (mem: map<int, char>, rsp: int)
    requires n != 0 && Spells(stack, top, rbp, "\n")
    ensures Spells(mem, rsp, rbp, Decimal(Abs(n)) + "\n")
  {
    hide Stored, TruncDiv, TruncRem, Decimal, Spells, Pending, Abs;
    var rdi: Word := n;
    mem, rsp := stack, top;
    ghost var digits := "";
    assert digits + "\n" == "\n";
    NothingWritten(n);
    while rdi != 0
      invariant Spells(mem, rsp, rbp, digits + "\n")
      invariant Decimal(Abs(n)) == Pending(Abs(rdi)) + digits
      decreases Abs(rdi)
    {
      OneDigit(n, rdi, digits);
      var quotient, rdx := TruncDiv(rdi, 10), TruncRem(rdi, 10);
      rdi := quotient;
      if rdx < 0 {
        rdx := -rdx;
      }
      var digit := DigitChar(rdx);
      PushByte(mem, rsp, rbp, digits + "\n", digit);
      mem := mem[rsp := digit];
      rsp := rsp - 1;
      digits := [digit] + digits;
    }
    AllWritten(digits);
  }

  lemma NothingWritten(n: Word)
    requires n != 0
    ensures Decimal(Abs(n)) == Pending(Abs(n)) + ""
  {
  }

  lemma AllWritten(digits: string)
    ensures Pending(Abs(0)) + digits == digits
  {
  }

  lemma OneDigit(n: Word, x: Word, digits: string)
    requires x != 0 && Decimal(Abs(n)) == Pending(Abs(x)) + digits
    ensures var q, r := TruncDiv(x, 10), TruncRem(x, 10);
            var d := if r < 0 then -r else r;
            && IsWord(q) && Abs(q) < Abs(x) && 0 <= d <= 9
            && Decimal(Abs(n)) == Pending(Abs(q)) + ([DigitChar(d)] + digits)
            && [DigitChar(d)] + (digits + "\n") == ([DigitChar(d)] + digits) + "\n"
  {
    hide TruncDiv, TruncRem, Decimal, Pending;
    DigitStep(x);
    QuotientIsWord(x);
    var q, r := TruncDiv(x, 10), TruncRem(x, 10);
    assert (Pending(Abs(q)) + [DigitChar(Abs(r))]) + digits == Pending(Abs(q)) + ([DigitChar(Abs(r))] + digits);
  }

  /**
   print_int writes exactly the decimal text of its argument and a newline, for every 64-bit value including
   the minimum, and returns the argument; the length passed to write is the number of bytes stored.
  */
  method PrintInt(n: Word, rbp: int) returns (out: string, rax: Word)
    ensures out == DecimalText(n) + "\n" && rax == n
    ensures 2 <= |out| <= 21
  {
    hide Stored, Spells;
    var mem: map<int, char> := map[];
    var rsp, r10, r9 := rbp, n, 0;
    rsp := rsp - 1;
    mem := mem[rsp := '\n'];
    rsp := rsp - 1;
    FirstByte(mem, rbp);
    if n == 0 {
      PushByte(mem, rsp, rbp, "\n", '0');
      mem := mem[rsp := '0'];
      rsp := rsp - 1;
      assert ['0'] + "\n" == Decimal(0) + "\n";
    } else {
      if n < 0 {
        r9 := 1;
      }
      mem, rsp := DigitLoop(n, mem, rsp, rbp);
    }
    if r9 != 0 {
      PushByte(mem, rsp, rbp, Decimal(Abs(n)) + "\n", '-');
      mem := mem[rsp := '-'];
      rsp := rsp - 1;
      assert ['-'] + (Decimal(Abs(n)) + "\n") == DecimalText(n) + "\n";
    } else {
      assert DecimalText(n) == Decimal(Abs(n));
    }
    SpellsText(mem, rsp, rbp, DecimalText(n) + "\n");
    var rsi := rsp + 1;
    var length := rbp - rsp - 1;
    out := Stored(mem, rsi, rsi + length);
    rax := r10;
    TextLength(n);
  }

  lemma SpellsText(mem: map<int, char>, rsp: int, rbp: int, text: string)
    requires Spells(mem, rsp, rbp, text)
    ensures rsp < rbp && (forall a :: rsp < a < rbp ==> a in mem) && Stored(mem, rsp + 1, rbp) == text
  {
  }

  lemma FirstByte(mem: map<int, char>, rbp: int)
    requires rbp - 1 in mem && mem[rbp - 1] == '\n'
    ensures Spells(mem, rbp - 2, rbp, "\n")
  {
  }

  lemma QuotientIsWord(x: Word)
    ensures IsWord(TruncDiv(x, 10))
  {
  }

  lemma TextLength(n: Word)
    ensures 1 <= |DecimalText(n)| <= 20
  {
    assert PowerOfTen(4) == 10000;
    assert PowerOfTen(8) == 10000 * PowerOfTen(4);
    assert PowerOfTen(12) == 10000 * PowerOfTen(8);
    assert PowerOfTen(16) == 10000 * PowerOfTen(12);
    assert PowerOfTen(19) == 1000 * PowerOfTen(16);
    DecimalLength(Abs(n), 19);
  }

  datatype ReadResult = Value(n: Word, consumed: nat) | ReadError

  /** Input up to the first newline. */
  function Line(input: string): (line: string)
    ensures line <= input && '\n' !in line
    ensures |line| < |input| ==> input[|line|] == '\n'
  {
    if input == "" || input[0] == '\n' then "" else [input[0]] + Line(input[1..])
  }

  /** The digits of a line, whatever stands between them. */
  function DigitsOf(line: string): (d: string)
    ensures IsDigits(d)
  {
    if line == "" then "" else
    DigitsOf(line[..|line| - 1]) + (if IsDigit(line[|line| - 1]) then [line[|line| - 1]] else "")
  }

  function Dashes(line: string): nat {
    if line == "" then 0 else Dashes(line[..|line| - 1]) + (if line[|line| - 1] == '-' then 1 else 0)
  }

  /** The number a line denotes, modulo 2^64: every dash flips the sign, everything but digits is skipped. */
  function LineValue(line: string): Word {
    var v: int := DecimalValue(DigitsOf(line));
    Wrap64(if Dashes(line) % 2 == 1 then 0 - v else v)
  }

  /** What read_int does with the rest of its input; at the end of it, read fails or reports end of file. */
  function ReadSpec(input: string, failing: bool): ReadResult {
    var line := Line(input);
    if |line| < |input| then Value(LineValue(line), |line| + 1)
    else if failing || input == "" then ReadError
    else Value(LineValue(line), |line|)
  }

  lemma AccumulateDigit(v: nat, r: Word, d: nat)
    requires r == Wrap64(v)
    ensures Wrap64(Wrap64(r * 10) + d) == Wrap64(10 * v + d)
  {
    var k := WrapMultiple(v);
    var j := WrapMultiple(r * 10);
    assert Wrap64(r * 10) + d == (10 * v + d) + (10 * k + j) * TWO_64;
    WrapShift(10 * v + d, 10 * k + j);
  }

  lemma NegateWrapped(v: nat, r: Word)
    requires r == Wrap64(v)
    ensures Wrap64(0 - r as int) == Wrap64(0 - v as int)
  {
    var k := WrapMultiple(v);
    assert 0 - r as int == (0 - v as int) + (-k) * TWO_64;
    WrapShift(0 - v as int, -k);
  }

  lemma LineIs(input: string, pos: nat)
    requires pos <= |input| && input[..pos] <= Line(input) && (pos == |input| || input[pos] == '\n')
    ensures Line(input) == input[..pos]
  {
    hide Line;
    var line := Line(input);
    if |line| > pos {
      assert false;
    }
  }

  lemma LineGrows(input: string, pos: nat)
    requires pos < |input| && input[..pos] <= Line(input) && input[pos] != '\n'
    ensures input[..pos + 1] <= Line(input)
  {
    hide Line;
    var line := Line(input);
    if |line| > pos {
      assert line[..pos + 1] == input[..pos + 1];
    }
  }

  /** read_int reads one line a byte at a time; registers accumulate modulo 2^64. */
  method ReadInt(input: string, failing: bool) returns (r: ReadResult)
    ensures r == ReadSpec(input, failing)
  {
    hide Wrap64, Line, DecimalValue;
    var r9, r10: Word, r12 := 0, 0, 0;
    var pos, newline := 0, 0;
    NothingRead();
    assert input[..0] == "";
    while true
      invariant 0 <= pos <= |input| && r12 == pos && input[..pos] <= Line(input)
      invariant r9 == Dashes(input[..pos]) % 2
      invariant r10 == Wrap64(DecimalValue(DigitsOf(input[..pos])))
      invariant newline == 0
      decreases |input| - pos
    {
      var rax := if pos < |input| then 1 else if failing then -1 else 0;
      if rax > 0 {
        r12 := r12 + 1;
        var r8 := input[pos];
        if r8 == '\n' {
          newline := 1;
          break;
        }
        LineGrows(input, pos);
        NextByte(input, pos);
        if r8 == '-' {
          r9 := 1 - r9;
        }
        if '0' <= r8 <= '9' {
          var d := r8 as int - '0' as int;
          AccumulateDigit(DecimalValue(DigitsOf(input[..pos])), r10, d);
          r10 := Wrap64(r10 * 10);
          r10 := Wrap64(r10 + d);
          AppendDigit(DigitsOf(input[..pos]), r8);
        }
        pos := pos + 1;
      } else if rax == 0 {
        if r12 == 0 {
          return ReadError;
        }
        break;
      } else {
        return ReadError;
      }
    }
    LineIs(input, pos);
    if r9 != 0 {
      NegateWrapped(DecimalValue(DigitsOf(Line(input))), r10);
      r10 := Wrap64(0 - r10 as int);
    }
    r := Value(r10, pos + newline);
  }

  lemma NextByte(input: string, pos: nat)
    requires pos < |input|
    ensures DigitsOf(input[..pos + 1])
         == if IsDigit(input[pos]) then DigitsOf(input[..pos]) + [input[pos]] else DigitsOf(input[..pos])
    ensures Dashes(input[..pos + 1]) == Dashes(input[..pos]) + (if input[pos] == '-' then 1 else 0)
  {
    assert input[..pos + 1][..pos] == input[..pos];
  }

  lemma NothingRead()
    ensures 0 == Wrap64(DecimalValue(""))
  {
    WrapFixesWords(0);
  }

  lemma AppendDigit(s: string, c: char)
    requires IsDigits(s) && IsDigit(c)
    ensures IsDigits(s + [c]) && DecimalValue(s + [c]) == 10 * DecimalValue(s) + (c as int - '0' as int)
  {
    assert (s + [c])[..|s|] == s;
  }

  lemma {:induction false} DigitsOfAppend(line: string, s: string)
    requires IsDigits(s)
    ensures DigitsOf(line + s) == DigitsOf(line) + s && Dashes(line + s) == Dashes(line)
    decreases |s|
  {
    if s == "" {
      assert line + s == line;
    } else {
      var rest := s[..|s| - 1];
      assert (line + s)[..|line + s| - 1] == line + rest;
      DigitsOfAppend(line, rest);
    }
  }

  lemma {:induction false} LineOf(text: string, rest: string)
    requires '\n' !in text
    ensures Line(text + "\n" + rest) == text
    decreases |text|
  {
    var input := text + "\n" + rest;
    if text != "" {
      assert input[1..] == text[1..] + "\n" + rest;
      LineOf(text[1..], rest);
    }
  }

  /** The sign and digits of a printed number. */
  lemma TextParts(n: int)
    ensures DigitsOf(DecimalText(n)) == Decimal(Abs(n)) && Dashes(DecimalText(n)) == (if n < 0 then 1 else 0)
    ensures '\n' !in DecimalText(n)
  {
    var sign := if n < 0 then "-" else "";
    assert sign[..0] == "" && DigitsOf("") == "" && Dashes("") == 0;
    assert DigitsOf(sign) == "" && Dashes(sign) == (if n < 0 then 1 else 0);
    DigitsOfAppend(sign, Decimal(Abs(n)));
  }

  /** read_int undoes print_int: the bytes written for any 64-bit number read back as that number. */
  lemma ReadsBackPrinted(n: Word, rest: string, failing: bool)
    ensures ReadSpec(DecimalText(n) + "\n" + rest, failing) == Value(n, |DecimalText(n)| + 1)
  {
    TextParts(n);
    LineOf(DecimalText(n), rest);
    DecimalReadsBack(Abs(n));
    WrapFixesWords(n);
  }

  lemma {:induction false} LineAlone(text: string)
    requires '\n' !in text
    ensures Line(text) == text
    decreases |text|
  {
    if text != "" {
      LineAlone(text[1..]);
    }
  }

  /** So it does when the input ends behind the digits. */
  lemma ReadsBackAtEnd(n: Word)
    ensures ReadSpec(DecimalText(n), false) == Value(n, |DecimalText(n)|)
  {
    TextParts(n);
    LineAlone(DecimalText(n));
    DecimalReadsBack(Abs(n));
    WrapFixesWords(n);
  }

  /** Input that ends without a newline is read as if it had one. */
  lemma EndIsNewline(input: string, failing: bool)
    requires input != "" && '\n' !in input
    ensures ReadSpec(input, false).Value? && ReadSpec(input, false).consumed == |input|
    ensures ReadSpec(input + "\n", failing) == Value(ReadSpec(input, false).n, |input| + 1)
  {
    hide LineValue;
    LineAlone(input);
    LineOf(input, "");
    assert input + "\n" + "" == input + "\n";
  }

  /** Reading fails exactly if no newline comes before the input ends and it ends in a failure, or at once. */
  lemma ReadFailsIff(input: string, failing: bool)
    ensures ReadSpec(input, failing) == ReadError <==> '\n' !in input && (failing || input == "")
  {
    hide LineValue;
    if '\n' !in input {
      LineAlone(input);
    } else {
      assert Line(input) != input;
    }
  }

  /** Only the first line counts, and only it is taken. */
  lemma FirstLineRead(line: string, rest: string, failing: bool)
    requires '\n' !in line
    ensures ReadSpec(line + "\n" + rest, failing) == Value(LineValue(line), |line| + 1)
  {
    hide LineValue;
    LineOf(line, rest);
  }

  lemma {:induction false} PartsJoin(a: string, b: string)
    ensures DigitsOf(a + b) == DigitsOf(a) + DigitsOf(b) && Dashes(a + b) == Dashes(a) + Dashes(b)
    decreases |b|
  {
    if b == "" {
      assert a + b == a;
    } else {
      var rest := b[..|b| - 1];
      assert (a + b)[..|a + b| - 1] == a + rest;
      PartsJoin(a, rest);
    }
  }

  lemma OneCharacter(c: char)
    ensures DigitsOf([c]) == (if c in {'0', '1', '2', '3', '4', '5', '6', '7', '8', '9'} then [c] else "")
    ensures Dashes([c]) == if c == '-' then 1 else 0
  {
    assert [c][..0] == "";
  }

  /** Digits alone have the value they denote, modulo 2^64. */
  lemma DigitsValue(a: string)
    requires IsDigits(a)
    ensures LineValue(a) == Wrap64(DecimalValue(a))
  {
    hide DecimalValue, Wrap64;
    DigitsOfAppend("", a);
    assert "" + a == a && DigitsOf("") == "" && Dashes("") == 0;
  }

  /** A character that is neither digit nor dash changes nothing, wherever it stands. */
  lemma OthersIgnored(a: string, c: char, b: string)
    requires c != '-' && c !in {'0', '1', '2', '3', '4', '5', '6', '7', '8', '9'}
    ensures LineValue(a + [c] + b) == LineValue(a + b)
  {
    hide DecimalValue, Wrap64, DigitsOf, Dashes;
    OneCharacter(c);
    PartsJoin(a, b);
    PartsJoin(a, [c]);
    PartsJoin(a + [c], b);
    assert DigitsOf(a) + "" + DigitsOf(b) == DigitsOf(a) + DigitsOf(b);
  }

  /** A dash anywhere negates the value, modulo 2^64. */
  lemma DashNegatesLine(a: string, b: string)
    ensures LineValue(a + "-" + b) == Wrap64(0 - LineValue(a + b) as int)
  {
    hide DecimalValue, Wrap64, DigitsOf, Dashes;
    OneCharacter('-');
    PartsJoin(a, b);
    PartsJoin(a, "-");
    PartsJoin(a + "-", b);
    assert DigitsOf(a) + "" + DigitsOf(b) == DigitsOf(a) + DigitsOf(b);
    DashNegates(DecimalValue(DigitsOf(a + b)), Dashes(a + b));
  }

  lemma DashNegates(v: nat, k: nat)
    ensures Wrap64(if (k + 1) % 2 == 1 then 0 - v as int else v)
            == Wrap64(0 - Wrap64(if k % 2 == 1 then 0 - v as int else v) as int)
  {
    var x: int := if k % 2 == 1 then 0 - v as int else v;
    var j := WrapMultiple(x);
    assert 0 - Wrap64(x) as int == (0 - x) + (-j) * TWO_64;
    WrapShift(0 - x, -j);
  }
}
