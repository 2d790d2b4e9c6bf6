/**
 The intrinsic sequences (codegen.c:51-152) against the operators they stand for, on 64-bit two's complement
 words: which of them leave the operator's value in the result slot, and exactly when the others do.
*/
module Intrinsics {
  import opened Words
  import opened SourceSemantics
  import opened Ir
  import opened Machine
  import opened Codegen
  import opened CodegenMeaning

  const BINARY_OPS: set<string> := {"+", "-", "*", "/", "%", "==", "!=", "<", "<=", ">", ">="}

  function Truth(b: bool): Word {
    if b then 1 else 0
  }

  /** What a binary operator means: arithmetic wraps, division rounds toward zero, comparisons give 0 or 1. */
  function Meaning(op: string, x: Word, y: Word): Word
    requires op in BINARY_OPS
    requires op == "/" || op == "%" ==> y != 0 && IsWord(TruncDiv(x, y))
  {
    if op == "+" then Wrap64(x + y)
    else if op == "-" then Wrap64(x - y)
    else if op == "*" then Wrap64(x * y)
    else if op == "/" then TruncDiv(x, y)
    else if op == "%" then Wrap64(TruncRem(x, y))
    else if op == "==" then Truth(x == y)
    else if op == "!=" then Truth(x != y)
    else if op == "<" then Truth(x < y)
    else if op == "<=" then Truth(x <= y)
    else if op == ">" then Truth(x > y)
    else Truth(x >= y)
  }

  /** The value the sequence for a call leaves in its result slot. */
  function Result(fn: string, args: seq<int>, dest: int, m: Core): Option<Word>
    requires var ins := Intrinsic(fn, args, dest); forall i :: 0 <= i < |ins| ==> Straight(ins[i])
  {
    match Exec(Intrinsic(fn, args, dest), m)
    case None => None
    case Some(e) => Some(GetSlot(e, OffsetOf(dest)))
  }

  lemma IntrinsicIsStraight(fn: string, args: seq<int>, dest: int)
    ensures var ins := Intrinsic(fn, args, dest); forall i :: 0 <= i < |ins| ==> Straight(ins[i])
  {
    IntrinsicStraight(fn, args, dest, OffsetOf(dest) + 1);
  }

  lemma {:induction false} XorSelf(a: nat)
    ensures XorNat(a, a) == 0
    decreases a
  {
    if a != 0 {
      XorSelf(a / 2);
      assert (a + a) % 2 == 0;
    }
  }

  /** Exclusive or with 1 flips the lowest bit. */
  lemma XorOne(x: Word)
    ensures XorWord(x, 1) == if x % 2 == 0 then x + 1 else x - 1
  {
    var u := Unsigned(x);
    var flipped: Word := if x % 2 == 0 then x + 1 else x - 1;
    assert u % 2 == x % 2;
    assert XorNat(u, 1) == if u % 2 == 0 then u + 1 else u - 1;
    assert (flipped - XorNat(u, 1)) % TWO_64 == 0;
    WrapUnique(XorNat(u, 1), flipped);
  }

  lemma ArithmeticResult(op: X64, x: Operand, y: Operand, d: int, m: Core)
    requires op == Add(y, Slot(d)) || op == Sub(y, Slot(d)) || op == IMul(y, Slot(d))
    requires x.Slot? && y.Slot? && y != Slot(d) && x != Slot(d)
    ensures var e := Exec(Arithmetic(op, x, Slot(d)), m);
            e.Some? && GetSlot(e.value, d) == Wrap64(if op.Add? then Get(m, x) + Get(m, y)
                                                     else if op.Sub? then Get(m, x) - Get(m, y)
                                                     else Get(m, x) * Get(m, y))
  {
    var ins := Arithmetic(op, x, Slot(d));
    var m1 := Set(m, Slot(d), Get(m, x));
    assert ins == [Mov(x, Slot(d)), op] && ins[1..] == [op] && [op][1..] == [];
    assert Get(m1, y) == Get(m, y);
    var m2 := Effect(op, m1).value;
    assert Exec([op][1..], m2) == Some(m2);
    assert Exec(ins[1..], m1) == Some(m2);
  }

  lemma ComparisonResult(cond: Cond, x: Operand, y: Operand, d: int, m: Core)
    requires x.Slot? && y.Slot?
    ensures var e := Exec(Comparison(cond, x, y, Slot(d)), m);
            e.Some? && GetSlot(e.value, d) == Truth(Holds(cond, Get(m, x), Get(m, y)))
  {
    hide XorWord, XorNat, Unsigned, Wrap64;
    var ins := Comparison(cond, x, y, Slot(d));
    ClearRax(m);
    var m1 := SetResult(m, R(Rax), 0);
    var m2 := SetReg(m1, Rdx, Get(m, x));
    var m3 := m2.(flags := (Get(m, x), Get(m, y)));
    var bit := Truth(Holds(cond, Get(m, x), Get(m, y)));
    SetBit(m3, cond);
    var m4 := SetReg(m3, Rax, bit);
    var m5 := Set(m4, Slot(d), bit);
    ComparisonSteps(ins, m, m1, m2, m3, m4, m5);
  }

  lemma ClearRax(m: Core)
    ensures Effect(Xor(R(Rax), R(Rax)), m) == Some(SetResult(m, R(Rax), 0))
  {
    XorSelf(Unsigned(GetReg(m, Rax)));
  }

  lemma SetBit(m: Core, cond: Cond)
    requires GetReg(m, Rax) == 0
    ensures Effect(SetAl(cond), m) == Some(SetReg(m, Rax, Truth(Holds(cond, m.flags.0, m.flags.1))))
  {
    WrapFixesWords(Truth(Holds(cond, m.flags.0, m.flags.1)));
  }

  /** setcc writes the lowest byte of Rax and no other. */
  lemma SetsLowByte(m: Core, cond: Cond)
    ensures var before, after := GetReg(m, Rax), GetReg(Effect(SetAl(cond), m).value, Rax);
            after % 256 == Truth(Holds(cond, m.flags.0, m.flags.1)) && after / 256 == before / 256
  {
    var x := GetReg(m, Rax);
    WrapFixesWords(x - x % 256 + Truth(Holds(cond, m.flags.0, m.flags.1)));
  }

  /** Five instructions, one effect each. */
  lemma ComparisonSteps(ins: seq<X64>, m: Core, m1: Core, m2: Core, m3: Core, m4: Core, m5: Core)
    requires |ins| == 5 && forall i :: 0 <= i < |ins| ==> Straight(ins[i])
    requires Effect(ins[0], m) == Some(m1) && Effect(ins[1], m1) == Some(m2) && Effect(ins[2], m2) == Some(m3)
    requires Effect(ins[3], m3) == Some(m4) && Effect(ins[4], m4) == Some(m5)
    ensures Exec(ins, m) == Some(m5)
  {
    hide Effect;
    assert ins[1..][1..] == ins[2..] && ins[2..][1..] == ins[3..] && ins[3..][1..] == ins[4..] && ins[4..][1..] == [];
    assert Exec(ins[4..], m4) == Exec(ins[4..][1..], m5) == Some(m5);
    assert Exec(ins[3..], m3) == Exec(ins[4..], m4);
    assert Exec(ins[2..], m2) == Exec(ins[3..], m3);
    assert Exec(ins[1..], m1) == Exec(ins[2..], m2);
  }

  /**
   Every binary sequence leaves its operator's value in the result slot, except that "<" and "<=" compute
   each other: those two are right exactly when the operands differ.  Division is right whenever it does not
   fault.  The result slot must be neither argument's, which is how the IR generator creates it.
  */
  lemma BinaryIntrinsicIff(op: string, a: int, b: int, dest: int, m: Core)
    requires op in BINARY_OPS && a >= 1 && b >= 1 && dest >= 1 && dest != a && dest != b
    requires var x, y := GetSlot(m, OffsetOf(a)), GetSlot(m, OffsetOf(b));
             op == "/" || op == "%" ==> y != 0 && IsWord(TruncDiv(x, y))
    ensures var x, y := GetSlot(m, OffsetOf(a)), GetSlot(m, OffsetOf(b));
            var ins := Intrinsic(op, [a, b], dest);
            && (forall i :: 0 <= i < |ins| ==> Straight(ins[i]))
            && (Result(op, [a, b], dest, m) == Some(Meaning(op, x, y)) <==> (op == "<" || op == "<=" ==> x != y))
  {
    hide Exec, Effect;
    IntrinsicIsStraight(op, [a, b], dest);
    var sa, sb, d := SlotFor(a), SlotFor(b), OffsetOf(dest);
    if op == "+" {
      ArithmeticResult(Add(sb, Slot(d)), sa, sb, d, m);
    } else if op == "-" {
      ArithmeticResult(Sub(sb, Slot(d)), sa, sb, d, m);
    } else if op == "*" {
      ArithmeticResult(IMul(sb, Slot(d)), sa, sb, d, m);
    } else if op == "/" || op == "%" {
      DivisionRuns(OffsetOf(a), OffsetOf(b), if op == "/" then Rax else Rdx, d, m);
    } else {
      var cond := if op == "==" then CondE else if op == "!=" then CondNE else if op == "<" then CondLE
                  else if op == "<=" then CondL else if op == ">" then CondG else CondGE;
      ComparisonResult(cond, sa, sb, d, m);
    }
  }

  /** Unary minus is negation modulo 2^64: exact except for the minimum, which it maps to itself. */
  lemma UnaryMinusResult(a: int, dest: int, m: Core)
    requires a >= 1 && dest >= 1 && dest != a
    ensures var x: Word := GetSlot(m, OffsetOf(a));
            var e := Exec([Mov(SlotFor(a), SlotFor(dest)), Neg(SlotFor(dest))], m);
            Intrinsic("unary_-", [a], dest) == [Mov(SlotFor(a), SlotFor(dest)), Neg(SlotFor(dest))]
            && e.Some? && GetSlot(e.value, OffsetOf(dest)) == (if x == -TWO_63 then x as int else 0 - x as int)
  {
    var x := GetSlot(m, OffsetOf(a));
    var ins := [Mov(SlotFor(a), SlotFor(dest)), Neg(SlotFor(dest))];
    var m1 := Set(m, SlotFor(dest), x);
    var m2 := Effect(Neg(SlotFor(dest)), m1).value;
    assert ins[1..] == [Neg(SlotFor(dest))] && ins[1..][1..] == [];
    assert Exec(ins[1..][1..], m2) == Some(m2);
    assert Exec(ins[1..], m1) == Some(m2);
    if x != -TWO_63 {
      WrapFixesWords(0 - (x as int));
    }
  }

  /** `not` flips the lowest bit, so it is logical negation exactly on the Booleans 0 and 1. */
  lemma UnaryNotResult(a: int, dest: int, m: Core)
    requires a >= 1 && dest >= 1 && dest != a
    ensures var x: Word := GetSlot(m, OffsetOf(a));
            var e := Exec([Mov(SlotFor(a), SlotFor(dest)), Xor(Imm(1), SlotFor(dest))], m);
            Intrinsic("unary_not", [a], dest) == [Mov(SlotFor(a), SlotFor(dest)), Xor(Imm(1), SlotFor(dest))]
            && e.Some? && (GetSlot(e.value, OffsetOf(dest)) == Truth(x == 0) <==> x == 0 || x == 1)
  {
    var x := GetSlot(m, OffsetOf(a));
    var ins := [Mov(SlotFor(a), SlotFor(dest)), Xor(Imm(1), SlotFor(dest))];
    var m1 := Set(m, SlotFor(dest), x);
    var m2 := SetResult(m1, SlotFor(dest), XorWord(x, 1));
    assert ins[1..] == [Xor(Imm(1), SlotFor(dest))] && ins[1..][1..] == [];
    assert Exec(ins[1..][1..], m2) == Some(m2);
    assert Exec(ins[1..], m1) == Some(m2);
    XorOne(x);
  }

  /** External functions that answer a call of an operator with the operator's value. */
  ghost predicate Interprets(o: Oracle) {
    forall tr: Trace, op: string, x: Word, y: Word ::
      op in BINARY_OPS && (op == "/" || op == "%" ==> y != 0 && IsWord(TruncDiv(x, y))) ==> o(tr, op, [x, y]) == Meaning(op, x, y)
  }

  /** The IR is about to call a binary operator on these values, and no division is bad. */
  predicate CallsOperator(p: Prog, c: Cfg, op: string, a: int, b: int, dest: int) {
    && !Halted(p, c) && p.code[c.pc].CallFn? && Ready(p.code[c.pc], |p.vars|, 0)
    && p.code[c.pc].args == [a, b] && p.code[c.pc].dest == dest && dest >= 1
    && p.vars[p.code[c.pc].fn].name == op && op in BINARY_OPS && a in c.store && b in c.store
    && (op == "/" || op == "%" ==> c.store[b] != 0 && IsWord(TruncDiv(c.store[a], c.store[b])))
  }

  /**
   What the sequences would do if no call followed them.  Where operators are answered by their meaning, the sequence of
   an operator alone leaves every variable as the IR's step does, except "<" and "<=" between equal operands.
  */
  lemma SequenceIsStep(p: Prog, o: Oracle, c: Cfg, m: Core, op: string, a: int, b: int, dest: int)
    requires CallsOperator(p, c, op, a, b, dest) && Interprets(o) && SlotRel(c.store, m)
    ensures Step(p, o, c).Some?
    ensures var ins := Intrinsic(op, [a, b], dest); forall i :: 0 <= i < |ins| ==> Straight(ins[i])
    ensures var e := Exec(Intrinsic(op, [a, b], dest), m);
            && e.Some? && e.value.trace == m.trace
            && (SlotRel(Step(p, o, c).value.store, e.value) <==> (op == "<" || op == "<=" ==> c.store[a] != c.store[b]))
  {
    hide Exec, Effect, Intrinsic, Meaning;
    var x, y := c.store[a], c.store[b];
    assert p.code[c.pc].args[0] == a && p.code[c.pc].args[1] == b;
    assert GetSlot(m, OffsetOf(a)) == x && GetSlot(m, OffsetOf(b)) == y;
    if op == "/" || op == "%" {
      QuotientFits(x, y);
    }
    BinaryIntrinsicIff(op, a, b, dest, m);
    IntrinsicHarmless(op, [a, b], dest, m);
    StepAnswer(p, o, c, op, a, b, dest);
    var store, e := Step(p, o, c).value.store, Exec(Intrinsic(op, [a, b], dest), m).value;
    if GetSlot(e, OffsetOf(dest)) == store[dest] {
      SlotRelWrite(c.store, m, dest, store[dest], e);
    }
  }

  lemma StepAnswer(p: Prog, o: Oracle, c: Cfg, op: string, a: int, b: int, dest: int)
    requires CallsOperator(p, c, op, a, b, dest) && Interprets(o)
    ensures var d := Step(p, o, c); d.Some? && d.value.store == c.store[dest := Meaning(op, c.store[a], c.store[b])]
  {
    hide Meaning;
    assert ReadAll([a, b], c.store) == [c.store[a], c.store[b]];
    var _ := o(c.trace, op, [c.store[a], c.store[b]]);
  }
}
