/**
 Code generation (codegen.c:51-399): the instructions emitted for each IR instruction, as functions; and
 the classes that append them in place, proved to emit exactly those.  Calls are modelled as shipped: an
 operator's intrinsic sequence is followed by an ordinary external call of the same name.
*/
module Codegen {
  import opened Ir
  import opened Machine

  /** The frame slot of an IR variable; UNIT shares the slot of variable 0 (codegen.c:194-204). */
  function SlotFor(v: int): Operand {
    Slot(if v == UNIT_VAR then 8 else (v + 1) * 8)
  }

  /** The text of an operand an intrinsic expects but the call does not pass is left unset. */
  function ArgRef(args: seq<int>, k: nat): Operand {
    if k < |args| then SlotFor(args[k]) else Slot(0)
  }

  function Arithmetic(op: X64, a: Operand, res: Operand): seq<X64> {
    (if res != a then [Mov(a, res)] else []) + [op]
  }

  function Division(a: Operand, b: Operand, from: Reg, res: Operand): seq<X64> {
    [Mov(a, R(Rax)), Cqto, IDiv(b), Mov(R(from), res)]
  }

  function Comparison(cond: Cond, a: Operand, b: Operand, res: Operand): seq<X64> {
    [Xor(R(Rax), R(Rax)), Mov(a, R(Rdx)), Cmp(b, R(Rdx)), SetAl(cond), Mov(R(Rax), res)]
  }

  /** The sequence dispatched on the called name; "<" and "<=" are dispatched crosswise (codegen.c:313-364). */
  function Intrinsic(fn: string, args: seq<int>, dest: int): seq<X64> {
    var a, b, res := ArgRef(args, 0), ArgRef(args, 1), SlotFor(dest);
    if fn == "unary_-" then [Mov(a, res), Neg(res)]
    else if fn == "unary_not" then [Mov(a, res), Xor(Imm(1), res)]
    else if fn == "+" then Arithmetic(Add(b, res), a, res)
    else if fn == "-" then Arithmetic(Sub(b, res), a, res)
    else if fn == "*" then Arithmetic(IMul(b, res), a, res)
    else if fn == "/" then Division(a, b, Rax, res)
    else if fn == "%" then Division(a, b, Rdx, res)
    else if fn == "==" then Comparison(CondE, a, b, res)
    else if fn == "!=" then Comparison(CondNE, a, b, res)
    else if fn == "<" then Comparison(CondLE, a, b, res)
    else if fn == "<=" then Comparison(CondL, a, b, res)
    else if fn == ">" then Comparison(CondG, a, b, res)
    else if fn == ">=" then Comparison(CondGE, a, b, res)
    else []
  }

  /** The first arguments go to the argument registers, in order. */
  function ArgMoves(args: seq<int>): seq<X64> {
    seq(|args|, i requires 0 <= i < |args| => Mov(SlotFor(args[i]), R(if i < 6 then ARG_REGS[i] else Rax)))
  }

  /** More than six arguments: an error is logged and the call is dropped (codegen.c:370-374). */
  function CallCode(fn: string, args: seq<int>, dest: int): seq<X64> {
    Intrinsic(fn, args, dest) +
    (if |args| > 6 then [] else ArgMoves(args) + [CallX(fn, |args|), Mov(R(Rax), SlotFor(dest))])
  }

  /**
   Operands name existing variables, and jumps existing labels; where an operand may be UNIT, it may not as an argument,
   which is looked up as a variable (codegen.c:237): else the vector's check on the index fails.
  */
  predicate Addressable(i: Instr, n: nat, nl: nat) {
    match i
    case LoadBool(_, d) => IsVar(d, n)
    case LoadInt(k, d) => IsWord(k) && IsVar(d, n)
    case Copy(src, d) => IsVar(src, n) && IsVar(d, n)
    case CallFn(fn, args, d) => 0 <= fn < n && IsVar(d, n) && forall j :: 0 <= j < |args| ==> 0 <= args[j] < n
    case Jump(l) => 0 <= l < nl
    case CondJump(c, t, e) => IsVar(c, n) && 0 <= t < nl && 0 <= e < nl
    case Label(l) => 0 <= l < nl
  }

  predicate IsVar(v: int, n: nat) {
    n > 0 && (v == UNIT_VAR || 0 <= v < n)
  }

  predicate AllAddressable(code: seq<Instr>, n: nat, nl: nat) {
    forall k :: 0 <= k < |code| ==> Addressable(code[k], n, nl)
  }

  function InstrCode(i: Instr, vars: seq<IrVar>, labels: seq<string>): seq<X64>
    requires Addressable(i, |vars|, |labels|)
  {
    match i
    case LoadBool(b, d) => [Mov(Imm(if b then 1 else 0), SlotFor(d))]
    case LoadInt(k, d) => [Mov(Imm(k), SlotFor(d))]
    case Copy(src, d) => [Mov(SlotFor(src), R(Rax)), Mov(R(Rax), SlotFor(d))]
    case CallFn(fn, args, d) => CallCode(vars[fn].name, args, d)
    case Jump(l) => [Jmp(labels[l])]
    case CondJump(c, t, e) => [Cmp(Imm(0), SlotFor(c)), Jne(labels[t]), Jmp(labels[e])]
    case Label(l) => [Def(labels[l])]
  }

  function Assemble(code: seq<Instr>, vars: seq<IrVar>, labels: seq<string>): seq<X64>
    requires AllAddressable(code, |vars|, |labels|)
  {
    if code == [] then [] else InstrCode(code[0], vars, labels) + Assemble(code[1..], vars, labels)
  }

  lemma {:induction false} AssembleAppend(code: seq<Instr>, i: Instr, vars: seq<IrVar>, labels: seq<string>)
    requires AllAddressable(code + [i], |vars|, |labels|)
    ensures AllAddressable(code, |vars|, |labels|) && Addressable(i, |vars|, |labels|)
    ensures Assemble(code + [i], vars, labels) == Assemble(code, vars, labels) + InstrCode(i, vars, labels)
  {
    hide InstrCode, Addressable;
    assert (code + [i])[|code|] == i;
    assert forall k :: 0 <= k < |code| ==> (code + [i])[k] == code[k];
    if code == [] {
      assert code + [i] == [i];
    } else {
      assert (code + [i])[1..] == code[1..] + [i];
      AssembleAppend(code[1..], i, vars, labels);
    }
  }

  class Locals {
    var locations: seq<int>
    var stackUsed: nat

    constructor ()
      ensures locations == [] && stackUsed == 0
    {
      locations, stackUsed := [], 0;
    }

    /** Slot -8(idx + 1)(%rbp) for every named variable (codegen.c:173-192). */
    method InitLocals(vars: seq<IrVar>)
      modifies this
      ensures |locations| == |vars|
      ensures forall i :: 0 <= i < |vars| && vars[i].name != "" ==> locations[i] == (i + 1) * 8
      ensures (forall i :: 0 <= i < |vars| ==> vars[i].name != "") ==> stackUsed == old(stackUsed) + 8 * |vars|
    {
      locations := seq(|vars|, _ => 0);
      var idx := 0;
      while idx < |vars|
        invariant 0 <= idx <= |vars| == |locations|
        invariant forall i :: 0 <= i < idx && vars[i].name != "" ==> locations[i] == (i + 1) * 8
        invariant (forall i :: 0 <= i < idx ==> vars[i].name != "") ==> stackUsed == old(stackUsed) + 8 * idx
      {
        if vars[idx].name != "" {
          locations := locations[idx := (idx + 1) * 8];
          stackUsed := stackUsed + 8;
        }
        idx := idx + 1;
      }
    }

    predicate Holds(n: nat)
      reads this
    {
      |locations| == n && forall i :: 0 <= i < n ==> locations[i] == (i + 1) * 8
    }

    method GetStackSlot(v: int, n: nat) returns (x: Operand)
      requires Holds(n) && IsVar(v, n)
      ensures x == SlotFor(v)
    {
      x := Slot(if v == UNIT_VAR then locations[0] else locations[v]);
    }
  }

  class Assembly {
    var instructions: seq<X64>

    constructor ()
      ensures instructions == []
    {
      instructions := [];
    }

    method EmitLine(i: X64)
      modifies this
      ensures instructions == old(instructions) + [i]
    {
      instructions := instructions + [i];
    }

    /** cabor_intr_plus, cabor_intr_minus and cabor_intr_multiply. */
    method IntrArithmetic(op: X64, a: Operand, res: Operand)
      modifies this
      ensures instructions == old(instructions) + Arithmetic(op, a, res)
    {
      if res != a {
        EmitLine(Mov(a, res));
      }
      EmitLine(op);
    }

    method IntrDivision(a: Operand, b: Operand, from: Reg, res: Operand)
      modifies this
      ensures instructions == old(instructions) + Division(a, b, from, res)
    {
      EmitLine(Mov(a, R(Rax)));
      EmitLine(Cqto);
      EmitLine(IDiv(b));
      EmitLine(Mov(R(from), res));
    }

    method IntrComparison(cond: Cond, a: Operand, b: Operand, res: Operand)
      modifies this
      ensures instructions == old(instructions) + Comparison(cond, a, b, res)
    {
      EmitLine(Xor(R(Rax), R(Rax)));
      EmitLine(Mov(a, R(Rdx)));
      EmitLine(Cmp(b, R(Rdx)));
      EmitLine(SetAl(cond));
      EmitLine(Mov(R(Rax), res));
    }

    method EmitIntrinsic(fn: string, args: seq<int>, dest: int)
      modifies this
      ensures instructions == old(instructions) + Intrinsic(fn, args, dest)
    {
      var a, b, res := ArgRef(args, 0), ArgRef(args, 1), SlotFor(dest);
      if fn == "unary_-" {
        EmitLine(Mov(a, res));
        EmitLine(Neg(res));
      } else if fn == "unary_not" {
        EmitLine(Mov(a, res));
        EmitLine(Xor(Imm(1), res));
      } else if fn == "+" {
        IntrArithmetic(Add(b, res), a, res);
      } else if fn == "-" {
        IntrArithmetic(Sub(b, res), a, res);
      } else if fn == "*" {
        IntrArithmetic(IMul(b, res), a, res);
      } else if fn == "/" {
        IntrDivision(a, b, Rax, res);
      } else if fn == "%" {
        IntrDivision(a, b, Rdx, res);
      } else if fn == "==" {
        IntrComparison(CondE, a, b, res);
      } else if fn == "!=" {
        IntrComparison(CondNE, a, b, res);
      } else if fn == "<" {
        IntrComparison(CondLE, a, b, res);
      } else if fn == "<=" {
        IntrComparison(CondL, a, b, res);
      } else if fn == ">" {
        IntrComparison(CondG, a, b, res);
      } else if fn == ">=" {
        IntrComparison(CondGE, a, b, res);
      }
    }

    method EmitCallInstr(fn: string, args: seq<int>, dest: int, locals: Locals, n: nat)
      requires locals.Holds(n) && IsVar(dest, n) && forall j :: 0 <= j < |args| ==> 0 <= args[j] < n
      modifies this
      ensures instructions == old(instructions) + CallCode(fn, args, dest)
    {
      EmitIntrinsic(fn, args, dest);
      if |args| > 6 {
        return;
      }
      ghost var base := instructions;
      var i := 0;
      while i < |args|
        invariant 0 <= i <= |args| && locals.Holds(n)
        invariant instructions == base + ArgMoves(args)[..i]
      {
        var slot := locals.GetStackSlot(args[i], n);
        EmitLine(Mov(slot, R(ARG_REGS[i])));
        i := i + 1;
      }
      assert ArgMoves(args)[..i] == ArgMoves(args);
      EmitLine(CallX(fn, |args|));
      var slot := locals.GetStackSlot(dest, n);
      EmitLine(Mov(R(Rax), slot));
    }

    /** cabor_generate_assembly's body for one instruction. */
    method EmitInstr(i: Instr, vars: seq<IrVar>, labels: seq<string>, locals: Locals)
      requires locals.Holds(|vars|) && Addressable(i, |vars|, |labels|)
      modifies this
      ensures instructions == old(instructions) + InstrCode(i, vars, labels)
    {
      match i {
        case LoadBool(b, d) =>
          var dest := locals.GetStackSlot(d, |vars|);
          EmitLine(Mov(Imm(if b then 1 else 0), dest));
        case LoadInt(k, d) =>
          var dest := locals.GetStackSlot(d, |vars|);
          EmitLine(Mov(Imm(k), dest));
        case Copy(src, d) =>
          var from := locals.GetStackSlot(src, |vars|);
          var dest := locals.GetStackSlot(d, |vars|);
          EmitLine(Mov(from, R(Rax)));
          EmitLine(Mov(R(Rax), dest));
        case CallFn(fn, args, d) =>
          EmitCallInstr(vars[fn].name, args, d, locals, |vars|);
        case Jump(l) =>
          EmitLine(Jmp(labels[l]));
        case CondJump(c, t, e) =>
          var cond := locals.GetStackSlot(c, |vars|);
          EmitLine(Cmp(Imm(0), cond));
          EmitLine(Jne(labels[t]));
          EmitLine(Jmp(labels[e]));
        case Label(l) =>
          EmitLine(Def(labels[l]));
      }
    }

    method GenerateAssembly(code: seq<Instr>, vars: seq<IrVar>, labels: seq<string>, locals: Locals)
      requires locals.Holds(|vars|) && AllAddressable(code, |vars|, |labels|)
      modifies this
      ensures instructions == old(instructions) + Assemble(code, vars, labels)
    {
      hide Addressable, InstrCode;
      var idx := 0;
      assert code[..0] == [];
      while idx < |code|
        invariant 0 <= idx <= |code| && locals.Holds(|vars|)
        invariant AllAddressable(code[..idx], |vars|, |labels|)
        invariant instructions == old(instructions) + Assemble(code[..idx], vars, labels)
      {
        EmitInstr(code[idx], vars, labels, locals);
        assert code[..idx + 1] == code[..idx] + [code[idx]];
        assert AllAddressable(code[..idx + 1], |vars|, |labels|);
        AssembleAppend(code[..idx], code[idx], vars, labels);
        idx := idx + 1;
      }
      assert code[..idx] == code;
    }
  }
}
