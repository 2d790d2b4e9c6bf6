/**
 Generated assembly simulates the IR: each IR step is matched by its emitted instructions, which keep the
 value of every IR variable in its own slot, make the same external calls, and jump to the matching place.
*/
module CodegenMeaning {
  import opened Words
  import opened SourceSemantics
  import opened Ir
  import opened Machine
  import opened Codegen

  /** Where the code of instruction k starts. */
  function Pos(code: seq<Instr>, k: nat, vars: seq<IrVar>, labels: seq<string>): nat
    requires AllAddressable(code, |vars|, |labels|) && k <= |code|
  {
    if k == 0 then 0 else |InstrCode(code[0], vars, labels)| + Pos(code[1..], k - 1, vars, labels)
  }

  lemma {:induction false} AssembleAt(code: seq<Instr>, k: nat, vars: seq<IrVar>, labels: seq<string>)
    requires AllAddressable(code, |vars|, |labels|) && k < |code|
    ensures CodeAt(Assemble(code, vars, labels), Pos(code, k, vars, labels), InstrCode(code[k], vars, labels))
    ensures Pos(code, k + 1, vars, labels) == Pos(code, k, vars, labels) + |InstrCode(code[k], vars, labels)|
    decreases k
  {
    hide InstrCode, Addressable;
    var asm, rest := Assemble(code, vars, labels), Assemble(code[1..], vars, labels);
    if k > 0 {
      var first, ins := InstrCode(code[0], vars, labels), InstrCode(code[k], vars, labels);
      AssembleAt(code[1..], k - 1, vars, labels);
      var q := Pos(code[1..], k - 1, vars, labels);
      SliceShift(first, rest, q, |ins|);
      assert asm == first + rest;
    }
  }

  lemma SliceShift(a: seq<X64>, b: seq<X64>, q: nat, n: nat)
    requires q + n <= |b|
    ensures (a + b)[|a| + q..|a| + q + n] == b[q..q + n]
  {
  }

  lemma {:induction false} PosEnd(code: seq<Instr>, vars: seq<IrVar>, labels: seq<string>)
    requires AllAddressable(code, |vars|, |labels|)
    ensures Pos(code, |code|, vars, labels) == |Assemble(code, vars, labels)|
    decreases |code|
  {
    hide InstrCode, Addressable;
    if code != [] {
      PosEnd(code[1..], vars, labels);
    }
  }

  predicate DistinctNames(labels: seq<string>) {
    forall i, j :: 0 <= i < j < |labels| ==> labels[i] != labels[j]
  }

  lemma {:induction false} FindDefSkip(ins: seq<X64>, rest: seq<X64>, name: string)
    requires Def(name) !in ins
    ensures FindDef(ins + rest, name) == match FindDef(rest, name)
                                         case None => None
                                         case Some(k) => Some(k + |ins|)
    decreases |ins|
  {
    if ins == [] {
      assert ins + rest == rest;
    } else {
      assert (ins + rest)[1..] == ins[1..] + rest;
      FindDefSkip(ins[1..], rest, name);
    }
  }

  lemma NoDefs(i: Instr, vars: seq<IrVar>, labels: seq<string>, name: string)
    requires Addressable(i, |vars|, |labels|) && !i.Label?
    ensures Def(name) !in InstrCode(i, vars, labels)
  {
    if i.CallFn? {
      assert Def(name) !in Intrinsic(vars[i.fn].name, i.args, i.dest);
      assert Def(name) !in ArgMoves(i.args);
    }
  }

  lemma OtherCode(i: Instr, l: nat, vars: seq<IrVar>, labels: seq<string>)
    requires Addressable(i, |vars|, |labels|) && l < |labels| && DistinctNames(labels)
    ensures i == Label(l) ==> InstrCode(i, vars, labels) == [Def(labels[l])]
    ensures i != Label(l) ==> Def(labels[l]) !in InstrCode(i, vars, labels)
  {
    if !i.Label? {
      NoDefs(i, vars, labels, labels[l]);
    }
  }

  /** With distinct label names, the assembler finds a name exactly where the IR finds the label. */
  lemma {:induction false} FindDefIsFindLabel(code: seq<Instr>, l: nat, vars: seq<IrVar>, labels: seq<string>)
    requires AllAddressable(code, |vars|, |labels|) && l < |labels| && DistinctNames(labels)
    ensures FindDef(Assemble(code, vars, labels), labels[l]) == match FindLabel(code, l)
                                                                case None => None
                                                                case Some(k) => Some(Pos(code, k, vars, labels))
    decreases |code|
  {
    hide InstrCode, Addressable;
    if code != [] {
      var first, rest := InstrCode(code[0], vars, labels), Assemble(code[1..], vars, labels);
      FindDefIsFindLabel(code[1..], l, vars, labels);
      OtherCode(code[0], l, vars, labels);
      if code[0] == Label(l) {
        assert (first + rest)[0] == Def(labels[l]);
      } else {
        FindDefSkip(first, rest, labels[l]);
      }
    }
  }

  function OffsetOf(v: int): int {
    if v == UNIT_VAR then 8 else (v + 1) * 8
  }

  /** Every variable written so far is in its slot; only UNIT may share slot 8. */
  ghost predicate SlotRel(store: Store, m: Core) {
    forall v :: v in store && v != UNIT_VAR ==> v >= 1 && GetSlot(m, (v + 1) * 8) == store[v]
  }

  predicate Written(v: int) {
    v == UNIT_VAR || v >= 1
  }

  /** What code generation needs: slot 0 is never read as a value, and a call's result is not an argument. */
  predicate Ready(i: Instr, n: nat, nl: nat) {
    && Addressable(i, n, nl)
    && match i
       case LoadBool(_, d) => Written(d)
       case LoadInt(_, d) => Written(d)
       case Copy(src, d) => src >= 1 && Written(d)
       case CallFn(_, args, d) => Written(d) && |args| <= 6 && forall j :: 0 <= j < |args| ==> args[j] >= 1 && args[j] != d
       case CondJump(c, _, _) => c >= 1
       case _ => true
  }

  ghost predicate AllReady(code: seq<Instr>, n: nat, nl: nat) {
    forall k :: 0 <= k < |code| ==> Ready(code[k], n, nl)
  }

  lemma SlotRelWrite(store: Store, m: Core, d: int, w: Word, e: Core)
    requires SlotRel(store, m) && Written(d)
    requires GetSlot(e, OffsetOf(d)) == w
    requires forall k :: k != OffsetOf(d) ==> GetSlot(e, k) == GetSlot(m, k)
    ensures SlotRel(store[d := w], e)
  {
  }

  /** Division events whose intrinsic sequence does not fault. */
  predicate DivSafeEvent(e: Event) {
    e.callee == "/" || e.callee == "%" ==>
      |e.args| >= 2 && e.args[1] != 0 && !(e.args[0] == -TWO_63 && e.args[1] == -1)
  }

  predicate DivSafe(tr: Trace) {
    forall i :: 0 <= i < |tr| ==> DivSafeEvent(tr[i])
  }

  lemma QuotientFits(x: Word, y: Word)
    requires y != 0
    ensures IsWord(TruncDiv(x, y)) <==> !(x == -TWO_63 && y == -1)
  {
    QuotientBound(Abs(x), Abs(y));
    if Abs(y) == 1 {
      assert Abs(x) / 1 == Abs(x);
    }
  }

  lemma MulAtLeast(b: nat, q: nat, c: nat)
    requires b >= c
    ensures b * q >= c * q
  {
  }

  lemma QuotientBound(a: nat, b: nat)
    requires b != 0
    ensures 0 <= a / b <= a
    ensures b > 1 && a > 0 ==> a / b < a
  {
    var q: nat := a / b;
    assert a == b * q + a % b;
    MulAtLeast(b, q, if b > 1 then 2 else 1);
  }

  /** The dividend made by cqto. */
  lemma SignExtended(m: Core, x: Word)
    ensures Dividend(SetReg(SetReg(m, Rax, x), Rdx, if x < 0 then -1 else 0)) == x
  {
  }

  /** The division sequence faults exactly on a zero divisor or an unrepresentable quotient. */
  lemma DivisionRuns(a: int, b: int, from: Reg, res: int, m: Core)
    ensures var x, y := GetSlot(m, a), GetSlot(m, b);
            Exec(Division(Slot(a), Slot(b), from, Slot(res)), m).Some? <==> y != 0 && IsWord(TruncDiv(x, y))
    ensures var x, y := GetSlot(m, a), GetSlot(m, b);
            y != 0 && IsWord(TruncDiv(x, y)) ==>
            var e := Exec(Division(Slot(a), Slot(b), from, Slot(res)), m).value;
            GetSlot(e, res) == (if from == Rax then TruncDiv(x, y)
                                else if from == Rdx then Wrap64(TruncRem(x, y)) else GetReg(m, from))
  {
    hide Dividend, TruncDiv, TruncRem, Wrap64, Exec, Division;
    var x, y := GetSlot(m, a), GetSlot(m, b);
    var m2 := SetReg(SetReg(m, Rax, x), Rdx, if x < 0 then -1 else 0);
    SignExtended(m, x);
    DivisionStart(a, b, from, res, m);
    DivisionEnd(b, from, res, m2);
  }

  lemma DivisionStart(a: int, b: int, from: Reg, res: int, m: Core)
    ensures var x := GetSlot(m, a);
            Exec(Division(Slot(a), Slot(b), from, Slot(res)), m)
            == Exec([IDiv(Slot(b)), Mov(R(from), Slot(res))], SetReg(SetReg(m, Rax, x), Rdx, if x < 0 then -1 else 0))
  {
    var ins, x := Division(Slot(a), Slot(b), from, Slot(res)), GetSlot(m, a);
    var m1 := SetReg(m, Rax, x);
    assert ins[1..][1..] == [IDiv(Slot(b)), Mov(R(from), Slot(res))];
    assert Exec(ins, m) == Exec(ins[1..], m1);
  }

  lemma DivisionEnd(b: int, from: Reg, res: int, m: Core)
    ensures var y := GetSlot(m, b);
            Exec([IDiv(Slot(b)), Mov(R(from), Slot(res))], m)
            == if DivFaults(m, y) then None
               else var q := SetReg(SetReg(m, Rax, TruncDiv(Dividend(m), y)), Rdx, Wrap64(TruncRem(Dividend(m), y)));
                    Some(Set(q, Slot(res), GetReg(q, from)))
  {
    hide Dividend, TruncDiv, TruncRem, Wrap64;
    var ins, y := [IDiv(Slot(b)), Mov(R(from), Slot(res))], GetSlot(m, b);
    assert ins[1..] == [Mov(R(from), Slot(res))] && ins[1..][1..] == [];
    if !DivFaults(m, y) {
      var q := SetReg(SetReg(m, Rax, TruncDiv(Dividend(m), y)), Rdx, Wrap64(TruncRem(Dividend(m), y)));
      assert Exec(ins, m) == Exec(ins[1..], q);
    }
  }

  lemma IntrinsicStraight(fn: string, args: seq<int>, dest: int, k: int)
    requires k != OffsetOf(dest)
    ensures var ins := Intrinsic(fn, args, dest);
            forall i :: 0 <= i < |ins| ==> Straight(ins[i]) && KeepsSlot(ins[i], k)
  {
  }

  /** Whatever an intrinsic sequence computes, it runs to its end and disturbs only the result's slot. */
  lemma IntrinsicHarmless(fn: string, args: seq<int>, dest: int, m: Core)
    requires fn == "/" || fn == "%" ==>
             |args| >= 2 && var x, y := GetSlot(m, OffsetOf(args[0])), GetSlot(m, OffsetOf(args[1]));
                            y != 0 && !(x == -TWO_63 && y == -1)
    ensures var ins := Intrinsic(fn, args, dest);
            && (forall i :: 0 <= i < |ins| ==> Straight(ins[i]))
            && Exec(ins, m).Some?
            && var e := Exec(ins, m).value;
               e.trace == m.trace && forall k :: k != OffsetOf(dest) ==> GetSlot(e, k) == GetSlot(m, k)
  {
    hide Effect;
    var ins := Intrinsic(fn, args, dest);
    IntrinsicStraight(fn, args, dest, OffsetOf(dest) + 1);
    if fn == "/" || fn == "%" {
      QuotientFits(GetSlot(m, OffsetOf(args[0])), GetSlot(m, OffsetOf(args[1])));
      DivisionRuns(OffsetOf(args[0]), OffsetOf(args[1]), if fn == "/" then Rax else Rdx, OffsetOf(dest), m);
    } else {
      assert forall i :: 0 <= i < |ins| ==> !ins[i].IDiv?;
      ExecTotal(ins, m);
    }
    ExecKeeps(ins, m, OffsetOf(dest) + 1) by { }
    forall k | k != OffsetOf(dest)
      ensures GetSlot(Exec(ins, m).value, k) == GetSlot(m, k)
    {
      IntrinsicStraight(fn, args, dest, k);
      ExecKeeps(ins, m, k);
    }
  }

  lemma ArgRegsDistinct(i: nat, j: nat)
    requires i < j < 6
    ensures ARG_REGS[i] != ARG_REGS[j]
  {
  }

  /** The argument moves put each argument's value in its register. */
  lemma {:induction false} ArgMovesEffect(args: seq<int>, m: Core, j: nat)
    requires j <= |args| <= 6
    ensures var ins := ArgMoves(args)[..j];
            && (forall i :: 0 <= i < |ins| ==> Straight(ins[i]))
            && Exec(ins, m).Some?
            && var e := Exec(ins, m).value;
               && e.trace == m.trace && e.mem == m.mem
               && forall i :: 0 <= i < j ==> GetReg(e, ARG_REGS[i]) == GetSlot(m, OffsetOf(args[i]))
    decreases j
  {
    if j > 0 {
      ArgMovesEffect(args, m, j - 1);
      var ins, move := ArgMoves(args)[..j - 1], Mov(SlotFor(args[j - 1]), R(ARG_REGS[j - 1]));
      assert ArgMoves(args)[..j] == ins + [move];
      ExecThen(ins, [move], m);
      var e := Exec(ins, m).value;
      var f := SetReg(e, ARG_REGS[j - 1], GetSlot(m, OffsetOf(args[j - 1])));
      assert Exec([move], e) == Some(f) by { assert Exec([move][1..], f) == Some(f); }
      forall i | 0 <= i < j
        ensures GetReg(f, ARG_REGS[i]) == GetSlot(m, OffsetOf(args[i]))
      {
        if i < j - 1 {
          ArgRegsDistinct(i, j - 1);
        }
      }
    }
  }

  /** The System V AMD64 ABI (section 3.2.3) by name: which register holds which argument when a call is made. */
  lemma ArgumentRegisters(args: seq<int>, m: Core)
    requires |args| <= 6
    ensures var ins := ArgMoves(args);
            && (forall i :: 0 <= i < |ins| ==> Straight(ins[i]))
            && Exec(ins, m).Some?
            && var e := Exec(ins, m).value;
               && (|args| > 0 ==> GetReg(e, Rdi) == GetSlot(m, OffsetOf(args[0])))
               && (|args| > 1 ==> GetReg(e, Rsi) == GetSlot(m, OffsetOf(args[1])))
               && (|args| > 2 ==> GetReg(e, Rdx) == GetSlot(m, OffsetOf(args[2])))
               && (|args| > 3 ==> GetReg(e, Rcx) == GetSlot(m, OffsetOf(args[3])))
               && (|args| > 4 ==> GetReg(e, R8) == GetSlot(m, OffsetOf(args[4])))
               && (|args| > 5 ==> GetReg(e, R9) == GetSlot(m, OffsetOf(args[5])))
  {
    hide Exec, Effect, ArgMoves;
    ArgMovesLength(args);
    ArgMovesEffect(args, m, |args|);
    RegisterNames();
  }

  lemma RegisterNames()
    ensures ARG_REGS == [Rdi, Rsi, Rdx, Rcx, R8, R9]
  {
  }

  /** What an external call passes on, by name: the first registers, in this order; its answer comes back in Rax. */
  lemma CallPasses(w: World, m: Core, callee: string, k: nat)
    requires k <= 6
    ensures var args := [GetReg(m, Rdi), GetReg(m, Rsi), GetReg(m, Rdx), GetReg(m, Rcx), GetReg(m, R8), GetReg(m, R9)][..k];
            var e := CallEffect(w, m, callee, k);
            var answer := w.oracle(m.trace, callee, args);
            e.trace == m.trace + [Event(callee, args, answer)] && GetReg(e, Rax) == answer && e.mem == m.mem
  {
    var args := [GetReg(m, Rdi), GetReg(m, Rsi), GetReg(m, Rdx), GetReg(m, Rcx), GetReg(m, R8), GetReg(m, R9)][..k];
    assert ArgValues(m, k) == args;
  }

  lemma CodeAtSplit(asm: seq<X64>, pc: nat, a: seq<X64>, b: seq<X64>)
    requires CodeAt(asm, pc, a + b)
    ensures CodeAt(asm, pc, a) && CodeAt(asm, pc + |a|, b)
  {
    assert asm[pc..pc + |a|] == (a + b)[..|a|];
    assert asm[pc + |a|..pc + |a| + |b|] == (a + b)[|a|..];
  }

  /** No called name is a label's: the assembler would take the call for one of the program itself. */
  predicate NoLabelCalled(p: Prog, labels: seq<string>) {
    forall k :: 0 <= k < |p.code| && p.code[k].CallFn? && 0 <= p.code[k].fn < |p.vars| ==> p.vars[p.code[k].fn].name !in labels
  }

  lemma {:induction false} NotPlaced(code: seq<Instr>, vars: seq<IrVar>, labels: seq<string>, name: string)
    requires AllAddressable(code, |vars|, |labels|) && name !in labels
    ensures FindDef(Assemble(code, vars, labels), name).None?
    decreases |code|
  {
    hide InstrCode, Addressable;
    if code != [] {
      NotPlaced(code[1..], vars, labels, name);
      NotDefined(code[0], vars, labels, name);
      FindDefSkip(InstrCode(code[0], vars, labels), Assemble(code[1..], vars, labels), name);
    }
  }

  lemma NotDefined(i: Instr, vars: seq<IrVar>, labels: seq<string>, name: string)
    requires Addressable(i, |vars|, |labels|) && name !in labels
    ensures Def(name) !in InstrCode(i, vars, labels)
  {
    if !i.Label? {
      NoDefs(i, vars, labels, name);
    }
  }

  /** asm is the code generated for program p with these label names. */
  ghost predicate Compiled(p: Prog, labels: seq<string>, asm: seq<X64>) {
    && AllReady(p.code, |p.vars|, |labels|) && DistinctNames(labels) && NoLabelCalled(p, labels)
    && AllAddressable(p.code, |p.vars|, |labels|) && asm == Assemble(p.code, p.vars, labels)
  }

  /** The machine stands at the code of the next IR instruction, with the same calls made and values held. */
  ghost predicate Rel(p: Prog, labels: seq<string>, c: Cfg, m: State) {
    && AllAddressable(p.code, |p.vars|, |labels|) && c.pc <= |p.code|
    && m.pc == Pos(p.code, c.pc, p.vars, labels) && m.core.trace == c.trace && SlotRel(c.store, m.core)
  }

  /** The instruction about to run and its code. */
  lemma AtInstr(p: Prog, labels: seq<string>, asm: seq<X64>, c: Cfg, m: State)
    requires Compiled(p, labels, asm) && Rel(p, labels, c, m) && !Halted(p, c)
    ensures var i := p.code[c.pc];
            && Ready(i, |p.vars|, |labels|)
            && CodeAt(asm, m.pc, InstrCode(i, p.vars, labels))
            && Pos(p.code, c.pc + 1, p.vars, labels) == m.pc + |InstrCode(i, p.vars, labels)|
  {
    AssembleAt(p.code, c.pc, p.vars, labels);
  }

  /** Straight-line code that leaves w in the slot of d and every other slot alone. */
  lemma StoreSim(p: Prog, labels: seq<string>, asm: seq<X64>, w: World, c: Cfg, m: State, ins: seq<X64>, d: int, val: Word)
    returns (e: State)
    requires Compiled(p, labels, asm) && Rel(p, labels, c, m) && !Halted(p, c) && Written(d)
    requires InstrCode(p.code[c.pc], p.vars, labels) == ins && forall i :: 0 <= i < |ins| ==> Straight(ins[i])
    requires Exec(ins, m.core).Some?
    requires var x := Exec(ins, m.core).value;
             x.trace == m.core.trace && GetSlot(x, OffsetOf(d)) == val
             && forall k :: k != OffsetOf(d) ==> GetSlot(x, k) == GetSlot(m.core, k)
    ensures MRun(asm, w, m, |ins|) == Some(e) && Rel(p, labels, Write(c, d, val), e)
  {
    hide Exec, Effect, MRun, Pos, Assemble, InstrCode, Addressable;
    AtInstr(p, labels, asm, c, m);
    RunStraight(asm, w, m, ins);
    e := State(m.pc + |ins|, Exec(ins, m.core).value);
    SlotRelWrite(c.store, m.core, d, val, e.core);
  }

  lemma LoadSim(p: Prog, labels: seq<string>, asm: seq<X64>, w: World, c: Cfg, m: State) returns (k: nat, e: State)
    requires Compiled(p, labels, asm) && Rel(p, labels, c, m) && !Halted(p, c)
    requires p.code[c.pc].LoadBool? || p.code[c.pc].LoadInt?
    ensures k >= 1 && MRun(asm, w, m, k) == Some(e) && Rel(p, labels, Step(p, w.oracle, c).value, e)
  {
    hide MRun, Pos, Assemble;
    var i := p.code[c.pc];
    assert Ready(i, |p.vars|, |labels|);
    var val: Word := if i.LoadBool? then (if i.b then 1 else 0) else i.n;
    WrapFixesWords(val);
    var ins := [Mov(Imm(val), SlotFor(i.dest))];
    assert ins[1..] == [];
    var x := Set(m.core, SlotFor(i.dest), val);
    assert Exec(ins[1..], x) == Some(x);
    e := StoreSim(p, labels, asm, w, c, m, ins, i.dest, val);
    k := 1;
  }

  lemma CopySim(p: Prog, labels: seq<string>, asm: seq<X64>, w: World, c: Cfg, m: State) returns (k: nat, e: State)
    requires Compiled(p, labels, asm) && Rel(p, labels, c, m) && !Halted(p, c)
    requires p.code[c.pc].Copy? && p.code[c.pc].src in c.store
    ensures k >= 1 && MRun(asm, w, m, k) == Some(e) && Rel(p, labels, Step(p, w.oracle, c).value, e)
  {
    hide MRun, Pos, Assemble;
    var i := p.code[c.pc];
    assert Ready(i, |p.vars|, |labels|);
    var val := c.store[i.src];
    var ins := [Mov(SlotFor(i.src), R(Rax)), Mov(R(Rax), SlotFor(i.dest))];
    var x := SetReg(m.core, Rax, val);
    var y := Set(x, SlotFor(i.dest), val);
    assert ins[1..] == [ins[1]] && ins[1..][1..] == [];
    assert Exec(ins[1..][1..], y) == Some(y);
    assert Exec(ins[1..], x) == Some(y);
    e := StoreSim(p, labels, asm, w, c, m, ins, i.dest, val);
    k := 2;
  }

  /** A jump to a label goes where the IR goes. */
  lemma GotoSim(p: Prog, labels: seq<string>, asm: seq<X64>, o: Oracle, c: Cfg, m: State, l: int)
    returns (e: State)
    requires Compiled(p, labels, asm) && c.pc <= |p.code| && m.core.trace == c.trace && SlotRel(c.store, m.core)
    requires 0 <= l < |labels| && Ir.Goto(p, c, l).Some?
    ensures Machine.Goto(asm, m, labels[l]) == Some(e) && Rel(p, labels, Ir.Goto(p, c, l).value, e)
  {
    hide Pos, Assemble, FindDef, FindLabel;
    FindDefIsFindLabel(p.code, l, p.vars, labels);
    e := m.(pc := FindDef(asm, labels[l]).value);
  }

  lemma JumpSim(p: Prog, labels: seq<string>, asm: seq<X64>, w: World, c: Cfg, m: State) returns (k: nat, e: State)
    requires Compiled(p, labels, asm) && Rel(p, labels, c, m) && !Halted(p, c)
    requires p.code[c.pc].Jump? || p.code[c.pc].Label?
    requires Step(p, w.oracle, c).Some?
    ensures k >= 1 && MRun(asm, w, m, k) == Some(e) && Rel(p, labels, Step(p, w.oracle, c).value, e)
  {
    hide Pos, Assemble, FindDef, FindLabel;
    AtInstr(p, labels, asm, c, m);
    var i := p.code[c.pc];
    MRunOne(asm, w, m, 0, m);
    k := 1;
    if i.Jump? {
      assert asm[m.pc] == Jmp(labels[i.target]);
      e := GotoSim(p, labels, asm, w.oracle, c, m, i.target);
    } else {
      assert asm[m.pc] == Def(labels[i.l]);
      e := m.(pc := m.pc + 1);
    }
  }

  lemma CondSim(p: Prog, labels: seq<string>, asm: seq<X64>, w: World, c: Cfg, m: State) returns (k: nat, e: State)
    requires Compiled(p, labels, asm) && Rel(p, labels, c, m) && !Halted(p, c)
    requires p.code[c.pc].CondJump? && Step(p, w.oracle, c).Some?
    ensures k >= 1 && MRun(asm, w, m, k) == Some(e) && Rel(p, labels, Step(p, w.oracle, c).value, e)
  {
    hide Pos, Assemble, FindDef, FindLabel, MRun;
    AtInstr(p, labels, asm, c, m);
    var i := p.code[c.pc];
    var ins := [Cmp(Imm(0), SlotFor(i.cond)), Jne(labels[i.thenTarget]), Jmp(labels[i.elseTarget])];
    assert asm[m.pc] == ins[0] && asm[m.pc + 1] == ins[1] && asm[m.pc + 2] == ins[2];
    MRunNone(asm, w, m);
    MRunOne(asm, w, m, 0, m);
    var m1 := State(m.pc + 1, m.core.(flags := (c.store[i.cond], 0)));
    assert MStep(asm, w, m) == Some(m1);
    MRunOne(asm, w, m, 1, m1);
    if c.store[i.cond] != 0 {
      e := GotoSim(p, labels, asm, w.oracle, c, m1, i.thenTarget);
      k := 2;
    } else {
      var m2 := m1.(pc := m.pc + 2);
      assert MStep(asm, w, m1) == Some(m2);
      MRunOne(asm, w, m, 2, m2);
      e := GotoSim(p, labels, asm, w.oracle, c, m2, i.elseTarget);
      k := 3;
    }
  }

  lemma MRunNone(asm: seq<X64>, w: World, m: State)
    ensures MRun(asm, w, m, 0) == Some(m)
  {
  }

  /**
   An external call: the intrinsic sequence (if any), the argument moves, the call, and the result's move.  So whatever
   the intrinsic computed, the result's slot holds the answer of the external call of the same name.
  */
  lemma CallSim(p: Prog, labels: seq<string>, asm: seq<X64>, w: World, c: Cfg, m: State) returns (k: nat, e: State)
    requires Compiled(p, labels, asm) && Rel(p, labels, c, m) && !Halted(p, c)
    requires p.code[c.pc].CallFn? && Step(p, w.oracle, c).Some? && DivSafe(Step(p, w.oracle, c).value.trace)
    ensures k >= 1 && MRun(asm, w, m, k) == Some(e) && Rel(p, labels, Step(p, w.oracle, c).value, e)
    ensures var i := p.code[c.pc];
            GetSlot(e.core, OffsetOf(i.dest)) == w.oracle(c.trace, p.vars[i.fn].name, ReadAll(i.args, c.store))
  {
    hide Pos, Assemble, FindDef, FindLabel, MRun, CallCode, DivSafe;
    AtInstr(p, labels, asm, c, m);
    var i := p.code[c.pc];
    var name, args := p.vars[i.fn].name, i.args;
    NotPlaced(p.code, p.vars, labels, name);
    var vals := ReadAll(args, c.store);
    ArgsInSlots(args, c.store, m.core);
    var next := Step(p, w.oracle, c).value;
    LastSafe(next.trace, |c.trace|);
    k, e := CallRuns(asm, w, m, name, args, vals, i.dest);
    SlotRelWrite(c.store, m.core, i.dest, GetSlot(e.core, OffsetOf(i.dest)), e.core);
  }

  lemma LastSafe(tr: Trace, i: nat)
    requires DivSafe(tr) && i < |tr|
    ensures DivSafeEvent(tr[i])
  {
  }

  /** The code of a call, from arguments in their slots to the answer in the result's. */
  lemma CallRuns(asm: seq<X64>, w: World, m: State, name: string, args: seq<int>, vals: seq<Word>, dest: int)
    returns (k: nat, e: State)
    requires CodeAt(asm, m.pc, CallCode(name, args, dest)) && FindDef(asm, name).None?
    requires |vals| == |args| <= 6
    requires forall j :: 0 <= j < |args| ==> GetSlot(m.core, OffsetOf(args[j])) == vals[j] && OffsetOf(args[j]) != OffsetOf(dest)
    requires name == "/" || name == "%" ==> |vals| >= 2 && vals[1] != 0 && !(vals[0] == -TWO_63 && vals[1] == -1)
    ensures var x := Perform(w.oracle, name, vals, m.core.trace);
            && k >= 1 && MRun(asm, w, m, k) == Some(e) && e.pc == m.pc + |CallCode(name, args, dest)| && e.core.trace == x.trace
            && GetSlot(e.core, OffsetOf(dest)) == x.val
            && forall q :: q != OffsetOf(dest) ==> GetSlot(e.core, q) == GetSlot(m.core, q)
  {
    hide FindDef, MRun, Intrinsic, ArgMoves;
    var ins, moves, tail := Intrinsic(name, args, dest), ArgMoves(args), [CallX(name, |args|), Mov(R(Rax), SlotFor(dest))];
    assert CallCode(name, args, dest) == ins + (moves + tail);
    CodeAtSplit(asm, m.pc, ins, moves + tail);
    CodeAtSplit(asm, m.pc + |ins|, moves, tail);
    var y := ArgsLoaded(asm, w, m, name, args, vals, dest);
    k, e := CallTail(asm, w, m, |ins| + |moves|, State(m.pc + |ins| + |moves|, y), name, args, vals, dest);
  }

  /** Up to the call: the arguments are in their registers. */
  lemma ArgsLoaded(asm: seq<X64>, w: World, m: State, name: string, args: seq<int>, vals: seq<Word>, dest: int) returns (y: Core)
    requires |vals| == |args| <= 6
    requires var ins := Intrinsic(name, args, dest); CodeAt(asm, m.pc, ins) && CodeAt(asm, m.pc + |ins|, ArgMoves(args))
    requires forall j :: 0 <= j < |args| ==> GetSlot(m.core, OffsetOf(args[j])) == vals[j] && OffsetOf(args[j]) != OffsetOf(dest)
    requires name == "/" || name == "%" ==> |vals| >= 2 && vals[1] != 0 && !(vals[0] == -TWO_63 && vals[1] == -1)
    ensures var k := |Intrinsic(name, args, dest)| + |ArgMoves(args)|; MRun(asm, w, m, k) == Some(State(m.pc + k, y))
    ensures ArgValues(y, |args|) == vals && y.trace == m.core.trace
    ensures forall q :: q != OffsetOf(dest) ==> GetSlot(y, q) == GetSlot(m.core, q)
  {
    hide MRun, Exec, Effect, Intrinsic, ArgMoves, ArgValues;
    var ins, moves := Intrinsic(name, args, dest), ArgMoves(args);
    IntrinsicHarmless(name, args, dest, m.core);
    var x := Exec(ins, m.core).value;
    ArgMovesLength(args);
    ArgMovesEffect(args, x, |args|);
    y := Exec(moves, x).value;
    RunStraight(asm, w, m, ins);
    RunStraight(asm, w, State(m.pc + |ins|, x), moves);
    MRunThen(asm, w, m, |ins|, State(m.pc + |ins|, x), |moves|, State(m.pc + |ins| + |moves|, y));
    ArgValuesAre(args, vals, m.core, x, y);
  }

  lemma ArgMovesLength(args: seq<int>)
    ensures |ArgMoves(args)| == |args| && ArgMoves(args)[..|args|] == ArgMoves(args)
  {
  }

  /** Arguments are values, held in slots other than the result's. */
  lemma ArgsInSlots(args: seq<int>, store: Store, m: Core)
    requires SlotRel(store, m) && AllIn(args, store) && forall j :: 0 <= j < |args| ==> args[j] >= 1
    ensures forall j :: 0 <= j < |args| ==> GetSlot(m, OffsetOf(args[j])) == ReadAll(args, store)[j]
  {
  }

  lemma ArgValuesAre(args: seq<int>, vals: seq<Word>, m: Core, x: Core, y: Core)
    requires |vals| == |args| <= 6
    requires forall j :: 0 <= j < |args| ==> GetSlot(m, OffsetOf(args[j])) == vals[j]
    requires forall j :: 0 <= j < |args| ==> GetSlot(x, OffsetOf(args[j])) == GetSlot(m, OffsetOf(args[j]))
    requires forall j :: 0 <= j < |args| ==> GetReg(y, ARG_REGS[j]) == GetSlot(x, OffsetOf(args[j]))
    ensures ArgValues(y, |args|) == vals
  {
    forall j | 0 <= j < |args|
      ensures ArgValues(y, |args|)[j] == vals[j]
    {
    }
  }

  lemma CallTail(asm: seq<X64>, w: World, m: State, j: nat, a: State, name: string, args: seq<int>, vals: seq<Word>, dest: int)
    returns (k: nat, e: State)
    requires MRun(asm, w, m, j) == Some(a) && |args| <= 6 && ArgValues(a.core, |args|) == vals
    requires CodeAt(asm, a.pc, [CallX(name, |args|), Mov(R(Rax), SlotFor(dest))]) && FindDef(asm, name).None?
    ensures var x := Perform(w.oracle, name, vals, a.core.trace);
            && k == j + 2 && MRun(asm, w, m, k) == Some(e) && e.pc == a.pc + 2 && e.core.trace == x.trace
            && GetSlot(e.core, OffsetOf(dest)) == x.val
            && forall q :: q != OffsetOf(dest) ==> GetSlot(e.core, q) == GetSlot(a.core, q)
  {
    hide MRun, FindDef;
    assert asm[a.pc] == asm[a.pc..a.pc + 2][0] && asm[a.pc + 1] == asm[a.pc..a.pc + 2][1];
    MRunOne(asm, w, m, j, a);
    var b := State(a.pc + 1, CallEffect(w, a.core, name, |args|));
    assert MStep(asm, w, a) == Some(b);
    MRunOne(asm, w, m, j + 1, b);
    k, e := j + 2, State(a.pc + 2, Set(b.core, SlotFor(dest), GetReg(b.core, Rax)));
  }

  /** Each IR step is matched by at least one machine step. */
  lemma StepSim(p: Prog, labels: seq<string>, asm: seq<X64>, w: World, c: Cfg, m: State) returns (k: nat, e: State)
    requires Compiled(p, labels, asm) && Rel(p, labels, c, m) && !Halted(p, c)
    requires Step(p, w.oracle, c).Some? && DivSafe(Step(p, w.oracle, c).value.trace)
    ensures k >= 1 && MRun(asm, w, m, k) == Some(e) && Rel(p, labels, Step(p, w.oracle, c).value, e)
  {
    hide MRun, Rel, Compiled;
    match p.code[c.pc]
    case LoadBool(_, _) => k, e := LoadSim(p, labels, asm, w, c, m);
    case LoadInt(_, _) => k, e := LoadSim(p, labels, asm, w, c, m);
    case Copy(_, _) => k, e := CopySim(p, labels, asm, w, c, m);
    case CallFn(_, _, _) => k, e := CallSim(p, labels, asm, w, c, m);
    case Jump(_) => k, e := JumpSim(p, labels, asm, w, c, m);
    case CondJump(_, _, _) => k, e := CondSim(p, labels, asm, w, c, m);
    case Label(_) => k, e := JumpSim(p, labels, asm, w, c, m);
  }

  lemma DivSafePrefix(a: Trace, b: Trace)
    requires a <= b && DivSafe(b)
    ensures DivSafe(a)
  {
    forall i | 0 <= i < |a|
      ensures DivSafeEvent(a[i])
    {
      assert a[i] == b[i];
    }
  }

  /** Whole runs: the machine follows the IR for any number of steps, and stops when it stops. */
  lemma {:induction false} RunSim(p: Prog, labels: seq<string>, asm: seq<X64>, w: World, c: Cfg, n: nat, d: Cfg, m: State)
    returns (k: nat, e: State)
    requires Compiled(p, labels, asm) && Rel(p, labels, c, m)
    requires Run(p, w.oracle, c, n) == Some(d) && DivSafe(d.trace)
    ensures MRun(asm, w, m, k) == Some(e) && Rel(p, labels, d, e)
    ensures Halted(p, d) || k >= n
    decreases n
  {
    hide MRun, MStep, Step, Rel, Compiled, DivSafe;
    if n == 0 || Halted(p, c) {
      MRunNone(asm, w, m);
      k, e := 0, m;
    } else {
      var c1 := Step(p, w.oracle, c).value;
      TraceGrows(p, w.oracle, c1, n - 1);
      DivSafePrefix(c1.trace, d.trace);
      var k1, m1 := StepSim(p, labels, asm, w, c, m);
      k, e := RunSim(p, labels, asm, w, c1, n - 1, d, m1);
      MRunThen(asm, w, m, k1, m1, k, e);
      k := k1 + k;
    }
  }

  /** The machine has stopped exactly when the IR has halted. */
  lemma StoppedIffHalted(p: Prog, labels: seq<string>, asm: seq<X64>, c: Cfg, m: State)
    requires Compiled(p, labels, asm) && Rel(p, labels, c, m)
    ensures Stopped(asm, m) <==> Halted(p, c)
  {
    hide InstrCode, Addressable;
    PosEnd(p.code, p.vars, labels);
    if !Halted(p, c) {
      AtInstr(p, labels, asm, c, m);
      CodeNonEmpty(p.code[c.pc], p.vars, labels);
    }
  }

  lemma CodeNonEmpty(i: Instr, vars: seq<IrVar>, labels: seq<string>)
    requires Ready(i, |vars|, |labels|)
    ensures InstrCode(i, vars, labels) != []
  {
  }

  /** The code of a division starts with its sequence. */
  lemma DivisionCode(i: Instr, vars: seq<IrVar>, labels: seq<string>) returns (rest: seq<X64>)
    requires Ready(i, |vars|, |labels|) && i.CallFn? && vars[i.fn].name in {"/", "%"} && |i.args| >= 2
    ensures InstrCode(i, vars, labels) == DivisionOf(vars[i.fn].name, i) + rest
  {
    hide ArgMoves;
    rest := ArgMoves(i.args) + [CallX(vars[i.fn].name, |i.args|), Mov(R(Rax), SlotFor(i.dest))];
  }

  function DivisionOf(name: string, i: Instr): seq<X64>
    requires i.CallFn? && |i.args| >= 2
  {
    Division(Slot(OffsetOf(i.args[0])), Slot(OffsetOf(i.args[1])), if name == "/" then Rax else Rdx, Slot(OffsetOf(i.dest)))
  }

  /** A division that would fault stops the machine at its idiv, before the call is made. */
  lemma DivisionFaults(p: Prog, labels: seq<string>, asm: seq<X64>, w: World, c: Cfg, m: State)
    requires Compiled(p, labels, asm) && Rel(p, labels, c, m) && !Halted(p, c)
    requires p.code[c.pc].CallFn? && p.vars[p.code[c.pc].fn].name in {"/", "%"} && |p.code[c.pc].args| >= 2
    requires Step(p, w.oracle, c).Some? && !DivSafeEvent(Step(p, w.oracle, c).value.trace[|c.trace|])
    ensures MRun(asm, w, m, 4) == None
  {
    hide Pos, Assemble, MRun, Exec, Effect, Intrinsic, ArgMoves, InstrCode, Compiled, Division, TruncDiv;
    AtInstr(p, labels, asm, c, m);
    var i := p.code[c.pc];
    var name, args := p.vars[i.fn].name, i.args;
    ArgsInSlots(args, c.store, m.core);
    var x, y := GetSlot(m.core, OffsetOf(args[0])), GetSlot(m.core, OffsetOf(args[1]));
    assert [x, y] == ReadAll(args, c.store)[..2];
    if y != 0 {
      QuotientFits(x, y);
    }
    DivisionRuns(OffsetOf(args[0]), OffsetOf(args[1]), if name == "/" then Rax else Rdx, OffsetOf(i.dest), m.core);
    var rest := DivisionCode(i, p.vars, labels);
    DivisionLength(name, i);
    CodeAtSplit(asm, m.pc, DivisionOf(name, i), rest);
    RunStraight(asm, w, m, DivisionOf(name, i));
  }

  lemma DivisionLength(name: string, i: Instr)
    requires i.CallFn? && |i.args| >= 2
    ensures var ins := DivisionOf(name, i); |ins| == 4 && forall k :: 0 <= k < |ins| ==> Straight(ins[k])
  {
  }

  /** With more than six arguments the call itself is dropped: its code makes no external call at all. */
  lemma SevenArgsDropCall(fn: string, args: seq<int>, dest: int)
    ensures (exists k :: 0 <= k < |CallCode(fn, args, dest)| && CallCode(fn, args, dest)[k].CallX?) <==> |args| <= 6
  {
    var code, ins := CallCode(fn, args, dest), Intrinsic(fn, args, dest);
    IntrinsicStraight(fn, args, dest, OffsetOf(dest) + 1);
    if |args| <= 6 {
      assert code[|ins| + |ArgMoves(args)|] == CallX(fn, |args|);
    } else {
      assert code == ins;
    }
  }
}
