/**
 An abstract x64 machine for the instructions the code generator emits: seven registers, the frame below
 rbp, the operands last compared, and the trace of external calls.  Operand forms a real encoder would
 refuse (memory to memory) are allowed.
*/
module Machine {
  import opened Words
  import opened SourceSemantics
  import opened Ir

  datatype Reg = Rax | Rdi | Rsi | Rdx | Rcx | R8 | R9

  /** Slot(k) is the quadword at -k(%rbp). */
  datatype Operand = R(reg: Reg) | Slot(offset: int) | Imm(n: Word)

  datatype Cond = CondE | CondNE | CondL | CondLE | CondG | CondGE

  datatype X64 =
    | Mov(src: Operand, dst: Operand)
    | Neg(dst: Operand)
    | Xor(src: Operand, dst: Operand)
    | Add(src: Operand, dst: Operand)
    | Sub(src: Operand, dst: Operand)
    | IMul(src: Operand, dst: Operand)
    | Cqto
    | IDiv(src: Operand)
    | Cmp(src: Operand, dst: Operand)
    | SetAl(cond: Cond)
    | Jmp(target: string)
    | Jne(target: string)
    | Def(name: string)
    | CallX(callee: string, arity: nat)  // the callee reads as many argument registers as the call passes

  /** flags holds the operands of the last comparison: destination, then source. */
  datatype Core = Core(regs: map<Reg, Word>, mem: map<int, Word>, flags: (Word, Word), trace: Trace)

  datatype State = State(pc: nat, core: Core)

  /** Answers of external calls, and what they leave in the registers they may overwrite. */
  datatype World = World(oracle: Oracle, junk: (Trace, Reg) -> Word)

  function GetReg(m: Core, r: Reg): Word {
    if r in m.regs then m.regs[r] else 0
  }

  function GetSlot(m: Core, offset: int): Word {
    if offset in m.mem then m.mem[offset] else 0
  }

  function Get(m: Core, x: Operand): Word {
    match x
    case R(r) => GetReg(m, r)
    case Slot(k) => GetSlot(m, k)
    case Imm(n) => n
  }

  function SetReg(m: Core, r: Reg, w: Word): Core {
    m.(regs := m.regs[r := w])
  }

  /** Writing to an immediate has no effect. */
  function Set(m: Core, x: Operand, w: Word): Core {
    match x
    case R(r) => SetReg(m, r, w)
    case Slot(k) => m.(mem := m.mem[k := w])
    case Imm(_) => m
  }

  /** The result of an arithmetic instruction, which also changes the flags. */
  function SetResult(m: Core, x: Operand, w: Word): Core {
    Set(m, x, w).(flags := (w, 0))
  }

  function Unsigned(w: Word): (u: nat)
    ensures u < TWO_64
  {
    if w < 0 then w + TWO_64 else w
  }

  /** Bitwise exclusive or of two numbers. */
  function XorNat(a: nat, b: nat): nat {
    if a == 0 then b else if b == 0 then a else 2 * XorNat(a / 2, b / 2) + (a + b) % 2
  }

  function XorWord(a: Word, b: Word): Word {
    Wrap64(XorNat(Unsigned(a), Unsigned(b)))
  }

  function Abs(x: int): nat {
    if x < 0 then -x else x
  }

  /** Division rounding toward zero. */
  function TruncDiv(a: int, b: int): int
    requires b != 0
  {
    var q := Abs(a) / Abs(b);
    if (a < 0) == (b < 0) then q else -q
  }

  function TruncRem(a: int, b: int): int
    requires b != 0
  {
    a - b * TruncDiv(a, b)
  }

  predicate IsWord(x: int) {
    -TWO_63 <= x < TWO_63
  }

  function Holds(cond: Cond, a: Word, b: Word): bool {
    match cond
    case CondE => a == b
    case CondNE => a != b
    case CondL => a < b
    case CondLE => a <= b
    case CondG => a > b
    case CondGE => a >= b
  }

  /** The 128-bit dividend of idiv. */
  function Dividend(m: Core): int {
    GetReg(m, Rdx) * TWO_64 + Unsigned(GetReg(m, Rax))
  }

  /** idiv faults on a zero divisor and on a quotient that does not fit. */
  predicate DivFaults(m: Core, d: Word) {
    d == 0 || !IsWord(TruncDiv(Dividend(m), d))
  }

  predicate Straight(i: X64) {
    !i.Jmp? && !i.Jne? && !i.Def? && !i.CallX?
  }

  /** The effect of a straight-line instruction; None is a fault. */
  function Effect(i: X64, m: Core): Option<Core>
    requires Straight(i)
  {
    match i
    case Mov(s, d) => Some(Set(m, d, Get(m, s)))
    case Neg(d) => Some(SetResult(m, d, Wrap64(0 - (Get(m, d) as int))))
    case Xor(s, d) => Some(SetResult(m, d, XorWord(Get(m, d), Get(m, s))))
    case Add(s, d) => Some(SetResult(m, d, Wrap64(Get(m, d) + Get(m, s))))
    case Sub(s, d) => Some(SetResult(m, d, Wrap64(Get(m, d) - Get(m, s))))
    case IMul(s, d) => Some(SetResult(m, d, Wrap64(Get(m, d) * Get(m, s))))
    case Cqto => Some(SetReg(m, Rdx, if GetReg(m, Rax) < 0 then -1 else 0))
    case IDiv(s) =>
      var d := Get(m, s);
      if DivFaults(m, d) then None
      else Some(SetReg(SetReg(m, Rax, TruncDiv(Dividend(m), d)), Rdx, Wrap64(TruncRem(Dividend(m), d))))
    case Cmp(s, d) => Some(m.(flags := (Get(m, d), Get(m, s))))
    case SetAl(cond) =>
      var bit := if Holds(cond, m.flags.0, m.flags.1) then 1 else 0;
      Some(SetReg(m, Rax, Wrap64(GetReg(m, Rax) - GetReg(m, Rax) % 256 + bit)))
  }

  const ARG_REGS: seq<Reg> := [Rdi, Rsi, Rdx, Rcx, R8, R9]

  /** The values in the first k argument registers (System V AMD64 ABI, section 3.2.3). */
  function ArgValues(m: Core, k: nat): seq<Word> {
    seq(k, i requires 0 <= i < k => if i < 6 then GetReg(m, ARG_REGS[i]) else 0)
  }

  function FindDef(asm: seq<X64>, name: string): (k: Option<nat>)
    ensures k.Some? ==> k.value < |asm| && asm[k.value] == Def(name)
  {
    if asm == [] then None
    else if asm[0] == Def(name) then Some(0)
    else match FindDef(asm[1..], name)
      case None => None
      case Some(k) => Some(k + 1)
  }

  function Goto(asm: seq<X64>, m: State, name: string): Option<State> {
    match FindDef(asm, name)
    case None => None
    case Some(k) => Some(m.(pc := k))
  }

  /** An external call overwrites every register but keeps the frame. */
  function CallEffect(w: World, m: Core, callee: string, arity: nat): Core {
    var x := Perform(w.oracle, callee, ArgValues(m, arity), m.trace);
    Core(map r: Reg | true :: if r == Rax then x.val else w.junk(x.trace, r), m.mem,
         (w.junk(x.trace, Rax), w.junk(x.trace, Rdx)), x.trace)
  }

  predicate Stopped(asm: seq<X64>, m: State) {
    m.pc >= |asm|
  }

  /** A call of a name the program itself places goes there, as the assembler resolves it. */
  function MStep(asm: seq<X64>, w: World, m: State): Option<State>
    requires !Stopped(asm, m)
  {
    match asm[m.pc]
    case Jmp(name) => Goto(asm, m, name)
    case Jne(name) => if m.core.flags.0 != m.core.flags.1 then Goto(asm, m, name) else Some(m.(pc := m.pc + 1))
    case Def(_) => Some(m.(pc := m.pc + 1))
    case CallX(callee, arity) =>
      if FindDef(asm, callee).Some? then Goto(asm, m, callee)
      else Some(State(m.pc + 1, CallEffect(w, m.core, callee, arity)))
    case i =>
      match Effect(i, m.core)
      case None => None
      case Some(e) => Some(State(m.pc + 1, e))
  }

  function MRun(asm: seq<X64>, w: World, m: State, n: nat): Option<State>
    decreases n
  {
    if n == 0 || Stopped(asm, m) then Some(m) else
    match MStep(asm, w, m)
    case None => None
    case Some(e) => MRun(asm, w, e, n - 1)
  }

  lemma {:induction false} MRunSplit(asm: seq<X64>, w: World, m: State, j: nat, k: nat)
    ensures MRun(asm, w, m, j).None? ==> MRun(asm, w, m, j + k).None?
    ensures MRun(asm, w, m, j).Some? ==> MRun(asm, w, m, j + k) == MRun(asm, w, MRun(asm, w, m, j).value, k)
    decreases j
  {
    hide MStep;
    if j != 0 && !Stopped(asm, m) {
      match MStep(asm, w, m)
      case None =>
      case Some(e) =>
        MRunSplit(asm, w, e, j - 1, k);
        assert j + k - 1 == j - 1 + k;
    }
  }

  lemma MRunThen(asm: seq<X64>, w: World, m: State, j: nat, e: State, k: nat, f: State)
    requires MRun(asm, w, m, j) == Some(e) && MRun(asm, w, e, k) == Some(f)
    ensures MRun(asm, w, m, j + k) == Some(f)
  {
    hide MStep;
    MRunSplit(asm, w, m, j, k);
  }

  lemma MRunOne(asm: seq<X64>, w: World, m: State, j: nat, e: State)
    requires MRun(asm, w, m, j) == Some(e) && !Stopped(asm, e)
    ensures MRun(asm, w, m, j + 1) == MStep(asm, w, e)
  {
    hide MStep;
    MRunSplit(asm, w, m, j, 1);
    var f := MStep(asm, w, e);
    if f.Some? {
      assert MRun(asm, w, f.value, 0) == Some(f.value);
    }
  }

  /** The joint effect of straight-line instructions. */
  function Exec(ins: seq<X64>, m: Core): Option<Core>
    requires forall i :: 0 <= i < |ins| ==> Straight(ins[i])
  {
    if ins == [] then Some(m) else
    match Effect(ins[0], m)
    case None => None
    case Some(e) => Exec(ins[1..], e)
  }

  /** The program at pc continues with these instructions. */
  predicate CodeAt(asm: seq<X64>, pc: nat, ins: seq<X64>) {
    pc + |ins| <= |asm| && asm[pc..pc + |ins|] == ins
  }

  /** Straight-line code runs to its joint effect, or faults when that does. */
  lemma {:induction false} RunStraight(asm: seq<X64>, w: World, m: State, ins: seq<X64>)
    requires CodeAt(asm, m.pc, ins) && forall i :: 0 <= i < |ins| ==> Straight(ins[i])
    ensures var e := Exec(ins, m.core);
            MRun(asm, w, m, |ins|) == if e.None? then None else Some(State(m.pc + |ins|, e.value))
    decreases |ins|
  {
    hide Effect;
    if ins != [] {
      assert asm[m.pc] == ins[0];
      match Effect(ins[0], m.core)
      case None =>
      case Some(e) =>
        var next := State(m.pc + 1, e);
        assert asm[next.pc..next.pc + |ins[1..]|] == ins[1..];
        RunStraight(asm, w, next, ins[1..]);
    }
  }

  /** The slot an instruction may write. */
  predicate KeepsSlot(i: X64, k: int) {
    match i
    case Mov(_, d) => d != Slot(k)
    case Neg(d) => d != Slot(k)
    case Xor(_, d) => d != Slot(k)
    case Add(_, d) => d != Slot(k)
    case Sub(_, d) => d != Slot(k)
    case IMul(_, d) => d != Slot(k)
    case _ => true
  }

  lemma EffectKeeps(i: X64, m: Core, k: int)
    requires Straight(i) && KeepsSlot(i, k) && Effect(i, m).Some?
    ensures var e := Effect(i, m).value; GetSlot(e, k) == GetSlot(m, k) && e.trace == m.trace
  {
  }

  /** Straight-line code changes only the slots it names as destinations, and makes no calls. */
  lemma {:induction false} ExecKeeps(ins: seq<X64>, m: Core, k: int)
    requires forall i :: 0 <= i < |ins| ==> Straight(ins[i]) && KeepsSlot(ins[i], k)
    requires Exec(ins, m).Some?
    ensures var e := Exec(ins, m).value; GetSlot(e, k) == GetSlot(m, k) && e.trace == m.trace
    decreases |ins|
  {
    hide Effect;
    if ins != [] {
      EffectKeeps(ins[0], m, k);
      ExecKeeps(ins[1..], Effect(ins[0], m).value, k);
    }
  }

  lemma {:induction false} ExecTotal(ins: seq<X64>, m: Core)
    requires forall i :: 0 <= i < |ins| ==> Straight(ins[i]) && !ins[i].IDiv?
    ensures Exec(ins, m).Some?
    decreases |ins|
  {
    if ins != [] {
      ExecTotal(ins[1..], Effect(ins[0], m).value);
    }
  }

  lemma {:induction false} ExecThen(ins: seq<X64>, js: seq<X64>, m: Core)
    requires forall i :: 0 <= i < |ins| ==> Straight(ins[i])
    requires forall i :: 0 <= i < |js| ==> Straight(js[i])
    ensures Exec(ins + js, m) == if Exec(ins, m).None? then None else Exec(js, Exec(ins, m).value)
    decreases |ins|
  {
    hide Effect;
    if ins == [] {
      assert ins + js == js;
    } else {
      assert (ins + js)[1..] == ins[1..] + js;
      var e := Effect(ins[0], m);
      if e.Some? {
        ExecThen(ins[1..], js, e.value);
      }
    }
  }
}
