/**
 The label/jump intermediate representation (ir.h:38-116) and its small-step meaning: a program
 counter, a store of the variables written so far, and the trace of calls.
*/
module Ir {
  import opened Words
  import opened Syntax
  import opened SourceSemantics

  datatype IrVar = IrVar(name: string, ty: Ty)

  datatype Instr =
    | LoadBool(b: bool, dest: int)
    | LoadInt(n: int, dest: int)
    | Copy(src: int, dest: int)
    | CallFn(fn: int, args: seq<int>, dest: int)
    | Jump(target: int)
    | CondJump(cond: int, thenTarget: int, elseTarget: int)
    | Label(l: int)

  const UNIT_VAR: int := -2
  const INVALID_VAR: int := -1

  datatype Prog = Prog(code: seq<Instr>, vars: seq<IrVar>)

  type Store = map<int, Word>

  datatype Cfg = Cfg(pc: nat, store: Store, trace: Trace)

  datatype Option<+T> = None | Some(value: T)

  predicate Halted(p: Prog, c: Cfg) {
    c.pc >= |p.code|
  }

  /** The first place of a label, as an assembler resolves it. */
  function FindLabel(code: seq<Instr>, l: int): (k: Option<nat>)
    ensures k.Some? ==> k.value < |code| && code[k.value] == Label(l)
    ensures k.None? ==> forall i :: 0 <= i < |code| ==> code[i] != Label(l)
  {
    if code == [] then None
    else if code[0] == Label(l) then Some(0)
    else match FindLabel(code[1..], l)
      case None => None
      case Some(k) => Some(k + 1)
  }

  predicate AllIn(vs: seq<int>, store: Store) {
    forall i :: 0 <= i < |vs| ==> vs[i] in store
  }

  function ReadAll(vs: seq<int>, store: Store): seq<Word>
    requires AllIn(vs, store)
  {
    seq(|vs|, i requires 0 <= i < |vs| => store[vs[i]])
  }

  function Goto(p: Prog, c: Cfg, l: int): Option<Cfg> {
    match FindLabel(p.code, l)
    case None => None
    case Some(k) => Some(c.(pc := k))
  }

  function Write(c: Cfg, dest: int, w: Word): Cfg {
    Cfg(c.pc + 1, c.store[dest := w], c.trace)
  }

  /** None: the machine is stuck, on a variable never written, an unknown function or a label never placed. */
  function Step(p: Prog, o: Oracle, c: Cfg): Option<Cfg>
    requires !Halted(p, c)
  {
    match p.code[c.pc]
    case LoadBool(b, dest) => Some(Write(c, dest, if b then 1 else 0))
    case LoadInt(n, dest) => Some(Write(c, dest, Wrap64(n)))
    case Copy(src, dest) => if src in c.store then Some(Write(c, dest, c.store[src])) else None
    case CallFn(fn, args, dest) =>
      if 0 <= fn < |p.vars| && AllIn(args, c.store) then
        var x := Perform(o, p.vars[fn].name, ReadAll(args, c.store), c.trace);
        Some(Write(c, dest, x.val).(trace := x.trace))
      else
        None
    case Jump(l) => Goto(p, c, l)
    case CondJump(cond, t, e) =>
      if cond in c.store then Goto(p, c, if c.store[cond] != 0 then t else e) else None
    case Label(_) => Some(c.(pc := c.pc + 1))
  }

  /** n steps, or fewer when the end is reached. */
  function Run(p: Prog, o: Oracle, c: Cfg, n: nat): Option<Cfg>
    decreases n
  {
    if n == 0 || Halted(p, c) then Some(c) else
    match Step(p, o, c)
    case None => None
    case Some(d) => Run(p, o, d, n - 1)
  }

  lemma {:induction false} RunSplit(p: Prog, o: Oracle, c: Cfg, m: nat, n: nat)
    ensures Run(p, o, c, m).None? ==> Run(p, o, c, m + n).None?
    ensures Run(p, o, c, m).Some? ==> Run(p, o, c, m + n) == Run(p, o, Run(p, o, c, m).value, n)
    decreases m
  {
    if m != 0 && !Halted(p, c) {
      match Step(p, o, c)
      case None =>
      case Some(d) =>
        RunSplit(p, o, d, m - 1, n);
        assert m + n - 1 == m - 1 + n;
    }
  }

  /** Runs compose. */
  lemma RunThen(p: Prog, o: Oracle, c: Cfg, m: nat, d: Cfg, n: nat, e: Cfg)
    requires Run(p, o, c, m) == Some(d) && Run(p, o, d, n) == Some(e)
    ensures Run(p, o, c, m + n) == Some(e)
  {
    RunSplit(p, o, c, m, n);
  }

  lemma RunOne(p: Prog, o: Oracle, c: Cfg, m: nat, d: Cfg)
    requires Run(p, o, c, m) == Some(d) && !Halted(p, d)
    ensures Run(p, o, c, m + 1) == Step(p, o, d)
  {
    RunSplit(p, o, c, m, 1);
    var e := Step(p, o, d);
    if e.Some? {
      assert Run(p, o, e.value, 0) == Some(e.value);
    }
  }

  /** A later configuration only extends the trace. */
  lemma {:induction false} TraceGrows(p: Prog, o: Oracle, c: Cfg, n: nat)
    requires Run(p, o, c, n).Some?
    ensures c.trace <= Run(p, o, c, n).value.trace
    decreases n
  {
    if n == 0 || Halted(p, c) {
    } else {
      TraceGrows(p, o, Step(p, o, c).value, n - 1);
    }
  }

  predicate UniqueLabels(code: seq<Instr>) {
    forall i, j :: 0 <= i < j < |code| && code[i].Label? ==> code[i] != code[j]
  }
}
