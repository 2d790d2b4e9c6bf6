/**
 IR generation (ir.c:410-692) as a function of the generator's state.  The methods of module
 IrGenerator do this work in place and are proved to compute exactly these states.
*/
module Lowering {
  import opened Words
  import opened Syntax
  import opened SourceSemantics
  import opened Ir

  /** The vectors the visitors push to; a label exists once created, wherever it is placed. */
  datatype Gen = Gen(vars: seq<IrVar>, labels: seq<string>, code: seq<Instr>)

  /** One scope of the symbol table: names to IR variables. */
  type Scope = map<string, int>

  datatype Low = Low(g: Gen, s: Scope, v: int)

  datatype LowArgs = LowArgs(g: Gen, s: Scope, vs: seq<int>)

  /** The vectors only grow: everything in g is kept in h, at the same indices. */
  predicate Extends(g: Gen, h: Gen) {
    g.vars <= h.vars && g.labels <= h.labels && g.code <= h.code
  }

  function Emit(g: Gen, i: Instr): (h: Gen)
    ensures Extends(g, h)
  {
    g.(code := g.code + [i])
  }

  function AddVar(g: Gen, name: string, ty: Ty): (h: Gen)
    ensures Extends(g, h)
  {
    g.(vars := g.vars + [IrVar(name, ty)])
  }

  function AddLabel(g: Gen, name: string): (h: Gen)
    ensures Extends(g, h)
  {
    g.(labels := g.labels + [name])
  }

  function UniqueName(n: nat): string {
    "<ir_var>_" + Decimal(n)
  }

  /** cabor_create_unique_ir_var: the new variable's index is the old size. */
  function AddUnique(g: Gen, ty: Ty): (h: Gen)
    ensures Extends(g, h)
  {
    AddVar(g, UniqueName(|g.vars|), ty)
  }

  /** cabor_require_ir_var: the operator's variable in this scope, created on first use. */
  function Require(g: Gen, s: Scope, name: string, ty: Ty): (r: (Gen, Scope))
    ensures name in r.1 && s.Keys <= r.1.Keys && Extends(g, r.0)
  {
    if name in s then (g, s) else (AddVar(g, name, ty), s[name := |g.vars|])
  }

  function Lookup(s: Scope, name: string): int {
    if name in s then s[name] else INVALID_VAR
  }

  function TypeOfVar(g: Gen, v: int): Ty {
    if 0 <= v < |g.vars| then g.vars[v].ty else TError
  }

  function VisitLiteral(text: string, ty: Ty, g: Gen, s: Scope): (r: Low)
    ensures Extends(g, r.g)
  {
    var v := |g.vars|;
    var g1 := AddUnique(g, ty);
    match ty
    case TBool =>
      if text == "true" then Low(Emit(g1, LoadBool(true, v)), s, v)
      else if text == "false" then Low(Emit(g1, LoadBool(false, v)), s, v)
      else Low(g1, s, INVALID_VAR)
    case TInt => Low(Emit(g1, LoadInt(LiteralInt(text), v)), s, v)
    case TUnit => Low(g1, s, 2)  // the code returns the type's own number here
    case _ => Low(g1, s, INVALID_VAR)
  }

  /** cabor_visit_ir_node: one visitor per node type, as below. */
  function Visit(a: Ast, g: Gen, s: Scope): (r: Low)
    ensures s.Keys <= r.s.Keys
    decreases a, 1
  {
    match a
    case Literal(text, ty) => VisitLiteral(text, ty, g, s)
    case Identifier(name, _) => Low(g, s, Lookup(s, name))
    case Unary(_, _, _) => VisitUnary(a, g, s)
    case Binary(_, _, _, _) => VisitBinary(a, g, s)
    case Call(_, _, _) => VisitCall(a, g, s)
    case UnitNode => Low(g, s, UNIT_VAR)
    case Block(stmts, _) => VisitStatements(stmts, g, map[], UNIT_VAR).(s := s)
    case IfThen(_, _, _) => VisitIfThen(a, g, s)
    case IfElse(_, _, _, _) => VisitIfElse(a, g, s)
    case While(_, _, _) => VisitWhile(a, g, s)
    case VarExpr(_, _, _, _) => VisitVarExpr(a, g, s)
  }

  function VisitUnary(a: Ast, g: Gen, s: Scope): (r: Low)
    requires a.Unary?
    ensures s.Keys <= r.s.Keys
    decreases a, 0
  {
    var (g0, s0) := Require(g, s, "unary_" + a.op, TUnit);
    var x := Visit(a.arg, g0, s0);
    Low(EmitCall(x.g, s0["unary_" + a.op], [x.v], a.ty), x.s, |x.g.vars|)
  }

  function VisitBinary(a: Ast, g: Gen, s: Scope): (r: Low)
    requires a.Binary?
    ensures s.Keys <= r.s.Keys
    decreases a, 0
  {
    var (g0, s0) := Require(g, s, a.op, a.ty);
    var x := Visit(a.left, g0, s0);
    var y := Visit(a.right, x.g, x.s);
    Low(EmitCall(y.g, y.s[a.op], [x.v, y.v], a.ty), y.s, |y.g.vars|)
  }

  function VisitCall(a: Ast, g: Gen, s: Scope): (r: Low)
    requires a.Call?
    ensures s.Keys <= r.s.Keys
    decreases a, 0
  {
    var xs := VisitArgs(a.args, g, s);
    Low(EmitCall(xs.g, Lookup(s, a.callee), xs.vs, a.ty), xs.s, |xs.g.vars|)
  }

  /** The code as shipped: the end label is never placed, the then label twice. */
  function VisitIfThen(a: Ast, g: Gen, s: Scope): (r: Low)
    requires a.IfThen?
    ensures s.Keys <= r.s.Keys
    decreases a, 0
  {
    var l := |g.labels|;
    var x := Visit(a.cond, AddThenLabels(g), s);
    var y := Visit(a.thn, Branch(x, l, l + 1), x.s);
    Low(EndThen(y, l), y.s, UNIT_VAR)
  }

  function VisitIfElse(a: Ast, g: Gen, s: Scope): (r: Low)
    requires a.IfElse?
    ensures s.Keys <= r.s.Keys
    decreases a, 0
  {
    var l := |g.labels|;
    var x := Visit(a.cond, AddIfLabels(g), s);
    var y := Visit(a.thn, Branch(x, l, l + 2), x.s);
    var res := |y.g.vars|;
    var z := Visit(a.els, BeginElse(y, l), y.s);
    Low(EndIf(z, res, l), z.s, res)
  }

  function VisitWhile(a: Ast, g: Gen, s: Scope): (r: Low)
    requires a.While?
    ensures s.Keys <= r.s.Keys
    decreases a, 0
  {
    var l := |g.labels|;
    var x := Visit(a.cond, BeginWhile(g), s);
    var y := Visit(a.body, Branch(x, l + 1, l + 2), x.s);
    Low(EndWhile(y, l), y.s, UNIT_VAR)
  }

  function VisitVarExpr(a: Ast, g: Gen, s: Scope): (r: Low)
    requires a.VarExpr?
    ensures s.Keys <= r.s.Keys
    decreases a, 0
  {
    var v := |g.vars|;
    var x := Visit(a.init, AddVar(g, a.name, a.ty), s);
    Low(Emit(x.g, Copy(x.v, v)), x.s[a.name := v], UNIT_VAR)
  }

  /** A call whose result goes to a new variable. */
  function EmitCall(g: Gen, fn: int, args: seq<int>, ty: Ty): (h: Gen)
    ensures Extends(g, h)
  {
    Emit(AddUnique(g, ty), CallFn(fn, args, |g.vars|))
  }

  /** The labels of an `if` without `else` are created in the order then, end: l, l + 1. */
  function AddThenLabels(g: Gen): (h: Gen)
    ensures Extends(g, h)
  {
    AddLabel(AddLabel(g, "then"), "end")
  }

  function EndThen(y: Low, l: int): (h: Gen)
    ensures Extends(y.g, h)
  {
    Emit(Emit(y.g, Jump(l + 1)), Label(l))
  }

  /** The labels of an `if` are created in the order then, end, else: l, l + 1, l + 2. */
  function AddIfLabels(g: Gen): (h: Gen)
    ensures Extends(g, h)
  {
    AddLabel(AddLabel(AddLabel(g, "then"), "end"), "else")
  }

  /** Jump on the condition just computed, and start the code of its first target. */
  function Branch(x: Low, lTrue: int, lFalse: int): (h: Gen)
    ensures Extends(x.g, h)
  {
    Emit(Emit(x.g, CondJump(x.v, lTrue, lFalse)), Label(lTrue))
  }

  /** The result variable is created after the then-branch, whose value it takes; then the else-branch starts. */
  function BeginElse(y: Low, l: int): (h: Gen)
    ensures Extends(y.g, h)
  {
    var res := |y.g.vars|;
    Emit(Emit(Emit(AddUnique(y.g, TypeOfVar(y.g, y.v)), Copy(y.v, res)), Jump(l + 1)), Label(l + 2))
  }

  function EndIf(z: Low, res: int, l: int): (h: Gen)
    ensures Extends(z.g, h)
  {
    Emit(Emit(Emit(z.g, Copy(z.v, res)), Jump(l + 1)), Label(l + 1))
  }

  /** The labels of a `while`: start l, body l + 1, end l + 2. */
  function BeginWhile(g: Gen): (h: Gen)
    ensures Extends(g, h)
  {
    Emit(AddLabel(AddLabel(AddLabel(g, "while_start"), "while_body"), "while_end"), Label(|g.labels|))
  }

  function EndWhile(y: Low, l: int): (h: Gen)
    ensures Extends(y.g, h)
  {
    Emit(Emit(y.g, Jump(l)), Label(l + 2))
  }

  function VisitArgs(es: seq<Ast>, g: Gen, s: Scope): (r: LowArgs)
    ensures s.Keys <= r.s.Keys
    decreases es
  {
    if es == [] then LowArgs(g, s, []) else
    var x := Visit(es[0], g, s);
    var xs := VisitArgs(es[1..], x.g, x.s);
    xs.(vs := [x.v] + xs.vs)
  }

  function VisitStatements(es: seq<Ast>, g: Gen, s: Scope, last: int): (r: Low)
    ensures s.Keys <= r.s.Keys
    decreases es
  {
    if es == [] then Low(g, s, last) else
    var x := Visit(es[0], g, s);
    VisitStatements(es[1..], x.g, x.s, x.v)
  }

  const ROOT_VARS: seq<IrVar> := [IrVar("print_int", TInt), IrVar("print_bool", TBool)]
  const ROOT_SCOPE: Scope := map["print_int" := 0, "print_bool" := 1]
  const EMPTY_GEN: Gen := Gen([], [], [])

  function RootGen(): Gen {
    EMPTY_GEN.(vars := ROOT_VARS)
  }

  function VisitRoot(root: Ast): Low {
    Visit(root, RootGen(), ROOT_SCOPE)
  }

  function FinalType(r: Low): Ty {
    if r.v > 0 then TypeOfVar(r.g, r.v) else TUnit
  }

  /** cabor_generate_ir: visit the root, then print its value by type (ir.c:271-317). */
  function Generate(root: Ast): Gen {
    var r := VisitRoot(root);
    match FinalType(r)
    case TInt => Emit(r.g, CallFn(0, [r.v], UNIT_VAR))
    case TBool => Emit(r.g, CallFn(1, [r.v], UNIT_VAR))
    case _ => r.g
  }

  function Program(root: Ast): Prog {
    Prog(Generate(root).code, Generate(root).vars)
  }
}
