/**
 How many arguments the calls of a program have (ir.c:271-317, 410-692): counted on the tree, as many as lowering
 puts into the shared vector of call arguments.
*/
module CallArguments {
  import opened Syntax
  import opened SourceSemantics
  import opened Ir
  import opened Lowering
  import opened LoweringShape

  function ArgsOf(i: Instr): nat {
    if i.CallFn? then |i.args| else 0
  }

  function ArgsIn(code: seq<Instr>): nat {
    if code == [] then 0 else ArgsIn(code[..|code| - 1]) + ArgsOf(code[|code| - 1])
  }

  /** Operators are called with their operands. */
  function ArgCount(a: Ast): nat
    decreases a
  {
    match a
    case Unary(_, arg, _) => ArgCount(arg) + 1
    case Binary(_, left, right, _) => ArgCount(left) + ArgCount(right) + 2
    case Call(_, args, _) => ArgCountIn(args) + |args|
    case Block(stmts, _) => ArgCountIn(stmts)
    case IfThen(cond, thn, _) => ArgCount(cond) + ArgCount(thn)
    case IfElse(cond, thn, els, _) => ArgCount(cond) + ArgCount(thn) + ArgCount(els)
    case While(cond, body, _) => ArgCount(cond) + ArgCount(body)
    case VarExpr(_, init, _, _) => ArgCount(init)
    case _ => 0
  }

  function ArgCountIn(es: seq<Ast>): nat
    decreases es
  {
    if es == [] then 0 else ArgCount(es[0]) + ArgCountIn(es[1..])
  }

  /** The final print has one. */
  function ProgramArgs(root: Ast): nat {
    ArgCount(root) + if FinalType(VisitRoot(root)) == TInt || FinalType(VisitRoot(root)) == TBool then 1 else 0
  }

  lemma EmitCounts(g: Gen, i: Instr)
    ensures ArgsIn(Emit(g, i).code) == ArgsIn(g.code) + ArgsOf(i)
  {
    assert (g.code + [i])[..|g.code|] == g.code;
  }

  lemma {:induction false} VisitCounts(a: Ast, g: Gen, s: Scope)
    ensures ArgsIn(Visit(a, g, s).g.code) == ArgsIn(g.code) + ArgCount(a)
    decreases a, 1
  {
    hide ArgsIn, Emit, VisitIfThen, VisitIfElse, VisitWhile, VisitUnary, VisitBinary, VisitCall, VisitVarExpr;
    match a
    case Literal(_, _) => LiteralCounts(a.text, a.ty, g, s);
    case Unary(_, _, _) => UnaryCounts(a, g, s);
    case Binary(_, _, _, _) => BinaryCounts(a, g, s);
    case Call(_, _, _) => CallCounts(a, g, s);
    case Block(stmts, _) => StatementsCount(stmts, g, map[], UNIT_VAR);
    case IfThen(_, _, _) => IfThenCounts(a, g, s);
    case IfElse(_, _, _, _) => IfElseCounts(a, g, s);
    case While(_, _, _) => WhileCounts(a, g, s);
    case VarExpr(_, _, _, _) => VarExprCounts(a, g, s);
    case _ =>
  }

  lemma LiteralCounts(text: string, ty: Ty, g: Gen, s: Scope)
    ensures ArgsIn(VisitLiteral(text, ty, g, s).g.code) == ArgsIn(g.code)
  {
    hide ArgsIn;
    var g1 := AddUnique(g, ty);
    EmitCounts(g1, LoadBool(true, |g.vars|));
    EmitCounts(g1, LoadBool(false, |g.vars|));
    EmitCounts(g1, LoadInt(LiteralInt(text), |g.vars|));
  }

  lemma CallEmitCounts(g: Gen, fn: int, args: seq<int>, ty: Ty)
    ensures ArgsIn(EmitCall(g, fn, args, ty).code) == ArgsIn(g.code) + |args|
  {
    hide ArgsIn;
    EmitCounts(AddUnique(g, ty), CallFn(fn, args, |g.vars|));
  }

  lemma {:induction false} UnaryCounts(a: Ast, g: Gen, s: Scope)
    requires a.Unary?
    ensures ArgsIn(VisitUnary(a, g, s).g.code) == ArgsIn(g.code) + ArgCount(a)
    decreases a, 0
  {
    hide ArgsIn, Visit, EmitCall;
    var (g0, s0) := Require(g, s, "unary_" + a.op, TUnit);
    VisitCounts(a.arg, g0, s0);
    var x := Visit(a.arg, g0, s0);
    CallEmitCounts(x.g, s0["unary_" + a.op], [x.v], a.ty);
  }

  lemma {:induction false} BinaryCounts(a: Ast, g: Gen, s: Scope)
    requires a.Binary?
    ensures ArgsIn(VisitBinary(a, g, s).g.code) == ArgsIn(g.code) + ArgCount(a)
    decreases a, 0
  {
    hide ArgsIn, Visit, EmitCall;
    var (g0, s0) := Require(g, s, a.op, a.ty);
    VisitCounts(a.left, g0, s0);
    var x := Visit(a.left, g0, s0);
    VisitCounts(a.right, x.g, x.s);
    var y := Visit(a.right, x.g, x.s);
    CallEmitCounts(y.g, y.s[a.op], [x.v, y.v], a.ty);
  }

  lemma {:induction false} CallCounts(a: Ast, g: Gen, s: Scope)
    requires a.Call?
    ensures ArgsIn(VisitCall(a, g, s).g.code) == ArgsIn(g.code) + ArgCount(a)
    decreases a, 0
  {
    hide ArgsIn, EmitCall, VisitArgs;
    ArgsCount(a.args, g, s);
    var xs := VisitArgs(a.args, g, s);
    CallEmitCounts(xs.g, Lookup(s, a.callee), xs.vs, a.ty);
  }

  lemma BranchCounts(x: Low, lTrue: int, lFalse: int)
    ensures ArgsIn(Branch(x, lTrue, lFalse).code) == ArgsIn(x.g.code)
  {
    hide ArgsIn;
    EmitCounts(x.g, CondJump(x.v, lTrue, lFalse));
    EmitCounts(Emit(x.g, CondJump(x.v, lTrue, lFalse)), Label(lTrue));
  }

  lemma TwoCounts(g: Gen, i: Instr, j: Instr)
    ensures ArgsIn(Emit(Emit(g, i), j).code) == ArgsIn(g.code) + ArgsOf(i) + ArgsOf(j)
  {
    hide ArgsIn;
    EmitCounts(g, i);
    EmitCounts(Emit(g, i), j);
  }

  lemma {:induction false} IfThenCounts(a: Ast, g: Gen, s: Scope)
    requires a.IfThen?
    ensures ArgsIn(VisitIfThen(a, g, s).g.code) == ArgsIn(g.code) + ArgCount(a)
    decreases a, 0
  {
    hide ArgsIn, Visit, Branch, Emit;
    var l := |g.labels|;
    var (x, y) := IfThenParts(a, g, s);
    VisitCounts(a.cond, AddThenLabels(g), s);
    BranchCounts(x, l, l + 1);
    VisitCounts(a.thn, Branch(x, l, l + 1), x.s);
    TwoCounts(y.g, Jump(l + 1), Label(l));
  }

  lemma {:induction false} IfElseCounts(a: Ast, g: Gen, s: Scope)
    requires a.IfElse?
    ensures ArgsIn(VisitIfElse(a, g, s).g.code) == ArgsIn(g.code) + ArgCount(a)
    decreases a, 0
  {
    hide ArgsIn, Visit, Branch, BeginElse, EndIf;
    var l := |g.labels|;
    var (x, y, z) := IfParts(a, g, s);
    VisitCounts(a.cond, AddIfLabels(g), s);
    BranchCounts(x, l, l + 2);
    VisitCounts(a.thn, Branch(x, l, l + 2), x.s);
    BeginElseCounts(y, l);
    VisitCounts(a.els, BeginElse(y, l), y.s);
    EndIfCounts(z, |y.g.vars|, l);
  }

  lemma BeginElseCounts(y: Low, l: int)
    ensures ArgsIn(BeginElse(y, l).code) == ArgsIn(y.g.code)
  {
    hide ArgsIn;
    var res := |y.g.vars|;
    var g := AddUnique(y.g, TypeOfVar(y.g, y.v));
    EmitCounts(g, Copy(y.v, res));
    TwoCounts(Emit(g, Copy(y.v, res)), Jump(l + 1), Label(l + 2));
  }

  lemma EndIfCounts(z: Low, res: int, l: int)
    ensures ArgsIn(EndIf(z, res, l).code) == ArgsIn(z.g.code)
  {
    hide ArgsIn;
    EmitCounts(z.g, Copy(z.v, res));
    TwoCounts(Emit(z.g, Copy(z.v, res)), Jump(l + 1), Label(l + 1));
  }

  lemma {:induction false} WhileCounts(a: Ast, g: Gen, s: Scope)
    requires a.While?
    ensures ArgsIn(VisitWhile(a, g, s).g.code) == ArgsIn(g.code) + ArgCount(a)
    decreases a, 0
  {
    hide ArgsIn, Visit, Branch, EndWhile, BeginWhile;
    var l := |g.labels|;
    var (x, y) := WhileParts(a, g, s);
    BeginWhileCounts(g);
    VisitCounts(a.cond, BeginWhile(g), s);
    BranchCounts(x, l + 1, l + 2);
    VisitCounts(a.body, Branch(x, l + 1, l + 2), x.s);
    EndWhileCounts(y, l);
  }

  lemma BeginWhileCounts(g: Gen)
    ensures ArgsIn(BeginWhile(g).code) == ArgsIn(g.code)
  {
    hide ArgsIn;
    EmitCounts(AddLabel(AddLabel(AddLabel(g, "while_start"), "while_body"), "while_end"), Label(|g.labels|));
  }

  lemma EndWhileCounts(y: Low, l: int)
    ensures ArgsIn(EndWhile(y, l).code) == ArgsIn(y.g.code)
  {
    hide ArgsIn;
    TwoCounts(y.g, Jump(l), Label(l + 2));
  }

  lemma {:induction false} VarExprCounts(a: Ast, g: Gen, s: Scope)
    requires a.VarExpr?
    ensures ArgsIn(VisitVarExpr(a, g, s).g.code) == ArgsIn(g.code) + ArgCount(a)
    decreases a, 0
  {
    hide ArgsIn, Visit;
    var x := Visit(a.init, AddVar(g, a.name, a.ty), s);
    VisitCounts(a.init, AddVar(g, a.name, a.ty), s);
    EmitCounts(x.g, Copy(x.v, |g.vars|));
  }

  lemma {:induction false} ArgsCount(es: seq<Ast>, g: Gen, s: Scope)
    ensures var r := VisitArgs(es, g, s); |r.vs| == |es| && ArgsIn(r.g.code) == ArgsIn(g.code) + ArgCountIn(es)
    decreases es
  {
    hide ArgsIn, Visit, ArgCount;
    if es != [] {
      VisitCounts(es[0], g, s);
      var x := Visit(es[0], g, s);
      ArgsCount(es[1..], x.g, x.s);
    }
  }

  lemma {:induction false} StatementsCount(es: seq<Ast>, g: Gen, s: Scope, last: int)
    ensures ArgsIn(VisitStatements(es, g, s, last).g.code) == ArgsIn(g.code) + ArgCountIn(es)
    decreases es
  {
    hide ArgsIn, Visit, ArgCount;
    if es != [] {
      VisitCounts(es[0], g, s);
      var x := Visit(es[0], g, s);
      StatementsCount(es[1..], x.g, x.s, x.v);
    }
  }

  /** A program's calls have as many arguments as are counted on its tree. */
  lemma ProgramCounts(root: Ast)
    ensures ArgsIn(Generate(root).code) == ProgramArgs(root)
  {
    hide Visit, ArgCount;
    VisitCounts(root, RootGen(), ROOT_SCOPE);
    var r := VisitRoot(root);
    EmitCounts(r.g, CallFn(0, [r.v], UNIT_VAR));
    EmitCounts(r.g, CallFn(1, [r.v], UNIT_VAR));
  }
}
