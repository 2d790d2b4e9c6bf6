/**
 Every IR variable has a name (ir.c:59-113, 410-421), so code generation gives each a slot (codegen.c:173-192).
*/
module VarNames {
  import opened Syntax
  import opened Ir
  import opened Lowering
  import opened LoweringShape

  predicate AllNamed(vars: seq<IrVar>) {
    forall i :: 0 <= i < |vars| ==> vars[i].name != ""
  }

  lemma UniqueNamed(g: Gen, ty: Ty)
    requires AllNamed(g.vars)
    ensures AllNamed(AddUnique(g, ty).vars)
  {
    assert UniqueName(|g.vars|)[0] == '<';
  }

  lemma {:induction false} VisitNamed(a: Ast, g: Gen, s: Scope)
    requires WellNamed(a) && AllNamed(g.vars)
    ensures AllNamed(Visit(a, g, s).g.vars)
    decreases a, 1
  {
    hide AllNamed, UniqueName, AddUnique;
    match a
    case Literal(_, ty) => UniqueNamed(g, ty);
    case Unary(op, arg, ty) =>
      var (g0, s0) := Require(g, s, "unary_" + op, TUnit);
      OneNamed(g, "unary_" + op, TUnit);
      VisitNamed(arg, g0, s0);
      UniqueNamed(Visit(arg, g0, s0).g, ty);
    case Binary(op, left, right, ty) =>
      var (g0, s0) := Require(g, s, op, ty);
      var x := Visit(left, g0, s0);
      OneNamed(g, op, ty);
      VisitNamed(left, g0, s0);
      VisitNamed(right, x.g, x.s);
      UniqueNamed(Visit(right, x.g, x.s).g, ty);
    case Call(_, args, ty) =>
      ArgsNamed(args, g, s);
      UniqueNamed(VisitArgs(args, g, s).g, ty);
    case Block(stmts, _) => StatementsNamed(stmts, g, map[], UNIT_VAR);
    case IfThen(_, _, _) =>
      VisitNamed(a.cond, AddThenLabels(g), s);
      var (x, y) := IfThenParts(a, g, s);
      VisitNamed(a.thn, Branch(x, |g.labels|, |g.labels| + 1), x.s);
    case IfElse(_, _, _, _) => IfNamed(a, g, s);
    case While(_, _, _) =>
      VisitNamed(a.cond, BeginWhile(g), s);
      var (x, y) := WhileParts(a, g, s);
      VisitNamed(a.body, Branch(x, |g.labels| + 1, |g.labels| + 2), x.s);
    case VarExpr(name, init, _, ty) =>
      OneNamed(g, name, ty);
      VisitNamed(init, AddVar(g, name, ty), s);
    case _ =>
  }

  lemma OneNamed(g: Gen, name: string, ty: Ty)
    requires AllNamed(g.vars) && name != ""
    ensures AllNamed(AddVar(g, name, ty).vars)
  {
  }

  lemma {:induction false} IfNamed(a: Ast, g: Gen, s: Scope)
    requires a.IfElse? && WellNamed(a) && AllNamed(g.vars)
    ensures AllNamed(VisitIfElse(a, g, s).g.vars)
    decreases a, 0
  {
    hide AllNamed, AddUnique, Visit;
    var k := |g.labels|;
    var (x, y, z) := IfParts(a, g, s);
    VisitNamed(a.cond, AddIfLabels(g), s);
    VisitNamed(a.thn, Branch(x, k, k + 2), x.s);
    UniqueNamed(y.g, TypeOfVar(y.g, y.v));
    VisitNamed(a.els, BeginElse(y, k), y.s);
  }

  lemma {:induction false} ArgsNamed(es: seq<Ast>, g: Gen, s: Scope)
    requires WellNamedIn(es) && AllNamed(g.vars)
    ensures AllNamed(VisitArgs(es, g, s).g.vars)
    decreases es
  {
    hide AllNamed, Visit;
    if es != [] {
      VisitNamed(es[0], g, s);
      var x := Visit(es[0], g, s);
      ArgsNamed(es[1..], x.g, x.s);
    }
  }

  lemma {:induction false} StatementsNamed(es: seq<Ast>, g: Gen, s: Scope, last: int)
    requires WellNamedIn(es) && AllNamed(g.vars)
    ensures AllNamed(VisitStatements(es, g, s, last).g.vars)
    decreases es
  {
    hide AllNamed, Visit;
    if es != [] {
      VisitNamed(es[0], g, s);
      var x := Visit(es[0], g, s);
      StatementsNamed(es[1..], x.g, x.s, x.v);
    }
  }

  /** In a generated program, all variables have names. */
  lemma ProgramNamed(root: Ast)
    requires WellNamed(root)
    ensures AllNamed(Generate(root).vars)
  {
    hide Visit;
    VisitNamed(root, RootGen(), ROOT_SCOPE);
  }
}
