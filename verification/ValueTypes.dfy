/**
 The types of IR variables (ir.c:410-612): the variable returned for a value has the type the source gives that value,
 however the tree is annotated, so the call that prints a program's value is chosen by the source.
*/
module ValueTypes {
  import opened Syntax
  import opened SourceSemantics
  import opened Ir
  import opened Lowering
  import opened LoweringShape

  /** Every declared name is bound to an IR variable of its declared type. */
  ghost predicate TypesAgree(types: map<string, Ty>, g: Gen, s: Scope) {
    && |g.vars| >= 2 && ScopeOk(s, g.vars)
    && forall x :: x in types ==> x in s && s[x] >= 2 && g.vars[s[x]].ty == types[x]
  }

  lemma AgreeGrows(types: map<string, Ty>, g: Gen, h: Gen, s: Scope)
    requires TypesAgree(types, g, s) && Extends(g, h)
    ensures TypesAgree(types, h, s)
  {
  }

  /** Lowering a node keeps the agreement, with the name it declares if it is a declaration. */
  lemma VisitKeepsTypes(a: Ast, types: map<string, Ty>, g: Gen, s: Scope)
    requires Fragment(a) && TypesAgree(types, g, s)
    ensures var r := Visit(a, g, s); TypesAgree(Declare(a, types), r.g, r.s) && Extends(g, r.g)
  {
    VisitScope(a, g, s);
    VisitExtends(a, g, s);
    if a.VarExpr? {
      DeclarationAgrees(a, types, g, s);
    } else {
      ScopeStays(types, g, s, Visit(a, g, s));
    }
  }

  lemma ScopeStays(types: map<string, Ty>, g: Gen, s: Scope, r: Low)
    requires TypesAgree(types, g, s) && Extends(g, r.g) && ScopeOk(r.s, r.g.vars)
    requires forall x :: x in types ==> x in r.s && r.s[x] == s[x]
    ensures TypesAgree(types, r.g, r.s)
  {
  }

  lemma DeclarationAgrees(a: Ast, types: map<string, Ty>, g: Gen, s: Scope)
    requires a.VarExpr? && TypesAgree(types, g, s)
    requires ScopeKept(a, g, s, Visit(a, g, s)) && Extends(g, Visit(a, g, s).g)
    ensures var r := Visit(a, g, s); TypesAgree(types[a.name := a.ty], r.g, r.s)
  {
    var r, g0 := Visit(a, g, s), AddVar(g, a.name, a.ty);
    VisitExtends(a.init, g0, s);
    assert r == VisitVarExpr(a, g, s);
    assert g0.vars[|g.vars|].ty == a.ty && g0.vars <= r.g.vars;
    forall x | x in types && x != a.name
      ensures x in r.s && r.s[x] == s[x]
    {
      assert x in s - {a.name};
    }
  }

  /** The node left its value in a variable of this type. */
  ghost predicate Returns(r: Low, ty: Ty) {
    2 <= r.v < |r.g.vars| && r.g.vars[r.v].ty == ty
  }

  /** The variable returned for a value has the type of the value. */
  lemma {:induction false} ReturnsValueType(a: Ast, types: map<string, Ty>, callees: set<string>, g: Gen, s: Scope)
    requires Operand(a) && Scoped(a, types.Keys, callees) && TypesAgree(types, g, s)
    ensures Returns(Visit(a, g, s), ValueType(a, types))
    decreases a, 1
  {
    match a
    case Unary(op, arg, _) =>
      var (g0, s0) := Require(g, s, "unary_" + op, TUnit);
      VisitExtends(arg, g0, s0);
    case Binary(_, left, right, _) =>
      var (g0, s0) := Require(g, s, a.op, a.ty);
      var x := Visit(left, g0, s0);
      VisitExtends(left, g0, s0);
      VisitExtends(right, x.g, x.s);
    case Call(_, args, _) => VisitArgsExtends(args, g, s);
    case Block(stmts, _) =>
      var none: map<string, Ty> := map[];
      assert none.Keys == {};
      ReturnsLastType(stmts, none, {}, g, map[], UNIT_VAR);
    case IfElse(_, _, _, _) => IfReturns(a, types, callees, g, s);
    case _ =>
  }

  /** The join variable takes the type of the then-branch's variable. */
  lemma {:induction false} IfReturns(a: Ast, types: map<string, Ty>, callees: set<string>, g: Gen, s: Scope)
    requires a.IfElse? && Fragment(a) && Scoped(a, types.Keys, callees) && TypesAgree(types, g, s)
    ensures Returns(VisitIfElse(a, g, s), ValueType(a.thn, types))
    decreases a, 0
  {
    hide Visit, ScopeOk;
    assert Operand(a.cond) && Operand(a.thn);
    var (x, y, z) := IfParts(a, g, s);
    var g1 := Branch(x, |g.labels|, |g.labels| + 2);
    AgreeGrows(types, g, AddIfLabels(g), s);
    VisitKeepsTypes(a.cond, types, AddIfLabels(g), s);
    AgreeGrows(types, x.g, g1, x.s);
    ReturnsValueType(a.thn, types, callees, g1, x.s);
    VisitExtends(a.els, BeginElse(y, |g.labels|), y.s);
    assert BeginElse(y, |g.labels|).vars[|y.g.vars|].ty == ValueType(a.thn, types);
  }

  lemma {:induction false} ReturnsLastType(es: seq<Ast>, types: map<string, Ty>, callees: set<string>, g: Gen, s: Scope, last: int)
    requires es != [] && IsValue(es[|es| - 1]) && Statements(es) && ScopedStatements(es, types.Keys, callees)
    requires TypesAgree(types, g, s)
    ensures Returns(VisitStatements(es, g, s, last), LastType(es, types))
    decreases es
  {
    hide Visit, ValueType, TypesAgree, Fragment;
    var x := Visit(es[0], g, s);
    if |es| == 1 {
      ReturnsValueType(es[0], types, callees, g, s);
      assert VisitStatements(es[1..], x.g, x.s, x.v) == Low(x.g, x.s, x.v);
    } else {
      VisitKeepsTypes(es[0], types, g, s);
      assert es[1..][|es[1..]| - 1] == es[|es| - 1];
      assert Declare(es[0], types).Keys == types.Keys + Declared(es[0]);
      ReturnsLastType(es[1..], Declare(es[0], types), callees, x.g, x.s, x.v);
    }
  }

  /** What leaves no value has the type TUnit. */
  lemma {:induction false} NoValueType(a: Ast, types: map<string, Ty>)
    requires Fragment(a) && !IsValue(a)
    ensures ValueType(a, types) == TUnit
    decreases a
  {
    if a.Block? {
      NoLastType(a.stmts, map[]);
    }
  }

  lemma {:induction false} NoLastType(es: seq<Ast>, types: map<string, Ty>)
    requires Statements(es) && (es == [] || !IsValue(es[|es| - 1]))
    ensures LastType(es, types) == TUnit
    decreases es
  {
    if |es| == 1 {
      NoValueType(es[0], types);
    } else if es != [] {
      assert es[1..][|es[1..]| - 1] == es[|es| - 1];
      NoLastType(es[1..], Declare(es[0], types));
    }
  }

  /** The type by which the generated program prints its value is the source's. */
  lemma RootTypeIs(root: Ast)
    requires WellScoped(root)
    ensures FinalType(VisitRoot(root)) == RootType(root)
  {
    hide Visit, Fragment, Scoped, ValueType;
    var none: map<string, Ty> := map[];
    assert none.Keys == {};
    if IsValue(root) {
      ReturnsValueType(root, none, ROOT_CALLEES, RootGen(), ROOT_SCOPE);
    } else {
      VisitUnit(root, RootGen(), ROOT_SCOPE);
      NoValueType(root, none);
    }
  }
}
