/**
 What lowering keeps at every node: the vectors only grow, scopes bind each name to the IR variable
 of that name, and the returned variable is a value variable exactly for value nodes.
*/
module LoweringShape {
  import opened Syntax
  import opened Ir
  import opened Lowering

  lemma ExtendsTrans(g: Gen, h: Gen, k: Gen)
    requires Extends(g, h) && Extends(h, k)
    ensures Extends(g, k)
  {
  }

  lemma {:induction false} VisitExtends(a: Ast, g: Gen, s: Scope)
    ensures Extends(g, Visit(a, g, s).g)
    decreases a, 1
  {
    hide Extends, VisitLiteral, VisitUnary, VisitBinary, VisitCall, VisitIfThen, VisitIfElse, VisitWhile, VisitVarExpr;
    match a
    case Literal(_, _) =>
    case Unary(_, _, _) => UnaryExtends(a, g, s);
    case Binary(_, _, _, _) => BinaryExtends(a, g, s);
    case Call(_, _, _) => CallExtends(a, g, s);
    case Block(stmts, _) => VisitStatementsExtends(stmts, g, map[], UNIT_VAR);
    case IfThen(_, _, _) => IfThenExtends(a, g, s);
    case IfElse(_, _, _, _) => IfElseExtends(a, g, s);
    case While(_, _, _) => WhileExtends(a, g, s);
    case VarExpr(_, _, _, _) => VarExprExtends(a, g, s);
    case _ => ExtendsSame(g);
  }

  lemma ExtendsSame(g: Gen)
    ensures Extends(g, g)
  {
  }

  lemma {:induction false} CallExtends(a: Ast, g: Gen, s: Scope)
    requires a.Call?
    ensures Extends(g, VisitCall(a, g, s).g)
    decreases a, 0
  {
    hide Extends, VisitArgs, EmitCall;
    VisitArgsExtends(a.args, g, s);
    ExtendsTrans(g, VisitArgs(a.args, g, s).g, VisitCall(a, g, s).g);
  }

  lemma {:induction false} VarExprExtends(a: Ast, g: Gen, s: Scope)
    requires a.VarExpr?
    ensures Extends(g, VisitVarExpr(a, g, s).g)
    decreases a, 0
  {
    hide Extends, Visit, AddVar, Emit;
    var g0 := AddVar(g, a.name, a.ty);
    var x := Visit(a.init, g0, s);
    VisitExtends(a.init, g0, s);
    ExtendsTrans(g, g0, x.g);
    ExtendsTrans(g, x.g, VisitVarExpr(a, g, s).g);
  }

  lemma {:induction false} UnaryExtends(a: Ast, g: Gen, s: Scope)
    requires a.Unary?
    ensures Extends(g, VisitUnary(a, g, s).g)
    decreases a, 0
  {
    var (g0, s0) := Require(g, s, "unary_" + a.op, TUnit);
    VisitExtends(a.arg, g0, s0);
  }

  lemma {:induction false} BinaryExtends(a: Ast, g: Gen, s: Scope)
    requires a.Binary?
    ensures Extends(g, VisitBinary(a, g, s).g)
    decreases a, 0
  {
    var (g0, s0) := Require(g, s, a.op, a.ty);
    var x := Visit(a.left, g0, s0);
    VisitExtends(a.left, g0, s0);
    VisitExtends(a.right, x.g, x.s);
    ExtendsTrans(g, g0, x.g);
  }

  /** A name that is not bound gives -1, and a call of it calls -1; nothing is said about it. */
  lemma UnboundName(name: string, args: seq<Ast>, ty: Ty, g: Gen, s: Scope)
    requires name !in s
    ensures Visit(Identifier(name, ty), g, s) == Low(g, s, -1)
    ensures var xs := VisitArgs(args, g, s);
            Visit(Call(name, args, ty), g, s)
            == Low(Gen(xs.g.vars + [IrVar(UniqueName(|xs.g.vars|), ty)], xs.g.labels, xs.g.code + [CallFn(-1, xs.vs, |xs.g.vars|)]),
                   xs.s, |xs.g.vars|)
  {
    hide VisitArgs;
  }

  /** A literal the checker has not reached has no type: it gets a variable, but no instruction, and gives -1. */
  lemma UncheckedLiteral(text: string, g: Gen, s: Scope)
    ensures Visit(Literal(text, TError), g, s)
            == Low(Gen(g.vars + [IrVar(UniqueName(|g.vars|), TError)], g.labels, g.code), s, -1)
  {
  }

  /** The states in which lowering leaves the condition and the branch of an `if` without `else`. */
  function IfThenParts(a: Ast, g: Gen, s: Scope): (Low, Low)
    requires a.IfThen?
  {
    var l := |g.labels|;
    var x := Visit(a.cond, AddThenLabels(g), s);
    (x, Visit(a.thn, Branch(x, l, l + 1), x.s))
  }

  lemma {:induction false} IfThenExtends(a: Ast, g: Gen, s: Scope)
    requires a.IfThen?
    ensures Extends(g, VisitIfThen(a, g, s).g)
    ensures var (x, y) := IfThenParts(a, g, s);
            Extends(g, x.g) && Extends(x.g, y.g) && Extends(y.g, VisitIfThen(a, g, s).g)
    decreases a, 0
  {
    var l := |g.labels|;
    var (x, y) := IfThenParts(a, g, s);
    VisitExtends(a.cond, AddThenLabels(g), s);
    VisitExtends(a.thn, Branch(x, l, l + 1), x.s);
    ExtendsTrans(g, AddThenLabels(g), x.g);
    ExtendsTrans(x.g, Branch(x, l, l + 1), y.g);
    ExtendsTrans(g, x.g, y.g);
  }

  /** The states in which lowering leaves the condition and the branches of an `if` with `else`. */
  function IfParts(a: Ast, g: Gen, s: Scope): (Low, Low, Low)
    requires a.IfElse?
  {
    var l := |g.labels|;
    var x := Visit(a.cond, AddIfLabels(g), s);
    var y := Visit(a.thn, Branch(x, l, l + 2), x.s);
    (x, y, Visit(a.els, BeginElse(y, l), y.s))
  }

  function WhileParts(a: Ast, g: Gen, s: Scope): (Low, Low)
    requires a.While?
  {
    var l := |g.labels|;
    var x := Visit(a.cond, BeginWhile(g), s);
    (x, Visit(a.body, Branch(x, l + 1, l + 2), x.s))
  }

  lemma {:induction false} IfElseExtends(a: Ast, g: Gen, s: Scope)
    requires a.IfElse?
    ensures Extends(g, VisitIfElse(a, g, s).g)
    ensures var (x, y, z) := IfParts(a, g, s);
            Extends(g, x.g) && Extends(x.g, y.g) && Extends(y.g, z.g) && Extends(z.g, VisitIfElse(a, g, s).g)
    decreases a, 0
  {
    var l := |g.labels|;
    var (x, y, z) := IfParts(a, g, s);
    VisitExtends(a.cond, AddIfLabels(g), s);
    VisitExtends(a.thn, Branch(x, l, l + 2), x.s);
    VisitExtends(a.els, BeginElse(y, l), y.s);
    ExtendsTrans(g, AddIfLabels(g), x.g);
    ExtendsTrans(x.g, Branch(x, l, l + 2), y.g);
    ExtendsTrans(y.g, BeginElse(y, l), z.g);
    ExtendsTrans(g, x.g, y.g);
    ExtendsTrans(g, y.g, z.g);
  }

  lemma {:induction false} WhileExtends(a: Ast, g: Gen, s: Scope)
    requires a.While?
    ensures Extends(g, VisitWhile(a, g, s).g)
    ensures var (x, y) := WhileParts(a, g, s);
            Extends(g, x.g) && Extends(x.g, y.g) && Extends(y.g, VisitWhile(a, g, s).g)
    decreases a, 0
  {
    var l := |g.labels|;
    var (x, y) := WhileParts(a, g, s);
    VisitExtends(a.cond, BeginWhile(g), s);
    VisitExtends(a.body, Branch(x, l + 1, l + 2), x.s);
    ExtendsTrans(g, BeginWhile(g), x.g);
    ExtendsTrans(x.g, Branch(x, l + 1, l + 2), y.g);
    ExtendsTrans(g, x.g, y.g);
  }

  /** How many labels there are between the stretches of an `if` and of a `while`. */
  lemma IfSizes(a: Ast, g: Gen, s: Scope)
    requires a.IfElse?
    ensures var k := |g.labels|;
            var (x, y, z) := IfParts(a, g, s);
            && k + 3 <= |x.g.labels| == |Branch(x, k, k + 2).labels| <= |y.g.labels|
            && |y.g.labels| == |BeginElse(y, k).labels| <= |z.g.labels| == |VisitIfElse(a, g, s).g.labels|
  {
    hide Visit;
    var (x, y, z) := IfParts(a, g, s);
    VisitExtends(a.cond, AddIfLabels(g), s);
    VisitExtends(a.thn, Branch(x, |g.labels|, |g.labels| + 2), x.s);
    VisitExtends(a.els, BeginElse(y, |g.labels|), y.s);
  }

  lemma IfThenSizes(a: Ast, g: Gen, s: Scope)
    requires a.IfThen?
    ensures var k := |g.labels|;
            var (x, y) := IfThenParts(a, g, s);
            k + 2 <= |x.g.labels| == |Branch(x, k, k + 1).labels| <= |y.g.labels|
  {
    hide Visit;
    var (x, y) := IfThenParts(a, g, s);
    VisitExtends(a.cond, AddThenLabels(g), s);
    VisitExtends(a.thn, Branch(x, |g.labels|, |g.labels| + 1), x.s);
  }

  lemma WhileSizes(a: Ast, g: Gen, s: Scope)
    requires a.While?
    ensures var k := |g.labels|;
            var (x, y) := WhileParts(a, g, s);
            && k + 3 == |BeginWhile(g).labels| <= |x.g.labels| == |Branch(x, k + 1, k + 2).labels|
            && |x.g.labels| <= |y.g.labels| == |VisitWhile(a, g, s).g.labels|
  {
    hide Visit;
    var (x, y) := WhileParts(a, g, s);
    VisitExtends(a.cond, BeginWhile(g), s);
    VisitExtends(a.body, Branch(x, |g.labels| + 1, |g.labels| + 2), x.s);
  }

  lemma {:induction false} VisitArgsExtends(es: seq<Ast>, g: Gen, s: Scope)
    ensures Extends(g, VisitArgs(es, g, s).g)
    decreases es
  {
    if es != [] {
      VisitExtends(es[0], g, s);
      var x := Visit(es[0], g, s);
      VisitArgsExtends(es[1..], x.g, x.s);
    }
  }

  lemma {:induction false} VisitStatementsExtends(es: seq<Ast>, g: Gen, s: Scope, last: int)
    ensures Extends(g, VisitStatements(es, g, s, last).g)
    decreases es
  {
    if es != [] {
      VisitExtends(es[0], g, s);
      var x := Visit(es[0], g, s);
      VisitStatementsExtends(es[1..], x.g, x.s, x.v);
    }
  }

  /** Every name in a scope is bound to an IR variable of that name. */
  ghost predicate ScopeOk(s: Scope, vars: seq<IrVar>) {
    forall x :: x in s ==> 0 <= s[x] < |vars| && vars[s[x]].name == x
  }

  ghost predicate ScopeExt(s: Scope, t: Scope) {
    forall x :: x in s ==> x in t && t[x] == s[x]
  }

  lemma ScopeOkGrows(s: Scope, g: Gen, h: Gen)
    requires ScopeOk(s, g.vars) && Extends(g, h)
    ensures ScopeOk(s, h.vars)
  {
  }

  lemma RequireOk(g: Gen, s: Scope, name: string, ty: Ty)
    requires ScopeOk(s, g.vars)
    ensures var (g0, s0) := Require(g, s, name, ty);
            ScopeOk(s0, g0.vars) && ScopeExt(s, s0) && g0.code == g.code && g0.labels == g.labels
  {
  }

  /** What a visit does to the scope: adds operator names, and rebinds only a declared name. */
  ghost predicate ScopeKept(a: Ast, g: Gen, s: Scope, r: Low) {
    && ScopeOk(r.s, r.g.vars)
    && if a.VarExpr? then a.name in r.s && r.s[a.name] == |g.vars| && ScopeExt(s - {a.name}, r.s)
       else ScopeExt(s, r.s)
  }

  lemma {:induction false} VisitScope(a: Ast, g: Gen, s: Scope)
    requires Fragment(a) && ScopeOk(s, g.vars)
    ensures ScopeKept(a, g, s, Visit(a, g, s))
    decreases a, 1
  {
    match a
    case Unary(_, _, _) => UnaryScope(a, g, s);
    case Binary(_, _, _, _) => BinaryScope(a, g, s);
    case Call(_, _, _) => CallScope(a, g, s);
    case Block(_, _) =>
      VisitExtends(a, g, s);
      ScopeOkGrows(s, g, Visit(a, g, s).g);
    case IfThen(_, _, _) => IfThenScope(a, g, s);
    case IfElse(_, _, _, _) => IfElseScope(a, g, s);
    case While(_, _, _) => WhileScope(a, g, s);
    case VarExpr(_, _, _, _) => VarExprScope(a, g, s);
    case Literal(_, _) => ScopeOkGrows(s, g, Visit(a, g, s).g);
    case _ =>
  }

  lemma {:induction false} UnaryScope(a: Ast, g: Gen, s: Scope)
    requires a.Unary? && Fragment(a) && ScopeOk(s, g.vars)
    ensures ScopeKept(a, g, s, VisitUnary(a, g, s))
    decreases a, 0
  {
    var (g0, s0) := Require(g, s, "unary_" + a.op, TUnit);
    RequireOk(g, s, "unary_" + a.op, TUnit);
    VisitScope(a.arg, g0, s0);
    var x := Visit(a.arg, g0, s0);
    ScopeOkGrows(x.s, x.g, VisitUnary(a, g, s).g);
  }

  lemma {:induction false} BinaryScope(a: Ast, g: Gen, s: Scope)
    requires a.Binary? && Fragment(a) && ScopeOk(s, g.vars)
    ensures ScopeKept(a, g, s, VisitBinary(a, g, s))
    decreases a, 0
  {
    var (g0, s0) := Require(g, s, a.op, a.ty);
    RequireOk(g, s, a.op, a.ty);
    VisitScope(a.left, g0, s0);
    var x := Visit(a.left, g0, s0);
    VisitScope(a.right, x.g, x.s);
    var y := Visit(a.right, x.g, x.s);
    ScopeOkGrows(y.s, y.g, VisitBinary(a, g, s).g);
  }

  lemma {:induction false} CallScope(a: Ast, g: Gen, s: Scope)
    requires a.Call? && Fragment(a) && ScopeOk(s, g.vars)
    ensures ScopeKept(a, g, s, VisitCall(a, g, s))
    decreases a, 0
  {
    VisitArgsScope(a.args, g, s);
    var xs := VisitArgs(a.args, g, s);
    ScopeOkGrows(xs.s, xs.g, VisitCall(a, g, s).g);
  }

  lemma {:induction false} IfThenScope(a: Ast, g: Gen, s: Scope)
    requires a.IfThen? && Fragment(a) && ScopeOk(s, g.vars)
    ensures ScopeKept(a, g, s, VisitIfThen(a, g, s))
    ensures var (x, y) := IfThenParts(a, g, s);
            ScopeOk(x.s, x.g.vars) && ScopeExt(s, x.s)
    decreases a, 0
  {
    var l := |g.labels|;
    var (x, y) := IfThenParts(a, g, s);
    VisitScope(a.cond, AddThenLabels(g), s);
    ScopeOkGrows(x.s, x.g, Branch(x, l, l + 1));
    VisitScope(a.thn, Branch(x, l, l + 1), x.s);
    ScopeOkGrows(y.s, y.g, VisitIfThen(a, g, s).g);
  }

  lemma {:induction false} IfElseScope(a: Ast, g: Gen, s: Scope)
    requires a.IfElse? && Fragment(a) && ScopeOk(s, g.vars)
    ensures ScopeKept(a, g, s, VisitIfElse(a, g, s))
    ensures var (x, y, z) := IfParts(a, g, s);
            ScopeOk(x.s, x.g.vars) && ScopeExt(s, x.s) && ScopeOk(y.s, y.g.vars) && ScopeExt(x.s, y.s)
    decreases a, 0
  {
    var l := |g.labels|;
    var (x, y, z) := IfParts(a, g, s);
    VisitScope(a.cond, AddIfLabels(g), s);
    ScopeOkGrows(x.s, x.g, Branch(x, l, l + 2));
    VisitScope(a.thn, Branch(x, l, l + 2), x.s);
    ScopeOkGrows(y.s, y.g, BeginElse(y, l));
    VisitScope(a.els, BeginElse(y, l), y.s);
    ScopeOkGrows(z.s, z.g, VisitIfElse(a, g, s).g);
  }

  lemma {:induction false} WhileScope(a: Ast, g: Gen, s: Scope)
    requires a.While? && Fragment(a) && ScopeOk(s, g.vars)
    ensures ScopeKept(a, g, s, VisitWhile(a, g, s))
    ensures var (x, y) := WhileParts(a, g, s);
            ScopeOk(x.s, x.g.vars) && ScopeExt(s, x.s)
    decreases a, 0
  {
    var l := |g.labels|;
    var (x, y) := WhileParts(a, g, s);
    VisitScope(a.cond, BeginWhile(g), s);
    ScopeOkGrows(x.s, x.g, Branch(x, l + 1, l + 2));
    VisitScope(a.body, Branch(x, l + 1, l + 2), x.s);
    ScopeOkGrows(y.s, y.g, VisitWhile(a, g, s).g);
  }

  lemma {:induction false} VarExprScope(a: Ast, g: Gen, s: Scope)
    requires a.VarExpr? && Fragment(a) && ScopeOk(s, g.vars)
    ensures ScopeKept(a, g, s, VisitVarExpr(a, g, s))
    decreases a, 0
  {
    var g0 := AddVar(g, a.name, a.ty);
    ScopeOkGrows(s, g, g0);
    VisitScope(a.init, g0, s);
    VisitExtends(a.init, g0, s);
    var x := Visit(a.init, g0, s);
    assert x.g.vars[|g.vars|] == g0.vars[|g.vars|];
  }

  lemma {:induction false} VisitArgsScope(es: seq<Ast>, g: Gen, s: Scope)
    requires Operands(es) && ScopeOk(s, g.vars)
    ensures var r := VisitArgs(es, g, s); ScopeOk(r.s, r.g.vars) && ScopeExt(s, r.s)
    decreases es
  {
    if es != [] {
      VisitScope(es[0], g, s);
      var x := Visit(es[0], g, s);
      VisitArgsScope(es[1..], x.g, x.s);
    }
  }

  /** Variables 0 and 1 name functions; every variable holding a value comes after them. */
  ghost predicate VarsBound(vars: set<string>, s: Scope) {
    forall x :: x in vars ==> x in s && s[x] >= 2
  }

  /** A value node returns a variable that holds a value: never a function name, UNIT or INVALID. */
  lemma {:induction false} VisitValue(a: Ast, g: Gen, s: Scope, vars: set<string>, callees: set<string>)
    requires Operand(a) && Scoped(a, vars, callees) && ScopeOk(s, g.vars) && VarsBound(vars, s) && |g.vars| >= 2
    ensures var r := Visit(a, g, s); 2 <= r.v < |r.g.vars|
    decreases a
  {
    match a
    case Block(stmts, _) => VisitStatementsValue(stmts, g, map[], UNIT_VAR, {}, {});
    case IfElse(_, _, _, _) =>
      IfElseExtends(a, g, s);
      var (x, y, z) := IfParts(a, g, s);
      VisitExtends(a.els, BeginElse(y, |g.labels|), y.s);
    case Unary(op, arg, ty) =>
      var (g0, s0) := Require(g, s, "unary_" + op, TUnit);
      VisitExtends(arg, g0, s0);
    case Binary(op, left, right, ty) =>
      var (g0, s0) := Require(g, s, op, ty);
      VisitExtends(left, g0, s0);
      var x := Visit(left, g0, s0);
      VisitExtends(right, x.g, x.s);
    case Call(_, args, _) => VisitArgsExtends(args, g, s);
    case _ =>
  }

  lemma {:induction false} VisitStatementsValue(es: seq<Ast>, g: Gen, s: Scope, last: int,
                                                vars: set<string>, callees: set<string>)
    requires es != [] && IsValue(es[|es| - 1]) && Statements(es) && ScopedStatements(es, vars, callees)
    requires ScopeOk(s, g.vars) && VarsBound(vars, s) && |g.vars| >= 2
    ensures var r := VisitStatements(es, g, s, last); 2 <= r.v < |r.g.vars|
    decreases es
  {
    var x := Visit(es[0], g, s);
    VisitExtends(es[0], g, s);
    VisitScope(es[0], g, s);
    if |es| == 1 {
      VisitValue(es[0], g, s, vars, callees);
      assert VisitStatements(es[1..], x.g, x.s, x.v) == Low(x.g, x.s, x.v);
    } else {
      VarsBoundAfter(es[0], g, s, vars);
      assert es[1..][|es[1..]| - 1] == es[|es| - 1];
      VisitStatementsValue(es[1..], x.g, x.s, x.v, vars + Declared(es[0]), callees);
    }
  }

  lemma VarsBoundAfter(a: Ast, g: Gen, s: Scope, vars: set<string>)
    requires Fragment(a) && ScopeOk(s, g.vars) && VarsBound(vars, s) && |g.vars| >= 2
    ensures VarsBound(vars + Declared(a), Visit(a, g, s).s)
  {
    VisitScope(a, g, s);
    var r := Visit(a, g, s);
    forall x | x in vars + Declared(a)
      ensures x in r.s && r.s[x] >= 2
    {
      if a.VarExpr? && x != a.name {
        assert x in s - {a.name};
      }
    }
  }

  /** A node that is not a value returns UNIT. */
  lemma {:induction false} VisitUnit(a: Ast, g: Gen, s: Scope)
    requires Fragment(a) && !IsValue(a)
    ensures Visit(a, g, s).v == UNIT_VAR
    decreases a
  {
    if a.Block? {
      VisitStatementsUnit(a.stmts, g, map[], UNIT_VAR);
    }
  }

  lemma {:induction false} VisitStatementsUnit(es: seq<Ast>, g: Gen, s: Scope, last: int)
    requires Statements(es) && last == UNIT_VAR && (es == [] || !IsValue(es[|es| - 1]))
    ensures VisitStatements(es, g, s, last).v == UNIT_VAR
    decreases es
  {
    if es != [] {
      var x := Visit(es[0], g, s);
      if |es| == 1 {
        VisitUnit(es[0], g, s);
        assert VisitStatements(es[1..], x.g, x.s, x.v) == Low(x.g, x.s, x.v);
      } else {
        assert es[1..][|es[1..]| - 1] == es[|es| - 1];
        StatementsLastIrrelevant(es[1..], x.g, x.s, x.v, UNIT_VAR);
        VisitStatementsUnit(es[1..], x.g, x.s, UNIT_VAR);
      }
    }
  }

  lemma StatementsLastIrrelevant(es: seq<Ast>, g: Gen, s: Scope, v: int, w: int)
    requires es != []
    ensures VisitStatements(es, g, s, v) == VisitStatements(es, g, s, w)
  {
  }
}
