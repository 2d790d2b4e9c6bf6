/**
 The names a program calls (ir.c:444-513, 548-570, 289-310): its operators, its callees and the function that prints
 its value.  Counted on the tree, they are exactly the names of the functions the generated code calls.
*/
module CalledNames {
  import opened Syntax
  import opened SourceSemantics
  import opened Ir
  import opened Lowering
  import opened LoweringShape
  import opened ValueTypes

  function Called(a: Ast): set<string>
    decreases a
  {
    match a
    case Unary(op, arg, _) => {"unary_" + op} + Called(arg)
    case Binary(op, left, right, _) => {op} + Called(left) + Called(right)
    case Call(callee, args, _) => {callee} + CalledInAll(args)
    case Block(stmts, _) => CalledInAll(stmts)
    case IfThen(cond, thn, _) => Called(cond) + Called(thn)
    case IfElse(cond, thn, els, _) => Called(cond) + Called(thn) + Called(els)
    case While(cond, body, _) => Called(cond) + Called(body)
    case VarExpr(_, init, _, _) => Called(init)
    case _ => {}
  }

  function CalledInAll(es: seq<Ast>): set<string>
    decreases es
  {
    if es == [] then {} else Called(es[0]) + CalledInAll(es[1..])
  }

  function ProgramCalls(root: Ast): set<string> {
    Called(root) + if PrintCallee(RootType(root)) == "" then {} else {PrintCallee(RootType(root))}
  }

  predicate Calls(i: Instr, vars: seq<IrVar>, name: string) {
    i.CallFn? && 0 <= i.fn < |vars| && vars[i.fn].name == name
  }

  /** The code from `from` on calls exactly the functions of these names. */
  ghost predicate CallsNamed(code: seq<Instr>, from: nat, vars: seq<IrVar>, names: set<string>) {
    && (forall k :: from <= k < |code| && code[k].CallFn? ==> 0 <= code[k].fn < |vars| && vars[code[k].fn].name in names)
    && forall name :: name in names ==> exists k :: from <= k < |code| && Calls(code[k], vars, name)
  }

  ghost predicate CallsBetween(g: Gen, h: Gen, names: set<string>) {
    Extends(g, h) && CallsNamed(h.code, |g.code|, h.vars, names)
  }

  lemma CallsThen(g: Gen, h: Gen, k: Gen, a: set<string>, b: set<string>)
    requires CallsBetween(g, h, a) && CallsBetween(h, k, b)
    ensures CallsBetween(g, k, a + b)
  {
    ExtendsTrans(g, h, k);
    forall j | |g.code| <= j < |k.code| && k.code[j].CallFn?
      ensures 0 <= k.code[j].fn < |k.vars| && k.vars[k.code[j].fn].name in a + b
    {
      if j < |h.code| {
        assert k.code[j] == h.code[j];
      }
    }
    forall name | name in a + b
      ensures exists j :: |g.code| <= j < |k.code| && Calls(k.code[j], k.vars, name)
    {
      if name in a {
        var j :| |g.code| <= j < |h.code| && Calls(h.code[j], h.vars, name);
        assert Calls(k.code[j], k.vars, name);
      } else {
        var j :| |h.code| <= j < |k.code| && Calls(k.code[j], k.vars, name);
      }
    }
  }

  lemma CallsNothing(g: Gen, h: Gen)
    requires Extends(g, h) && g.code == h.code
    ensures CallsBetween(g, h, {})
  {
  }

  lemma CallsEmit(g: Gen, i: Instr)
    requires !i.CallFn?
    ensures CallsBetween(g, Emit(g, i), {})
  {
  }

  lemma CallsEmitCall(g: Gen, fn: int, args: seq<int>, dest: int)
    requires 0 <= fn < |g.vars|
    ensures CallsBetween(g, Emit(g, CallFn(fn, args, dest)), {g.vars[fn].name})
  {
    assert Calls(Emit(g, CallFn(fn, args, dest)).code[|g.code|], g.vars, g.vars[fn].name);
  }

  lemma CallsFresh(g: Gen, fn: int, args: seq<int>, ty: Ty)
    requires 0 <= fn < |g.vars|
    ensures CallsBetween(g, EmitCall(g, fn, args, ty), {g.vars[fn].name})
  {
    hide CallsBetween;
    var h := AddUnique(g, ty);
    CallsNothing(g, h);
    CallsEmitCall(h, fn, args, |g.vars|);
    CallsThen(g, h, EmitCall(g, fn, args, ty), {}, {g.vars[fn].name});
    assert {} + {g.vars[fn].name} == {g.vars[fn].name};
  }

  lemma CallsBranch(x: Low, lTrue: int, lFalse: int)
    ensures CallsBetween(x.g, Branch(x, lTrue, lFalse), {})
  {
    hide CallsBetween;
    CallsTwo(x.g, CondJump(x.v, lTrue, lFalse), Label(lTrue));
  }

  lemma CallsTwo(g: Gen, i: Instr, j: Instr)
    requires !i.CallFn? && !j.CallFn?
    ensures CallsBetween(g, Emit(Emit(g, i), j), {})
  {
    hide CallsBetween;
    CallsEmit(g, i);
    CallsEmit(Emit(g, i), j);
    var none: set<string> := {};
    CallsThen(g, Emit(g, i), Emit(Emit(g, i), j), none, none);
    assert none + none == none;
  }

  lemma CallsBeginElse(y: Low, l: int)
    ensures CallsBetween(y.g, BeginElse(y, l), {})
  {
  }

  lemma CallsEndIf(z: Low, res: int, l: int)
    ensures CallsBetween(z.g, EndIf(z, res, l), {})
  {
  }

  lemma CallsBeginWhile(g: Gen)
    ensures CallsBetween(g, BeginWhile(g), {})
  {
  }

  /** The scope in which a node is lowered binds what the node may read and call. */
  ghost predicate Bound(g: Gen, s: Scope, names: set<string>) {
    ScopeOk(s, g.vars) && names <= s.Keys
  }

  lemma BoundKept(g: Gen, s: Scope, names: set<string>, h: Gen, t: Scope)
    requires Bound(g, s, names) && ScopeExt(s, t) && ScopeOk(t, h.vars)
    ensures Bound(h, t, names)
  {
  }

  /** The calls in the code of a subtree are those of its operators and callees. */
  lemma {:induction false} VisitCalls(a: Ast, g: Gen, s: Scope, vars: set<string>, callees: set<string>)
    requires Fragment(a) && Scoped(a, vars, callees) && Bound(g, s, vars + callees)
    ensures CallsBetween(g, Visit(a, g, s).g, Called(a))
    decreases a, 1
  {
    hide CallsBetween, VisitIfThen, VisitIfElse, VisitWhile, VisitUnary, VisitBinary, VisitCall, VisitVarExpr;
    match a
    case Literal(_, _) => LiteralCalls(a.text, a.ty, g, s);
    case Unary(_, _, _) => UnaryCalls(a, g, s, vars, callees);
    case Binary(_, _, _, _) => BinaryCalls(a, g, s, vars, callees);
    case Call(_, _, _) => CallCalls(a, g, s, vars, callees);
    case Block(stmts, _) => StatementsCalls(stmts, g, map[], UNIT_VAR, {}, {});
    case IfThen(_, _, _) => IfThenCalls(a, g, s, vars, callees);
    case IfElse(_, _, _, _) => IfElseCalls(a, g, s, vars, callees);
    case While(_, _, _) => WhileCalls(a, g, s, vars, callees);
    case VarExpr(_, _, _, _) => VarExprCalls(a, g, s, vars, callees);
    case _ => CallsNothing(g, g);
  }

  lemma LiteralCalls(text: string, ty: Ty, g: Gen, s: Scope)
    ensures CallsBetween(g, VisitLiteral(text, ty, g, s).g, {})
  {
  }

  lemma {:induction false} UnaryCalls(a: Ast, g: Gen, s: Scope, vars: set<string>, callees: set<string>)
    requires a.Unary? && Fragment(a) && Scoped(a, vars, callees) && Bound(g, s, vars + callees)
    ensures CallsBetween(g, VisitUnary(a, g, s).g, Called(a))
    decreases a, 0
  {
    hide CallsBetween, Visit, EmitCall;
    var fn := "unary_" + a.op;
    var (g0, s0) := Require(g, s, fn, TUnit);
    var x := Visit(a.arg, g0, s0);
    RequireOk(g, s, fn, TUnit);
    CallsNothing(g, g0);
    VisitCalls(a.arg, g0, s0, vars, callees);
    CallsThen(g, g0, x.g, {}, Called(a.arg));
    VisitExtends(a.arg, g0, s0);
    CallsFresh(x.g, s0[fn], [x.v], a.ty);
    CallsThen(g, x.g, VisitUnary(a, g, s).g, {} + Called(a.arg), {fn});
    assert {} + Called(a.arg) + {fn} == Called(a);
  }

  lemma {:induction false} BinaryCalls(a: Ast, g: Gen, s: Scope, vars: set<string>, callees: set<string>)
    requires a.Binary? && Fragment(a) && Scoped(a, vars, callees) && Bound(g, s, vars + callees)
    ensures CallsBetween(g, VisitBinary(a, g, s).g, Called(a))
    decreases a, 0
  {
    hide CallsBetween, Visit, EmitCall;
    var (g0, s0) := Require(g, s, a.op, a.ty);
    var x := Visit(a.left, g0, s0);
    var y := Visit(a.right, x.g, x.s);
    RequireOk(g, s, a.op, a.ty);
    CallsNothing(g, g0);
    VisitCalls(a.left, g0, s0, vars, callees);
    CallsThen(g, g0, x.g, {}, Called(a.left));
    VisitScope(a.left, g0, s0);
    BoundKept(g0, s0, vars + callees, x.g, x.s);
    VisitCalls(a.right, x.g, x.s, vars, callees);
    VisitScope(a.right, x.g, x.s);
    CallsThen(g, x.g, y.g, {} + Called(a.left), Called(a.right));
    CallsFresh(y.g, y.s[a.op], [x.v, y.v], a.ty);
    CallsThen(g, y.g, VisitBinary(a, g, s).g, {} + Called(a.left) + Called(a.right), {a.op});
    assert {} + Called(a.left) + Called(a.right) + {a.op} == Called(a);
  }

  lemma {:induction false} CallCalls(a: Ast, g: Gen, s: Scope, vars: set<string>, callees: set<string>)
    requires a.Call? && Fragment(a) && Scoped(a, vars, callees) && Bound(g, s, vars + callees)
    ensures CallsBetween(g, VisitCall(a, g, s).g, Called(a))
    decreases a, 0
  {
    hide CallsBetween, VisitArgs, EmitCall;
    var xs := VisitArgs(a.args, g, s);
    ArgsCalls(a.args, g, s, vars, callees);
    VisitArgsExtends(a.args, g, s);
    assert a.callee in s;
    CallsFresh(xs.g, s[a.callee], xs.vs, a.ty);
    CallsThen(g, xs.g, VisitCall(a, g, s).g, CalledInAll(a.args), {a.callee});
    assert CalledInAll(a.args) + {a.callee} == Called(a);
  }

  lemma {:induction false} ArgsCalls(es: seq<Ast>, g: Gen, s: Scope, vars: set<string>, callees: set<string>)
    requires Operands(es) && ScopedAll(es, vars, callees) && Bound(g, s, vars + callees)
    ensures CallsBetween(g, VisitArgs(es, g, s).g, CalledInAll(es))
    decreases es
  {
    hide CallsBetween, Visit, Called;
    if es == [] {
      CallsNothing(g, g);
    } else {
      var x := Visit(es[0], g, s);
      VisitCalls(es[0], g, s, vars, callees);
      VisitScope(es[0], g, s);
      BoundKept(g, s, vars + callees, x.g, x.s);
      ArgsCalls(es[1..], x.g, x.s, vars, callees);
      CallsThen(g, x.g, VisitArgs(es[1..], x.g, x.s).g, Called(es[0]), CalledInAll(es[1..]));
    }
  }

  lemma {:induction false} StatementsCalls(es: seq<Ast>, g: Gen, s: Scope, last: int, vars: set<string>, callees: set<string>)
    requires Statements(es) && ScopedStatements(es, vars, callees) && Bound(g, s, vars + callees)
    ensures CallsBetween(g, VisitStatements(es, g, s, last).g, CalledInAll(es))
    decreases es
  {
    hide CallsBetween, Visit, Called;
    if es == [] {
      CallsNothing(g, g);
    } else {
      var x := Visit(es[0], g, s);
      VisitCalls(es[0], g, s, vars, callees);
      VisitScope(es[0], g, s);
      StatementsCalls(es[1..], x.g, x.s, x.v, vars + Declared(es[0]), callees);
      CallsThen(g, x.g, VisitStatements(es[1..], x.g, x.s, x.v).g, Called(es[0]), CalledInAll(es[1..]));
    }
  }

  lemma {:induction false} IfThenCalls(a: Ast, g: Gen, s: Scope, vars: set<string>, callees: set<string>)
    requires a.IfThen? && Fragment(a) && Scoped(a, vars, callees) && Bound(g, s, vars + callees)
    ensures CallsBetween(g, VisitIfThen(a, g, s).g, Called(a))
    decreases a, 0
  {
    hide CallsBetween, Visit, Branch;
    var k := |g.labels|;
    var (x, y) := IfThenParts(a, g, s);
    var g0, g1 := AddThenLabels(g), Branch(x, k, k + 1);
    IfThenScope(a, g, s);
    CallsNothing(g, g0);
    VisitCalls(a.cond, g0, s, vars, callees);
    CallsThen(g, g0, x.g, {}, Called(a.cond));
    CallsBranch(x, k, k + 1);
    CallsThen(g, x.g, g1, {} + Called(a.cond), {});
    ScopeOkGrows(x.s, x.g, g1);
    BoundKept(g, s, vars + callees, g1, x.s);
    VisitCalls(a.thn, g1, x.s, vars, callees);
    CallsThen(g, g1, y.g, {} + Called(a.cond) + {}, Called(a.thn));
    CallsTwo(y.g, Jump(k + 1), Label(k));
    CallsThen(g, y.g, VisitIfThen(a, g, s).g, {} + Called(a.cond) + {} + Called(a.thn), {});
    assert {} + Called(a.cond) + {} + Called(a.thn) + {} == Called(a);
  }

  lemma {:induction false} IfElseCalls(a: Ast, g: Gen, s: Scope, vars: set<string>, callees: set<string>)
    requires a.IfElse? && Fragment(a) && Scoped(a, vars, callees) && Bound(g, s, vars + callees)
    ensures CallsBetween(g, VisitIfElse(a, g, s).g, Called(a))
    decreases a, 0
  {
    hide CallsBetween, Visit, Branch, BeginElse, EndIf, AddIfLabels;
    var k := |g.labels|;
    var (x, y, z) := IfParts(a, g, s);
    var g2, called := BeginElse(y, k), Called(a.cond) + Called(a.thn);
    IfElseScope(a, g, s);
    ThenCalls(a, g, s, vars, callees);
    CallsBeginElse(y, k);
    CallsThen(g, y.g, g2, called, {});
    ScopeOkGrows(y.s, y.g, g2);
    ScopeExtTrans(s, x.s, y.s);
    BoundKept(g, s, vars + callees, g2, y.s);
    VisitCalls(a.els, g2, y.s, vars, callees);
    CallsThen(g, g2, z.g, called + {}, Called(a.els));
    CallsEndIf(z, |y.g.vars|, k);
    CallsThen(g, z.g, VisitIfElse(a, g, s).g, called + {} + Called(a.els), {});
    assert called + {} + Called(a.els) + {} == Called(a);
  }

  lemma {:induction false} ThenCalls(a: Ast, g: Gen, s: Scope, vars: set<string>, callees: set<string>)
    requires a.IfElse? && Fragment(a) && Scoped(a, vars, callees) && Bound(g, s, vars + callees)
    ensures CallsBetween(g, IfParts(a, g, s).1.g, Called(a.cond) + Called(a.thn))
    decreases a, 0, 0
  {
    hide CallsBetween, Visit, Branch, BeginElse, AddIfLabels, Called;
    var k := |g.labels|;
    var (x, y, z) := IfParts(a, g, s);
    var g0, g1 := AddIfLabels(g), Branch(x, k, k + 2);
    IfElseScope(a, g, s);
    AddsLabels(g);
    VisitCalls(a.cond, g0, s, vars, callees);
    CallsThen(g, g0, x.g, {}, Called(a.cond));
    CallsBranch(x, k, k + 2);
    CallsThen(g, x.g, g1, {} + Called(a.cond), {});
    ScopeOkGrows(x.s, x.g, g1);
    BoundKept(g, s, vars + callees, g1, x.s);
    VisitCalls(a.thn, g1, x.s, vars, callees);
    CallsThen(g, g1, y.g, {} + Called(a.cond) + {}, Called(a.thn));
    assert {} + Called(a.cond) + {} + Called(a.thn) == Called(a.cond) + Called(a.thn);
  }

  lemma AddsLabels(g: Gen)
    ensures CallsBetween(g, AddIfLabels(g), {}) && AddIfLabels(g).vars == g.vars
  {
    CallsNothing(g, AddIfLabels(g));
  }

  lemma ScopeExtTrans(s: Scope, t: Scope, u: Scope)
    requires ScopeExt(s, t) && ScopeExt(t, u)
    ensures ScopeExt(s, u)
  {
  }

  lemma {:induction false} WhileCalls(a: Ast, g: Gen, s: Scope, vars: set<string>, callees: set<string>)
    requires a.While? && Fragment(a) && Scoped(a, vars, callees) && Bound(g, s, vars + callees)
    ensures CallsBetween(g, VisitWhile(a, g, s).g, Called(a))
    decreases a, 0
  {
    hide CallsBetween, Visit, Branch;
    var k := |g.labels|;
    var (x, y) := WhileParts(a, g, s);
    var g0, g1 := BeginWhile(g), Branch(x, k + 1, k + 2);
    WhileScope(a, g, s);
    CallsBeginWhile(g);
    VisitCalls(a.cond, g0, s, vars, callees);
    CallsThen(g, g0, x.g, {}, Called(a.cond));
    CallsBranch(x, k + 1, k + 2);
    CallsThen(g, x.g, g1, {} + Called(a.cond), {});
    ScopeOkGrows(x.s, x.g, g1);
    BoundKept(g, s, vars + callees, g1, x.s);
    VisitCalls(a.body, g1, x.s, vars, callees);
    CallsThen(g, g1, y.g, {} + Called(a.cond) + {}, Called(a.body));
    CallsTwo(y.g, Jump(k), Label(k + 2));
    CallsThen(g, y.g, VisitWhile(a, g, s).g, {} + Called(a.cond) + {} + Called(a.body), {});
    assert {} + Called(a.cond) + {} + Called(a.body) + {} == Called(a);
  }

  lemma {:induction false} VarExprCalls(a: Ast, g: Gen, s: Scope, vars: set<string>, callees: set<string>)
    requires a.VarExpr? && Fragment(a) && Scoped(a, vars, callees) && Bound(g, s, vars + callees)
    ensures CallsBetween(g, VisitVarExpr(a, g, s).g, Called(a))
    decreases a, 0
  {
    hide CallsBetween, Visit;
    var g0 := AddVar(g, a.name, a.ty);
    var x := Visit(a.init, g0, s);
    ScopeOkGrows(s, g, g0);
    CallsNothing(g, g0);
    VisitCalls(a.init, g0, s, vars, callees);
    CallsThen(g, g0, x.g, {}, Called(a.init));
    CallsEmit(x.g, Copy(x.v, |g.vars|));
    CallsThen(g, x.g, VisitVarExpr(a, g, s).g, {} + Called(a.init), {});
    assert {} + Called(a.init) + {} == Called(a);
  }

  /** The generated code calls exactly the names counted on the tree. */
  lemma ProgramCallsNamed(root: Ast)
    requires WellScoped(root)
    ensures CallsNamed(Generate(root).code, 0, Generate(root).vars, ProgramCalls(root))
  {
    hide Visit, CallsNamed;
    var none: set<string> := {};
    var r, callee := VisitRoot(root), PrintCallee(RootType(root));
    assert none + ROOT_CALLEES == ROOT_CALLEES;
    VisitCalls(root, RootGen(), ROOT_SCOPE, none, ROOT_CALLEES);
    VisitExtends(root, RootGen(), ROOT_SCOPE);
    RootTypeIs(root);
    if callee != "" {
      var fn := if RootType(root) == TInt then 0 else 1;
      assert r.g.vars[fn] == ROOT_VARS[fn];
      CallsEmitCall(r.g, fn, [r.v], UNIT_VAR);
      CallsThen(RootGen(), r.g, Generate(root), Called(root), {callee});
    }
    assert Called(root) + none == Called(root);
  }
}
