/**
 Source to assembly.  Lowered code is fit for code generation (slot 0 is never read as a value, results
 never overwrite arguments), so the two simulations compose: the assembly of a program makes the source's
 calls and stops exactly when the source finishes.
*/
module CompilerTheorem {
  import opened Words
  import opened Syntax
  import opened SourceSemantics
  import opened Ir
  import opened Lowering
  import opened LoweringShape
  import opened LoweringTheorems
  import opened Machine
  import opened Codegen
  import opened CodegenMeaning
  import opened LabelNames
  import opened CalledNames

  /** Calls pass at most the six arguments that have registers. */
  predicate SixArgs(a: Ast)
    decreases a
  {
    match a
    case Unary(_, arg, _) => SixArgs(arg)
    case Binary(_, left, right, _) => SixArgs(left) && SixArgs(right)
    case Call(_, args, _) => |args| <= 6 && SixArgsIn(args)
    case Block(stmts, _) => SixArgsIn(stmts)
    case IfThen(cond, thn, _) => SixArgs(cond) && SixArgs(thn)
    case IfElse(cond, thn, els, _) => SixArgs(cond) && SixArgs(thn) && SixArgs(els)
    case While(cond, body, _) => SixArgs(cond) && SixArgs(body)
    case VarExpr(_, init, _, _) => SixArgs(init)
    case _ => true
  }

  predicate SixArgsIn(es: seq<Ast>)
    decreases es
  {
    es == [] || (SixArgs(es[0]) && SixArgsIn(es[1..]))
  }

  /** The code emitted between g and h is fit for code generation. */
  ghost predicate ReadyBetween(g: Gen, h: Gen) {
    Extends(g, h) && forall k :: |g.code| <= k < |h.code| ==> Ready(h.code[k], |h.vars|, |h.labels|)
  }

  lemma ReadyMore(i: Instr, n: nat, nl: nat, n': nat, nl': nat)
    requires Ready(i, n, nl) && n <= n' && nl <= nl'
    ensures Ready(i, n', nl')
  {
  }

  lemma ReadyThen(g: Gen, h: Gen, k: Gen)
    requires ReadyBetween(g, h) && ReadyBetween(h, k)
    ensures ReadyBetween(g, k)
  {
    hide Ready;
    ExtendsTrans(g, h, k);
    forall j | |g.code| <= j < |k.code|
      ensures Ready(k.code[j], |k.vars|, |k.labels|)
    {
      if j < |h.code| {
        assert k.code[j] == h.code[j];
        ReadyMore(h.code[j], |h.vars|, |h.labels|, |k.vars|, |k.labels|);
      }
    }
  }

  lemma ReadyNothing(g: Gen, h: Gen)
    requires Extends(g, h) && g.code == h.code
    ensures ReadyBetween(g, h)
  {
  }

  lemma ReadyEmit(g: Gen, i: Instr)
    requires Ready(i, |g.vars|, |g.labels|)
    ensures ReadyBetween(g, Emit(g, i))
  {
  }

  lemma ReadyCall(g: Gen, fn: int, args: seq<int>, ty: Ty)
    requires 0 <= fn < |g.vars| && |args| <= 6 && forall j :: 0 <= j < |args| ==> 2 <= args[j] < |g.vars|
    ensures ReadyBetween(g, EmitCall(g, fn, args, ty))
  {
    var h := AddUnique(g, ty);
    ReadyNothing(g, h);
    ReadyEmit(h, CallFn(fn, args, |g.vars|));
    ReadyThen(g, h, EmitCall(g, fn, args, ty));
  }

  lemma ReadyBranch(x: Low, lTrue: int, lFalse: int)
    requires 2 <= x.v < |x.g.vars| && 0 <= lTrue < |x.g.labels| && 0 <= lFalse < |x.g.labels|
    ensures ReadyBetween(x.g, Branch(x, lTrue, lFalse))
  {
    var g1 := Emit(x.g, CondJump(x.v, lTrue, lFalse));
    ReadyEmit(x.g, CondJump(x.v, lTrue, lFalse));
    ReadyEmit(g1, Label(lTrue));
    ReadyThen(x.g, g1, Emit(g1, Label(lTrue)));
  }

  /** The scope in which a node is lowered. */
  ghost predicate Static(g: Gen, s: Scope, vars: set<string>, callees: set<string>) {
    ScopeOk(s, g.vars) && VarsBound(vars, s) && callees <= s.Keys && |g.vars| >= 2
  }

  lemma StaticKept(g: Gen, s: Scope, vars: set<string>, callees: set<string>, h: Gen, t: Scope)
    requires Static(g, s, vars, callees) && ScopeExt(s, t) && ScopeOk(t, h.vars) && |g.vars| <= |h.vars|
    ensures Static(h, t, vars, callees)
  {
  }

  lemma {:induction false} VisitReady(a: Ast, g: Gen, s: Scope, vars: set<string>, callees: set<string>)
    requires Fragment(a) && Scoped(a, vars, callees) && SixArgs(a) && Static(g, s, vars, callees)
    ensures ReadyBetween(g, Visit(a, g, s).g)
    decreases a, 1
  {
    hide Ready, ReadyBetween, Static, VisitUnary, VisitBinary, VisitCall, VisitIfThen, VisitIfElse, VisitWhile, VisitVarExpr;
    StaticSize(g, s, vars, callees);
    match a
    case Literal(_, _) => LiteralReady(a, g, s);
    case Unary(_, _, _) => UnaryReady(a, g, s, vars, callees);
    case Binary(_, _, _, _) => BinaryReady(a, g, s, vars, callees);
    case Call(_, _, _) => CallReady(a, g, s, vars, callees);
    case Block(_, _) => BlockReady(a, g, s);
    case IfThen(_, _, _) => IfThenReady(a, g, s, vars, callees);
    case IfElse(_, _, _, _) => IfElseReady(a, g, s, vars, callees);
    case While(_, _, _) => WhileReady(a, g, s, vars, callees);
    case VarExpr(_, _, _, _) => VarExprReady(a, g, s, vars, callees);
    case _ => ReadyNothing(g, g);
  }

  lemma StaticSize(g: Gen, s: Scope, vars: set<string>, callees: set<string>)
    requires Static(g, s, vars, callees)
    ensures |g.vars| >= 2
  {
  }

  /** A block starts in an empty scope. */
  lemma {:induction false} BlockReady(a: Ast, g: Gen, s: Scope)
    requires a.Block? && Fragment(a) && ScopedStatements(a.stmts, {}, {}) && SixArgs(a) && |g.vars| >= 2
    ensures ReadyBetween(g, Visit(a, g, s).g)
    decreases a, 0
  {
    hide Ready, ReadyBetween;
    VisitStatementsReady(a.stmts, g, map[], UNIT_VAR, {}, {});
  }

  lemma LiteralReady(a: Ast, g: Gen, s: Scope)
    requires a.Literal? && Fragment(a) && |g.vars| >= 2
    ensures ReadyBetween(g, VisitLiteral(a.text, a.ty, g, s).g)
  {
    var h := AddUnique(g, a.ty);
    ReadyNothing(g, h);
    var i := if a.ty == TInt then LoadInt(LiteralInt(a.text), |g.vars|) else LoadBool(a.text == "true", |g.vars|);
    ReadyEmit(h, i);
    ReadyThen(g, h, Emit(h, i));
  }

  lemma {:induction false} UnaryReady(a: Ast, g: Gen, s: Scope, vars: set<string>, callees: set<string>)
    requires a.Unary? && Fragment(a) && Scoped(a, vars, callees) && SixArgs(a) && Static(g, s, vars, callees)
    ensures ReadyBetween(g, VisitUnary(a, g, s).g)
    decreases a, 0
  {
    hide Ready;
    var fn := "unary_" + a.op;
    var (g0, s0) := Require(g, s, fn, TUnit);
    var x := Visit(a.arg, g0, s0);
    RequireOk(g, s, fn, TUnit);
    StaticKept(g, s, vars, callees, g0, s0);
    ReadyNothing(g, g0);
    VisitReady(a.arg, g0, s0, vars, callees);
    ReadyThen(g, g0, x.g);
    VisitValue(a.arg, g0, s0, vars, callees);
    ReadyCall(x.g, s0[fn], [x.v], a.ty);
    ReadyThen(g, x.g, VisitUnary(a, g, s).g);
  }

  lemma {:induction false} BinaryReady(a: Ast, g: Gen, s: Scope, vars: set<string>, callees: set<string>)
    requires a.Binary? && Fragment(a) && Scoped(a, vars, callees) && SixArgs(a) && Static(g, s, vars, callees)
    ensures ReadyBetween(g, VisitBinary(a, g, s).g)
    decreases a, 0
  {
    hide Ready, ReadyBetween, Visit;
    var (g0, s0) := Require(g, s, a.op, a.ty);
    var x := Visit(a.left, g0, s0);
    var y := Visit(a.right, x.g, x.s);
    RequireOk(g, s, a.op, a.ty);
    StaticKept(g, s, vars, callees, g0, s0);
    ReadyNothing(g, g0);
    VisitReady(a.left, g0, s0, vars, callees);
    ReadyThen(g, g0, x.g);
    VisitValue(a.left, g0, s0, vars, callees);
    VisitExtends(a.left, g0, s0);
    VisitScope(a.left, g0, s0);
    StaticKept(g0, s0, vars, callees, x.g, x.s);
    VisitReady(a.right, x.g, x.s, vars, callees);
    ReadyThen(g, x.g, y.g);
    VisitValue(a.right, x.g, x.s, vars, callees);
    VisitExtends(a.right, x.g, x.s);
    VisitScope(a.right, x.g, x.s);
    ReadyCall(y.g, y.s[a.op], [x.v, y.v], a.ty);
    ReadyThen(g, y.g, VisitBinary(a, g, s).g);
  }

  lemma {:induction false} CallReady(a: Ast, g: Gen, s: Scope, vars: set<string>, callees: set<string>)
    requires a.Call? && Fragment(a) && Scoped(a, vars, callees) && SixArgs(a) && Static(g, s, vars, callees)
    ensures ReadyBetween(g, VisitCall(a, g, s).g)
    decreases a, 0
  {
    hide Ready;
    var xs := VisitArgs(a.args, g, s);
    VisitArgsReady(a.args, g, s, vars, callees);
    assert a.callee in s;
    ReadyCall(xs.g, s[a.callee], xs.vs, a.ty);
    ReadyThen(g, xs.g, VisitCall(a, g, s).g);
  }

  lemma {:induction false} VisitArgsReady(es: seq<Ast>, g: Gen, s: Scope, vars: set<string>, callees: set<string>)
    requires Operands(es) && ScopedAll(es, vars, callees) && SixArgsIn(es) && Static(g, s, vars, callees)
    ensures var xs := VisitArgs(es, g, s);
            && ReadyBetween(g, xs.g) && |xs.vs| == |es| && |g.vars| <= |xs.g.vars|
            && forall j :: 0 <= j < |xs.vs| ==> 2 <= xs.vs[j] < |xs.g.vars|
    decreases es
  {
    hide Ready, ReadyBetween, Visit;
    ReadyNothing(g, g);
    if es != [] {
      var x := Visit(es[0], g, s);
      VisitReady(es[0], g, s, vars, callees);
      VisitValue(es[0], g, s, vars, callees);
      VisitExtends(es[0], g, s);
      VisitScope(es[0], g, s);
      StaticKept(g, s, vars, callees, x.g, x.s);
      VisitArgsReady(es[1..], x.g, x.s, vars, callees);
      ReadyThen(g, x.g, VisitArgs(es[1..], x.g, x.s).g);
    }
  }

  lemma {:induction false} VisitStatementsReady(es: seq<Ast>, g: Gen, s: Scope, last: int, vars: set<string>, callees: set<string>)
    requires Statements(es) && ScopedStatements(es, vars, callees) && SixArgsIn(es) && Static(g, s, vars, callees)
    ensures ReadyBetween(g, VisitStatements(es, g, s, last).g)
    decreases es
  {
    hide Ready;
    ReadyNothing(g, g);
    if es != [] {
      var x := Visit(es[0], g, s);
      VisitReady(es[0], g, s, vars, callees);
      VisitExtends(es[0], g, s);
      VisitScope(es[0], g, s);
      VarsBoundAfter(es[0], g, s, vars);
      CalleesKept(es[0], g, s, callees);
      VisitStatementsReady(es[1..], x.g, x.s, x.v, vars + Declared(es[0]), callees);
      ReadyThen(g, x.g, VisitStatements(es[1..], x.g, x.s, x.v).g);
    }
  }

  lemma CalleesKept(a: Ast, g: Gen, s: Scope, callees: set<string>)
    requires callees <= s.Keys
    ensures callees <= Visit(a, g, s).s.Keys
  {
    assert s.Keys <= Visit(a, g, s).s.Keys;
  }

  lemma {:induction false} VarExprReady(a: Ast, g: Gen, s: Scope, vars: set<string>, callees: set<string>)
    requires a.VarExpr? && Fragment(a) && Scoped(a, vars, callees) && SixArgs(a) && Static(g, s, vars, callees)
    ensures ReadyBetween(g, VisitVarExpr(a, g, s).g)
    decreases a, 0
  {
    var g0 := AddVar(g, a.name, a.ty);
    var x := Visit(a.init, g0, s);
    ScopeOkGrows(s, g, g0);
    ReadyNothing(g, g0);
    VisitReady(a.init, g0, s, vars, callees);
    VisitValue(a.init, g0, s, vars, callees);
    VisitExtends(a.init, g0, s);
    ReadyThen(g, g0, x.g);
    ReadyEmit(x.g, Copy(x.v, |g.vars|));
    ReadyThen(g, x.g, VisitVarExpr(a, g, s).g);
  }

  lemma {:induction false} IfThenReady(a: Ast, g: Gen, s: Scope, vars: set<string>, callees: set<string>)
    requires a.IfThen? && Fragment(a) && Scoped(a, vars, callees) && SixArgs(a) && Static(g, s, vars, callees)
    ensures ReadyBetween(g, VisitIfThen(a, g, s).g)
    decreases a, 0
  {
    hide Ready, Visit;
    var k := |g.labels|;
    var (x, y) := IfThenParts(a, g, s);
    var g0, g1 := AddThenLabels(g), Branch(x, k, k + 1);
    VisitExtends(a.cond, g0, s);
    VisitExtends(a.thn, g1, x.s);
    IfThenScope(a, g, s);
    ReadyNothing(g, g0);
    VisitReady(a.cond, g0, s, vars, callees);
    VisitValue(a.cond, g0, s, vars, callees);
    ReadyThen(g, g0, x.g);
    ReadyBranch(x, k, k + 1);
    ReadyThen(g, x.g, g1);
    StaticKept(g, s, vars, callees, g1, x.s);
    VisitReady(a.thn, g1, x.s, vars, callees);
    ReadyThen(g, g1, y.g);
    ReadyEndThen(y, k);
    ReadyThen(g, y.g, VisitIfThen(a, g, s).g);
  }

  lemma ReadyEndThen(y: Low, k: nat)
    requires k + 1 < |y.g.labels|
    ensures ReadyBetween(y.g, EndThen(y, k))
  {
    var g1 := Emit(y.g, Jump(k + 1));
    ReadyEmit(y.g, Jump(k + 1));
    ReadyEmit(g1, Label(k));
    ReadyThen(y.g, g1, Emit(g1, Label(k)));
  }

  lemma {:induction false} IfElseReady(a: Ast, g: Gen, s: Scope, vars: set<string>, callees: set<string>)
    requires a.IfElse? && Fragment(a) && Scoped(a, vars, callees) && SixArgs(a) && Static(g, s, vars, callees)
    ensures ReadyBetween(g, VisitIfElse(a, g, s).g)
    decreases a, 0
  {
    hide Ready, ReadyBetween, Visit, Branch, BeginElse, EndIf;
    var k := |g.labels|;
    var (x, y, z) := IfParts(a, g, s);
    var g0, g1, g2 := AddIfLabels(g), Branch(x, k, k + 2), BeginElse(y, k);
    IfElseExtends(a, g, s);
    IfElseScope(a, g, s);
    IfElseStatics(a, g, s, vars, callees);
    ReadyNothing(g, g0);
    VisitReady(a.cond, g0, s, vars, callees);
    ReadyThen(g, g0, x.g);
    ReadyBranch(x, k, k + 2);
    ReadyThen(g, x.g, g1);
    VisitReady(a.thn, g1, x.s, vars, callees);
    ReadyThen(g, g1, y.g);
    ReadyBeginElse(y, k);
    ReadyThen(g, y.g, g2);
    VisitReady(a.els, g2, y.s, vars, callees);
    ReadyThen(g, g2, z.g);
    ReadyEndIf(z, |y.g.vars|, k);
    ReadyThen(g, z.g, VisitIfElse(a, g, s).g);
  }

  /** The scopes, label ranges and values inside an `if`. */
  lemma IfElseStatics(a: Ast, g: Gen, s: Scope, vars: set<string>, callees: set<string>)
    requires a.IfElse? && Fragment(a) && Scoped(a, vars, callees) && Static(g, s, vars, callees)
    ensures var k := |g.labels|;
            var (x, y, z) := IfParts(a, g, s);
            && Static(AddIfLabels(g), s, vars, callees) && Static(Branch(x, k, k + 2), x.s, vars, callees)
            && Static(BeginElse(y, k), y.s, vars, callees)
            && 2 <= x.v < |x.g.vars| && 2 <= y.v < |y.g.vars| && 2 <= z.v < |z.g.vars|
            && 2 <= |y.g.vars| < |z.g.vars| && k + 3 <= |x.g.labels| && k + 3 <= |y.g.labels| && k + 3 <= |z.g.labels|
  {
    hide Ready, Visit;
    var k := |g.labels|;
    var (x, y, z) := IfParts(a, g, s);
    var g0, g1, g2 := AddIfLabels(g), Branch(x, k, k + 2), BeginElse(y, k);
    VisitExtends(a.cond, g0, s);
    VisitExtends(a.thn, g1, x.s);
    VisitExtends(a.els, g2, y.s);
    IfElseScope(a, g, s);
    StaticKept(g, s, vars, callees, g1, x.s);
    ScopeOkGrows(y.s, y.g, g2);
    StaticKept(g1, x.s, vars, callees, g2, y.s);
    VisitValue(a.cond, g0, s, vars, callees);
    VisitValue(a.thn, g1, x.s, vars, callees);
    VisitValue(a.els, g2, y.s, vars, callees);
  }

  lemma ReadyBeginElse(y: Low, k: nat)
    requires 2 <= y.v < |y.g.vars| && k + 2 < |y.g.labels|
    ensures ReadyBetween(y.g, BeginElse(y, k))
  {
    var res := |y.g.vars|;
    var g0 := AddUnique(y.g, TypeOfVar(y.g, y.v));
    var g1 := Emit(g0, Copy(y.v, res));
    var g2 := Emit(g1, Jump(k + 1));
    ReadyNothing(y.g, g0);
    ReadyEmit(g0, Copy(y.v, res));
    ReadyThen(y.g, g0, g1);
    ReadyEmit(g1, Jump(k + 1));
    ReadyThen(y.g, g1, g2);
    ReadyEmit(g2, Label(k + 2));
    ReadyThen(y.g, g2, Emit(g2, Label(k + 2)));
  }

  lemma ReadyEndIf(z: Low, res: int, k: nat)
    requires 2 <= z.v < |z.g.vars| && 2 <= res < |z.g.vars| && k + 1 < |z.g.labels|
    ensures ReadyBetween(z.g, EndIf(z, res, k))
  {
    var g1 := Emit(z.g, Copy(z.v, res));
    var g2 := Emit(g1, Jump(k + 1));
    ReadyEmit(z.g, Copy(z.v, res));
    ReadyEmit(g1, Jump(k + 1));
    ReadyThen(z.g, g1, g2);
    ReadyEmit(g2, Label(k + 1));
    ReadyThen(z.g, g2, Emit(g2, Label(k + 1)));
  }

  lemma {:induction false} WhileReady(a: Ast, g: Gen, s: Scope, vars: set<string>, callees: set<string>)
    requires a.While? && Fragment(a) && Scoped(a, vars, callees) && SixArgs(a) && Static(g, s, vars, callees)
    ensures ReadyBetween(g, VisitWhile(a, g, s).g)
    decreases a, 0
  {
    hide Ready, Visit;
    var k := |g.labels|;
    var (x, y) := WhileParts(a, g, s);
    var l := AddLabel(AddLabel(AddLabel(g, "while_start"), "while_body"), "while_end");
    var g0, g1 := BeginWhile(g), Branch(x, k + 1, k + 2);
    VisitExtends(a.cond, g0, s);
    VisitExtends(a.body, g1, x.s);
    WhileScope(a, g, s);
    ReadyNothing(g, l);
    ReadyLabel(l, k);
    ReadyThen(g, l, g0);
    VisitReady(a.cond, g0, s, vars, callees);
    VisitValue(a.cond, g0, s, vars, callees);
    ReadyThen(g, g0, x.g);
    ReadyBranch(x, k + 1, k + 2);
    ReadyThen(g, x.g, g1);
    StaticKept(g, s, vars, callees, g1, x.s);
    VisitReady(a.body, g1, x.s, vars, callees);
    ReadyThen(g, g1, y.g);
    ReadyEndWhile(y, k);
    ReadyThen(g, y.g, VisitWhile(a, g, s).g);
  }

  lemma ReadyLabel(g: Gen, k: nat)
    requires k < |g.labels|
    ensures ReadyBetween(g, Emit(g, Label(k)))
  {
    ReadyEmit(g, Label(k));
  }

  lemma ReadyEndWhile(y: Low, k: nat)
    requires k + 2 < |y.g.labels|
    ensures ReadyBetween(y.g, EndWhile(y, k))
  {
    var g1 := Emit(y.g, Jump(k));
    ReadyEmit(y.g, Jump(k));
    ReadyEmit(g1, Label(k + 2));
    ReadyThen(y.g, g1, Emit(g1, Label(k + 2)));
  }

  /** Lowered programs are fit for code generation: slot 0 is only ever the UNIT sink. */
  lemma ProgramReady(root: Ast)
    requires WellScoped(root) && SixArgs(root)
    ensures var h := Generate(root);
            AllReady(h.code, |h.vars|, |h.labels|) && AllAddressable(h.code, |h.vars|, |h.labels|)
  {
    hide Visit;
    var r, h := VisitRoot(root), Generate(root);
    assert Static(RootGen(), ROOT_SCOPE, {}, ROOT_CALLEES);
    VisitReady(root, RootGen(), ROOT_SCOPE, {}, ROOT_CALLEES);
    VisitExtends(root, RootGen(), ROOT_SCOPE);
    if IsValue(root) {
      RootValue(root);
      if PrintCallee(FinalType(r)) != "" {
        ReadyEmit(r.g, CallFn(if FinalType(r) == TInt then 0 else 1, [r.v], UNIT_VAR));
        ReadyThen(RootGen(), r.g, h);
      }
    } else {
      VisitUnit(root, RootGen(), ROOT_SCOPE);
    }
    forall k | 0 <= k < |h.code|
      ensures Ready(h.code[k], |h.vars|, |h.labels|)
    {
    }
  }

  /** No label has the name of a function the program calls. */
  predicate Uncalled(root: Ast, labels: seq<string>) {
    forall l :: 0 <= l < |labels| ==> labels[l] !in ProgramCalls(root)
  }

  /**
   The programs whose assembly is complete, and unambiguous under these label names: every label is placed exactly
   once, as an assembler demands, since every `if` has an `else`.  The code generator uses the names given to the
   labels when they were created; any pairwise distinct names do that the program does not call.
  */
  predicate Compilable(root: Ast, labels: seq<string>) {
    && WellScoped(root) && EveryIfHasElse(root) && SixArgs(root)
    && |labels| == |Generate(root).labels| && DistinctNames(labels) && Uncalled(root, labels)
  }

  /** The names as shipped will do exactly for programs with at most one `if` and one `while` that call none of them. */
  lemma ShippedNames(root: Ast)
    requires WellScoped(root) && EveryIfHasElse(root) && SixArgs(root)
    ensures Compilable(root, Generate(root).labels)
            <==> Ifs(root) <= 1 && Whiles(root) <= 1 && LabelsUsed(root) !! ProgramCalls(root)
  {
    hide Generate, WellScoped, SixArgs, Ifs, Whiles, DistinctNames, EveryIfHasElse, LabelsUsed, ProgramCalls;
    var labels := Generate(root).labels;
    NamesDistinctIff(root);
    forall name: string ensures name in labels <==> name in LabelsUsed(root) {
      LabelsAre(root, name);
    }
    if LabelsUsed(root) !! ProgramCalls(root) {
      forall l | 0 <= l < |labels| ensures labels[l] !in ProgramCalls(root) {
        assert labels[l] in LabelsUsed(root);
      }
    } else {
      var name :| name in LabelsUsed(root) && name in ProgramCalls(root);
      assert name in labels;
    }
  }

  function AssemblyOf(root: Ast, labels: seq<string>): seq<X64>
    requires Compilable(root, labels)
  {
    ProgramReady(root);
    Assemble(Generate(root).code, Generate(root).vars, labels)
  }

  lemma ProgramCompiled(root: Ast, labels: seq<string>)
    requires Compilable(root, labels)
    ensures Compiled(Program(root), labels, AssemblyOf(root, labels))
  {
    hide Generate, AllReady, AllAddressable, Assemble, WellScoped, SixArgs, DistinctNames, ProgramCalls;
    ProgramReady(root);
    ProgramCallsNamed(root);
  }

  /** What the machine must do, given what the source does. */
  ghost predicate AssemblySimulated(root: Ast, labels: seq<string>, out: Outcome, w: World, fuel: nat, m: State, k: nat, e: State)
    requires Compilable(root, labels)
  {
    var asm := AssemblyOf(root, labels);
    match out
    case Wrong => false
    case Elseless(_) => false
    case Timeout(tr) => MRun(asm, w, m, k) == Some(e) && e.core.trace == tr && !Stopped(asm, e) && k >= fuel
    case Done(_, tr) => MRun(asm, w, m, k) == Some(e) && e.core.trace == tr && Stopped(asm, e)
  }

  /**
   Compilation preserves meaning, from source to assembly, for any initial registers and frame: as long as
   no division of the source faults, the machine makes the source's calls with the same arguments, stops
   when the source finishes, and keeps running while it loops.
  */
  lemma CompilationPreservesMeaning(root: Ast, labels: seq<string>, w: World, fuel: nat, m: State) returns (k: nat, e: State)
    requires Compilable(root, labels) && m.pc == 0 && m.core.trace == []
    requires DivSafe(TraceOf(RunProgram(root, w.oracle, fuel)))
    ensures AssemblySimulated(root, labels, RunProgram(root, w.oracle, fuel), w, fuel, m, k, e)
  {
    hide MRun, Run, RunProgram, Program, AssemblyOf, DivSafe, Compiled;
    var p, asm := Program(root), AssemblyOf(root, labels);
    var n, d := LoweringPreservesMeaning(root, w.oracle, fuel);
    NoElselessProgram(root, w.oracle, fuel);
    ProgramCompiled(root, labels);
    StartRel(root, labels, m);
    k, e := RunSim(p, labels, asm, w, START, n, d, m);
    StoppedIffHalted(p, labels, asm, d, e);
  }

  lemma NoElselessProgram(root: Ast, o: Oracle, fuel: nat)
    requires EveryIfHasElse(root)
    ensures !RunProgram(root, o, fuel).Elseless?
  {
    hide Eval;
    NoElseless(root, map[], [], o, fuel);
  }

  lemma StartRel(root: Ast, labels: seq<string>, m: State)
    requires Compilable(root, labels) && m.pc == 0 && m.core.trace == []
    ensures CodegenMeaning.Rel(Program(root), labels, START, m)
  {
    hide Generate, AllReady, AllAddressable, WellScoped, SixArgs, Ifs, Whiles;
    ProgramReady(root);
  }

  lemma StoppedStays(asm: seq<X64>, w: World, m: State, j: nat, e: State, k: nat)
    requires MRun(asm, w, m, j) == Some(e) && Stopped(asm, e) && j <= k
    ensures MRun(asm, w, m, k) == Some(e)
  {
    MRunSplit(asm, w, m, j, k - j);
  }

  lemma EffectTrace(i: X64, m: Core)
    requires Straight(i) && Effect(i, m).Some?
    ensures Effect(i, m).value.trace == m.trace
  {
  }

  /** A machine step makes at most one call. */
  lemma StepTrace(asm: seq<X64>, w: World, m: State)
    requires !Stopped(asm, m) && MStep(asm, w, m).Some?
    ensures m.core.trace <= MStep(asm, w, m).value.core.trace
  {
    hide Effect, FindDef;
    if Straight(asm[m.pc]) {
      EffectTrace(asm[m.pc], m.core);
    }
  }

  lemma {:induction false} MTraceGrows(asm: seq<X64>, w: World, m: State, n: nat)
    requires MRun(asm, w, m, n).Some?
    ensures m.core.trace <= MRun(asm, w, m, n).value.core.trace
    decreases n
  {
    hide MStep;
    if n > 0 && !Stopped(asm, m) {
      StepTrace(asm, w, m);
      MTraceGrows(asm, w, MStep(asm, w, m).value, n - 1);
    }
  }

  /**
   The converse: as long as divisions do not fault, the machine is never stuck, its calls so far are the source's
   first calls, and if it has stopped, the source finishes with the same calls.
  */
  lemma AssemblyHasOnlySourceBehaviour(root: Ast, labels: seq<string>, w: World, n: nat, m: State)
    requires Compilable(root, labels) && m.pc == 0 && m.core.trace == []
    requires DivSafe(TraceOf(RunProgram(root, w.oracle, n)))
    ensures var run := MRun(AssemblyOf(root, labels), w, m, n);
            var out := RunProgram(root, w.oracle, n);
            && run.Some? && run.value.core.trace <= TraceOf(out)
            && (Stopped(AssemblyOf(root, labels), run.value) ==> out.Done? && out.trace == run.value.core.trace)
  {
    hide MRun, RunProgram, Program, AssemblyOf, DivSafe;
    var asm := AssemblyOf(root, labels);
    var k, e := CompilationPreservesMeaning(root, labels, w, n, m);
    if n <= k {
      MRunSplit(asm, w, m, n, k - n);
      var x := MRun(asm, w, m, n).value;
      MTraceGrows(asm, w, x, k - n);
      if Stopped(asm, x) {
        StoppedStays(asm, w, m, n, x, k);
      }
    } else {
      StoppedStays(asm, w, m, k, e, n);
    }
  }

  /** Every division has two operands. */
  predicate Paired(tr: Trace) {
    forall i :: 0 <= i < |tr| ==> tr[i].callee == "/" || tr[i].callee == "%" ==> |tr[i].args| >= 2
  }

  lemma PairedPrefix(a: Trace, b: Trace)
    requires a <= b && Paired(b)
    ensures Paired(a)
  {
    forall i | 0 <= i < |a|
      ensures a[i].callee == "/" || a[i].callee == "%" ==> |a[i].args| >= 2
    {
      assert a[i] == b[i];
    }
  }

  /** A run of the IR that makes a call whose division faults stops the machine. */
  lemma {:induction false} FaultSim(p: Prog, labels: seq<string>, asm: seq<X64>, w: World, c: Cfg, n: nat, d: Cfg, m: State)
    returns (k: nat)
    requires Compiled(p, labels, asm) && CodegenMeaning.Rel(p, labels, c, m)
    requires Run(p, w.oracle, c, n) == Some(d) && Paired(d.trace) && DivSafe(c.trace) && !DivSafe(d.trace)
    ensures MRun(asm, w, m, k) == None
    decreases n
  {
    hide MRun, MStep, Step, CodegenMeaning.Rel, Compiled, DivSafe, Paired;
    if n == 0 || Halted(p, c) {
      assert false;
    } else {
      var c1 := Step(p, w.oracle, c).value;
      if DivSafe(c1.trace) {
        var k1, m1 := StepSim(p, labels, asm, w, c, m);
        k := FaultSim(p, labels, asm, w, c1, n - 1, d, m1);
        MRunSplit(asm, w, m, k1, k);
        k := k1 + k;
      } else {
        TraceGrows(p, w.oracle, c1, n - 1);
        PairedPrefix(c1.trace, d.trace);
        UnsafeStep(p, w.oracle, c);
        CallExists(p, labels, asm, c, m);
        DivisionFaults(p, labels, asm, w, c, m);
        k := 4;
      }
    }
  }

  lemma CallExists(p: Prog, labels: seq<string>, asm: seq<X64>, c: Cfg, m: State)
    requires Compiled(p, labels, asm) && !Halted(p, c)
    ensures Ready(p.code[c.pc], |p.vars|, |labels|)
  {
  }

  /** A step after which not all divisions are safe is itself such a division. */
  lemma UnsafeStep(p: Prog, o: Oracle, c: Cfg)
    requires !Halted(p, c) && Step(p, o, c).Some? && DivSafe(c.trace) && !DivSafe(Step(p, o, c).value.trace)
    requires Paired(Step(p, o, c).value.trace)
    ensures var i, tr := p.code[c.pc], Step(p, o, c).value.trace;
            && i.CallFn? && 0 <= i.fn < |p.vars| && p.vars[i.fn].name in {"/", "%"} && |i.args| >= 2
            && |tr| == |c.trace| + 1 && !DivSafeEvent(tr[|c.trace|])
  {
    hide FindLabel;
    var i, tr := p.code[c.pc], Step(p, o, c).value.trace;
    assert tr[..|c.trace|] == c.trace;
    assert forall j :: 0 <= j < |c.trace| ==> tr[j] == c.trace[j];
  }

  /** A division of the source that faults stops the machine. */
  lemma BadDivisionStops(root: Ast, labels: seq<string>, w: World, fuel: nat, m: State) returns (k: nat)
    requires Compilable(root, labels) && m.pc == 0 && m.core.trace == []
    requires var tr := TraceOf(RunProgram(root, w.oracle, fuel)); Paired(tr) && !DivSafe(tr)
    ensures MRun(AssemblyOf(root, labels), w, m, k) == None
  {
    hide MRun, Run, RunProgram, Program, AssemblyOf, DivSafe, Compiled, Paired, Step, CodegenMeaning.Rel;
    var p, asm := Program(root), AssemblyOf(root, labels);
    var n, d := LoweringPreservesMeaning(root, w.oracle, fuel);
    ProgramCompiled(root, labels);
    StartRel(root, labels, m);
    NoCallsSafe();
    k := FaultSim(p, labels, asm, w, START, n, d, m);
  }

  lemma NoCallsSafe()
    ensures DivSafe([])
  {
  }

  lemma {:induction false} EvalPaired(a: Ast, env: Env, tr: Trace, o: Oracle, fuel: nat)
    requires WellNamed(a) && Paired(tr)
    ensures Paired(TraceOf(Eval(a, env, tr, o, fuel)))
    decreases fuel, a
  {
    match a
    case Unary(_, arg, _) =>
      EvalPaired(arg, env, tr, o, fuel);
    case Binary(_, left, right, _) =>
      EvalPaired(left, env, tr, o, fuel);
      var x := Eval(left, env, tr, o, fuel);
      if x.Done? {
        EvalPaired(right, env, x.trace, o, fuel);
      }
    case Call(callee, args, _) =>
      assert callee != "/" && callee != "%";
      ArgsPaired(args, env, tr, o, fuel);
    case Block(stmts, _) => StatementsPaired(stmts, map[], tr, o, fuel, 0);
    case IfThen(cond, thn, _) =>
      EvalPaired(cond, env, tr, o, fuel);
      var x := Eval(cond, env, tr, o, fuel);
      if x.Done? && x.val != 0 {
        EvalPaired(thn, env, x.trace, o, fuel);
      }
    case IfElse(cond, thn, els, _) =>
      EvalPaired(cond, env, tr, o, fuel);
      var x := Eval(cond, env, tr, o, fuel);
      if x.Done? {
        EvalPaired(if x.val != 0 then thn else els, env, x.trace, o, fuel);
      }
    case While(cond, body, _) =>
      if fuel > 0 {
        EvalPaired(cond, env, tr, o, fuel);
        var x := Eval(cond, env, tr, o, fuel);
        if x.Done? && x.val != 0 {
          EvalPaired(body, env, x.trace, o, fuel);
          var y := Eval(body, env, x.trace, o, fuel);
          if y.Done? {
            EvalPaired(a, env, y.trace, o, fuel - 1);
          }
        }
      }
    case VarExpr(_, init, _, _) => EvalPaired(init, env, tr, o, fuel);
    case _ =>
  }

  lemma {:induction false} ArgsPaired(es: seq<Ast>, env: Env, tr: Trace, o: Oracle, fuel: nat)
    requires WellNamedIn(es) && Paired(tr)
    ensures match EvalArgs(es, env, tr, o, fuel)
            case ArgsDone(_, tr1) => Paired(tr1)
            case ArgsCut(out) => Paired(TraceOf(out))
    decreases fuel, es
  {
    if es != [] {
      EvalPaired(es[0], env, tr, o, fuel);
      var x := Eval(es[0], env, tr, o, fuel);
      if x.Done? {
        ArgsPaired(es[1..], env, x.trace, o, fuel);
      }
    }
  }

  lemma {:induction false} StatementsPaired(es: seq<Ast>, env: Env, tr: Trace, o: Oracle, fuel: nat, last: Word)
    requires WellNamedIn(es) && Paired(tr)
    ensures Paired(TraceOf(EvalStatements(es, env, tr, o, fuel, last)))
    decreases fuel, es
  {
    if es != [] {
      EvalPaired(es[0], env, tr, o, fuel);
      var x := Eval(es[0], env, tr, o, fuel);
      if x.Done? {
        var env1 := if es[0].VarExpr? then env[es[0].name := x.val] else env;
        StatementsPaired(es[1..], env1, x.trace, o, fuel, x.val);
      }
    }
  }

  lemma ProgramPaired(root: Ast, o: Oracle, fuel: nat)
    requires WellNamed(root)
    ensures Paired(TraceOf(RunProgram(root, o, fuel)))
  {
    hide Eval, RootType;
    EvalPaired(root, map[], [], o, fuel);
  }

  ghost predicate MachineFaults(asm: seq<X64>, w: World, m: State) {
    exists k: nat :: MRun(asm, w, m, k) == None
  }

  ghost predicate SourceFaults(root: Ast, o: Oracle) {
    exists fuel: nat :: !DivSafe(TraceOf(RunProgram(root, o, fuel)))
  }

  /**
   The machine gets stuck exactly when the source divides by zero, or the minimum by -1: nothing else can stop it but
   its end.
  */
  lemma FaultsIffBadDivision(root: Ast, labels: seq<string>, w: World, m: State)
    requires Compilable(root, labels) && WellNamed(root) && m.pc == 0 && m.core.trace == []
    ensures MachineFaults(AssemblyOf(root, labels), w, m) <==> SourceFaults(root, w.oracle)
  {
    hide MRun, RunProgram, AssemblyOf, DivSafe, Paired;
    var asm := AssemblyOf(root, labels);
    if SourceFaults(root, w.oracle) {
      var fuel: nat :| !DivSafe(TraceOf(RunProgram(root, w.oracle, fuel)));
      ProgramPaired(root, w.oracle, fuel);
      var k := BadDivisionStops(root, labels, w, fuel, m);
    }
    if MachineFaults(asm, w, m) {
      var k: nat :| MRun(asm, w, m, k) == None;
      if DivSafe(TraceOf(RunProgram(root, w.oracle, k))) {
        AssemblyHasOnlySourceBehaviour(root, labels, w, k, m);
      }
    }
  }

  /** `1 / 0` */
  function OneOverZero(): Ast {
    Binary("/", Literal("1", TInt), Literal("0", TInt), TInt)
  }

  lemma OneOverZeroRuns(o: Oracle)
    ensures !DivSafe(TraceOf(RunProgram(OneOverZero(), o, 0)))
  {
    hide LiteralInt, DivSafe;
    var result := o([], "/", [LiteralInt("1"), LiteralInt("0")]);
    var division := Event("/", [LiteralInt("1"), LiteralInt("0")], result);
    assert Eval(OneOverZero(), map[], [], o, 0) == Done(result, [division]);
    var tr := TraceOf(RunProgram(OneOverZero(), o, 0));
    assert tr[0] == division;
    ZeroIsZero();
    UnsafeAt(tr, 0);
  }

  lemma ZeroIsZero()
    ensures LiteralInt("0") == 0
  {
    assert DigitPrefix("0") == "0";
    assert DecimalValue("0") == 0;
  }

  lemma UnsafeAt(tr: Trace, i: nat)
    requires i < |tr| && !DivSafeEvent(tr[i])
    ensures !DivSafe(tr)
  {
  }

  lemma OneOverZeroShape()
    ensures var root := OneOverZero();
            && WellScoped(root) && EveryIfHasElse(root) && SixArgs(root) && WellNamed(root) && Ifs(root) == 0 && Whiles(root) == 0
  {
  }

  lemma OneOverZeroCompiles()
    ensures Compilable(OneOverZero(), []) && WellNamed(OneOverZero())
  {
    hide OneOverZero, WellScoped, EveryIfHasElse, SixArgs, Generate, Ifs, Whiles, ProgramCalls;
    var root := OneOverZero();
    var labels := Generate(root).labels;
    OneOverZeroShape();
    if labels != [] {
      LabelsAre(root, labels[0]);
      assert false;
    }
  }

  /** A program whose machine gets stuck, wherever it starts from. */
  lemma OneOverZeroFaults(w: World, m: State)
    requires m.pc == 0 && m.core.trace == []
    ensures Compilable(OneOverZero(), []) && MachineFaults(AssemblyOf(OneOverZero(), []), w, m)
  {
    hide RunProgram, AssemblyOf, DivSafe, OneOverZero, Compilable, MachineFaults;
    OneOverZeroCompiles();
    OneOverZeroRuns(w.oracle);
    FaultsIffBadDivision(OneOverZero(), [], w, m);
  }
}
