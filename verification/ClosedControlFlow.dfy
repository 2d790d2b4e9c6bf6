/**
 Closed control flow (ir.c:569-631): a subtree's code places every label it creates exactly once and
 jumps only to those labels, exactly when every `if` in it has an `else`.
*/
module ClosedControlFlow {
  import opened Syntax
  import opened SourceSemantics
  import opened Ir
  import opened Lowering
  import opened LoweringShape

  /** How many times a label is placed. */
  function Placed(code: seq<Instr>, l: int): nat {
    if code == [] then 0
    else Placed(code[..|code| - 1], l) + (if code[|code| - 1] == Label(l) then 1 else 0)
  }

  lemma PlacedEmit(g: Gen, i: Instr, l: int)
    ensures Placed(Emit(g, i).code, l) == Placed(g.code, l) + (if i == Label(l) then 1 else 0)
  {
    assert Emit(g, i).code[..|g.code|] == g.code;
  }

  /** The contribution of the code emitted between two states to the placements of l. */
  predicate Places(g: Gen, h: Gen, l: int, n: int) {
    Placed(h.code, l) == Placed(g.code, l) + n
  }

  lemma BranchPlaces(x: Low, lTrue: int, lFalse: int, l: int)
    ensures Places(x.g, Branch(x, lTrue, lFalse), l, if l == lTrue then 1 else 0)
  {
    var g1 := Emit(x.g, CondJump(x.v, lTrue, lFalse));
    PlacedEmit(x.g, CondJump(x.v, lTrue, lFalse), l);
    PlacedEmit(g1, Label(lTrue), l);
  }

  lemma CallPlaces(g: Gen, fn: int, args: seq<int>, ty: Ty, l: int)
    ensures Places(g, EmitCall(g, fn, args, ty), l, 0)
  {
    PlacedEmit(AddUnique(g, ty), CallFn(fn, args, |g.vars|), l);
  }

  lemma BeginElsePlaces(y: Low, k: int, l: int)
    ensures Places(y.g, BeginElse(y, k), l, if l == k + 2 then 1 else 0)
  {
    var g0 := AddUnique(y.g, TypeOfVar(y.g, y.v));
    var g1 := Emit(g0, Copy(y.v, |y.g.vars|));
    PlacedEmit(g0, Copy(y.v, |y.g.vars|), l);
    PlacedEmit(g1, Jump(k + 1), l);
    PlacedEmit(Emit(g1, Jump(k + 1)), Label(k + 2), l);
  }

  lemma EndIfPlaces(z: Low, res: int, k: int, l: int)
    ensures Places(z.g, EndIf(z, res, k), l, if l == k + 1 then 1 else 0)
  {
    var g1 := Emit(z.g, Copy(z.v, res));
    PlacedEmit(z.g, Copy(z.v, res), l);
    PlacedEmit(g1, Jump(k + 1), l);
    PlacedEmit(Emit(g1, Jump(k + 1)), Label(k + 1), l);
  }

  lemma BeginWhilePlaces(g: Gen, l: int)
    ensures Places(g, BeginWhile(g), l, if l == |g.labels| then 1 else 0)
  {
    PlacedEmit(AddLabel(AddLabel(AddLabel(g, "while_start"), "while_body"), "while_end"), Label(|g.labels|), l);
  }

  lemma EndPlaces(y: Low, jump: int, end: int, l: int)
    ensures Places(y.g, Emit(Emit(y.g, Jump(jump)), Label(end)), l, if l == end then 1 else 0)
  {
    PlacedEmit(y.g, Jump(jump), l);
    PlacedEmit(Emit(y.g, Jump(jump)), Label(end), l);
  }

  lemma LiteralPlaces(text: string, ty: Ty, g: Gen, s: Scope, l: int)
    ensures Places(g, VisitLiteral(text, ty, g, s).g, l, 0)
  {
    var g1 := AddUnique(g, ty);
    PlacedEmit(g1, LoadBool(true, |g.vars|), l);
    PlacedEmit(g1, LoadBool(false, |g.vars|), l);
    PlacedEmit(g1, LoadInt(LiteralInt(text), |g.vars|), l);
  }

  predicate Between(g: Gen, l: int, h: Gen) {
    |g.labels| <= l < |h.labels|
  }

  /**
   How a visit may place label l: never a label created outside it; and each label it creates exactly
   once, provided every `if` has an `else`.
  */
  predicate PlacesOwn(g: Gen, h: Gen, l: int, closed: bool) {
    && (!Between(g, l, h) ==> Places(g, h, l, 0))
    && (Between(g, l, h) && closed ==> Places(g, h, l, 1))
  }

  lemma {:induction false} VisitPlaces(a: Ast, g: Gen, s: Scope, l: int)
    ensures PlacesOwn(g, Visit(a, g, s).g, l, EveryIfHasElse(a))
    decreases a, 1
  {
    hide Placed, VisitUnary, VisitBinary, VisitCall, VisitIfThen, VisitIfElse, VisitWhile, VisitVarExpr;
    match a
    case Literal(text, ty) => LiteralPlaces(text, ty, g, s, l);
    case Unary(_, _, _) => UnaryPlaces(a, g, s, l);
    case Binary(_, _, _, _) => BinaryPlaces(a, g, s, l);
    case Call(_, _, _) => CalleePlaces(a, g, s, l);
    case Block(stmts, _) => VisitStatementsPlaces(stmts, g, map[], UNIT_VAR, l);
    case IfThen(_, _, _) => IfThenPlaces(a, g, s, l);
    case IfElse(_, _, _, _) => IfElsePlaces(a, g, s, l);
    case While(_, _, _) => WhilePlaces(a, g, s, l);
    case VarExpr(_, _, _, _) => VarExprPlaces(a, g, s, l);
    case _ =>
  }

  lemma {:induction false} CalleePlaces(a: Ast, g: Gen, s: Scope, l: int)
    requires a.Call?
    ensures PlacesOwn(g, VisitCall(a, g, s).g, l, EveryIfHasElse(a))
    decreases a, 0
  {
    hide Placed, VisitArgs;
    VisitArgsPlaces(a.args, g, s, l);
    var xs := VisitArgs(a.args, g, s);
    CallPlaces(xs.g, Lookup(s, a.callee), xs.vs, a.ty, l);
  }

  lemma {:induction false} VarExprPlaces(a: Ast, g: Gen, s: Scope, l: int)
    requires a.VarExpr?
    ensures PlacesOwn(g, VisitVarExpr(a, g, s).g, l, EveryIfHasElse(a))
    decreases a, 0
  {
    hide Visit;
    var g0 := AddVar(g, a.name, a.ty);
    VisitPlaces(a.init, g0, s, l);
    var x := Visit(a.init, g0, s);
    PlacedEmit(x.g, Copy(x.v, |g.vars|), l);
  }

  lemma {:induction false} UnaryPlaces(a: Ast, g: Gen, s: Scope, l: int)
    requires a.Unary?
    ensures PlacesOwn(g, VisitUnary(a, g, s).g, l, EveryIfHasElse(a))
    decreases a, 0
  {
    var (g0, s0) := Require(g, s, "unary_" + a.op, TUnit);
    VisitPlaces(a.arg, g0, s0, l);
    var x := Visit(a.arg, g0, s0);
    CallPlaces(x.g, s0["unary_" + a.op], [x.v], a.ty, l);
  }

  lemma {:induction false} BinaryPlaces(a: Ast, g: Gen, s: Scope, l: int)
    requires a.Binary?
    ensures PlacesOwn(g, VisitBinary(a, g, s).g, l, EveryIfHasElse(a))
    decreases a, 0
  {
    var (g0, s0) := Require(g, s, a.op, a.ty);
    VisitPlaces(a.left, g0, s0, l);
    VisitExtends(a.left, g0, s0);
    var x := Visit(a.left, g0, s0);
    VisitPlaces(a.right, x.g, x.s, l);
    VisitExtends(a.right, x.g, x.s);
    var y := Visit(a.right, x.g, x.s);
    CallPlaces(y.g, y.s[a.op], [x.v, y.v], a.ty, l);
  }

  lemma {:induction false} IfThenPlaces(a: Ast, g: Gen, s: Scope, l: int)
    requires a.IfThen?
    ensures PlacesOwn(g, VisitIfThen(a, g, s).g, l, false)
    ensures l == |g.labels| ==> Places(g, VisitIfThen(a, g, s).g, l, 2) && Between(g, l, VisitIfThen(a, g, s).g)
    ensures l == |g.labels| + 1 ==> Places(g, VisitIfThen(a, g, s).g, l, 0) && Between(g, l, VisitIfThen(a, g, s).g)
    decreases a, 0
  {
    hide Visit;
    var k := |g.labels|;
    var (x, y) := IfThenParts(a, g, s);
    IfThenExtends(a, g, s);
    VisitExtends(a.cond, AddThenLabels(g), s);
    VisitPlaces(a.cond, AddThenLabels(g), s, l);
    BranchPlaces(x, k, k + 1, l);
    VisitPlaces(a.thn, Branch(x, k, k + 1), x.s, l);
    EndPlaces(y, k + 1, k, l);
  }

  lemma {:induction false} IfElsePlaces(a: Ast, g: Gen, s: Scope, l: int)
    requires a.IfElse?
    ensures PlacesOwn(g, VisitIfElse(a, g, s).g, l, EveryIfHasElse(a))
    decreases a, 0
  {
    hide Visit, Placed, Branch, BeginElse, EndIf;
    var k := |g.labels|;
    var (x, y, z) := IfParts(a, g, s);
    IfSizes(a, g, s);
    VisitPlaces(a.cond, AddIfLabels(g), s, l);
    BranchPlaces(x, k, k + 2, l);
    VisitPlaces(a.thn, Branch(x, k, k + 2), x.s, l);
    BeginElsePlaces(y, k, l);
    VisitPlaces(a.els, BeginElse(y, k), y.s, l);
    EndIfPlaces(z, |y.g.vars|, k, l);
  }

  lemma {:induction false} WhilePlaces(a: Ast, g: Gen, s: Scope, l: int)
    requires a.While?
    ensures PlacesOwn(g, VisitWhile(a, g, s).g, l, EveryIfHasElse(a))
    decreases a, 0
  {
    hide Visit, Placed, Branch, BeginWhile;
    var k := |g.labels|;
    var (x, y) := WhileParts(a, g, s);
    WhileSizes(a, g, s);
    BeginWhilePlaces(g, l);
    VisitPlaces(a.cond, BeginWhile(g), s, l);
    BranchPlaces(x, k + 1, k + 2, l);
    VisitPlaces(a.body, Branch(x, k + 1, k + 2), x.s, l);
    EndPlaces(y, k, k + 2, l);
  }

  lemma {:induction false} VisitArgsPlaces(es: seq<Ast>, g: Gen, s: Scope, l: int)
    ensures PlacesOwn(g, VisitArgs(es, g, s).g, l, EveryIfHasElseIn(es))
    decreases es
  {
    if es != [] {
      VisitPlaces(es[0], g, s, l);
      VisitExtends(es[0], g, s);
      var x := Visit(es[0], g, s);
      VisitArgsPlaces(es[1..], x.g, x.s, l);
      VisitArgsExtends(es[1..], x.g, x.s);
    }
  }

  lemma {:induction false} VisitStatementsPlaces(es: seq<Ast>, g: Gen, s: Scope, last: int, l: int)
    ensures PlacesOwn(g, VisitStatements(es, g, s, last).g, l, EveryIfHasElseIn(es))
    decreases es
  {
    if es != [] {
      VisitPlaces(es[0], g, s, l);
      VisitExtends(es[0], g, s);
      var x := Visit(es[0], g, s);
      VisitStatementsPlaces(es[1..], x.g, x.s, x.v, l);
      VisitStatementsExtends(es[1..], x.g, x.s, x.v);
    }
  }

  /** The three labels of an `if` with `else` are placed once each, whatever is inside it. */
  lemma IfElsePlacesOwn(a: Ast, g: Gen, s: Scope, l: int)
    requires a.IfElse? && |g.labels| <= l < |g.labels| + 3
    ensures var h := VisitIfElse(a, g, s).g; Places(g, h, l, 1) && Between(g, l, h)
  {
    hide Visit, Placed, Branch, BeginElse, EndIf;
    var k := |g.labels|;
    var (x, y, z) := IfParts(a, g, s);
    IfSizes(a, g, s);
    VisitPlaces(a.cond, AddIfLabels(g), s, l);
    BranchPlaces(x, k, k + 2, l);
    VisitPlaces(a.thn, Branch(x, k, k + 2), x.s, l);
    BeginElsePlaces(y, k, l);
    VisitPlaces(a.els, BeginElse(y, k), y.s, l);
    EndIfPlaces(z, |y.g.vars|, k, l);
  }

  /** So are those of a `while`. */
  lemma WhilePlacesOwn(a: Ast, g: Gen, s: Scope, l: int)
    requires a.While? && |g.labels| <= l < |g.labels| + 3
    ensures var h := VisitWhile(a, g, s).g; Places(g, h, l, 1) && Between(g, l, h)
  {
    hide Visit, Placed, Branch, BeginWhile;
    var k := |g.labels|;
    var (x, y) := WhileParts(a, g, s);
    WhileSizes(a, g, s);
    BeginWhilePlaces(g, l);
    VisitPlaces(a.cond, BeginWhile(g), s, l);
    BranchPlaces(x, k + 1, k + 2, l);
    VisitPlaces(a.body, Branch(x, k + 1, k + 2), x.s, l);
    EndPlaces(y, k, k + 2, l);
  }

  /** The code emitted between two states places no label from lo up to hi. */
  ghost predicate PlacesNone(g: Gen, h: Gen, lo: int, hi: int) {
    forall l :: lo <= l < hi ==> Places(g, h, l, 0)
  }

  lemma NoneThen(g: Gen, h: Gen, k: Gen, lo: int, hi: int)
    requires PlacesNone(g, h, lo, hi) && PlacesNone(h, k, lo, hi)
    ensures PlacesNone(g, k, lo, hi)
  {
    forall l | lo <= l < hi
      ensures Places(g, k, l, 0)
    {
      assert Places(g, h, l, 0) && Places(h, k, l, 0);
    }
  }

  /** Creating labels, variables and names places no label. */
  lemma NoneBefore(g: Gen, g0: Gen, h: Gen, lo: int, hi: int)
    requires g0.code == g.code && PlacesNone(g0, h, lo, hi)
    ensures PlacesNone(g, h, lo, hi)
  {
    forall l | lo <= l < hi
      ensures Places(g, h, l, 0)
    {
      assert Places(g0, h, l, 0);
    }
  }

  /** Labels created before a visit, or after it, are placed nowhere in its code. */
  lemma VisitPlacesNone(a: Ast, g: Gen, s: Scope, lo: int, hi: int)
    requires hi <= |g.labels| || |Visit(a, g, s).g.labels| <= lo
    ensures PlacesNone(g, Visit(a, g, s).g, lo, hi)
  {
    hide Visit, Places;
    forall l | lo <= l < hi
      ensures Places(g, Visit(a, g, s).g, l, 0)
    {
      VisitPlaces(a, g, s, l);
    }
  }

  lemma VisitArgsPlacesNone(es: seq<Ast>, g: Gen, s: Scope, lo: int, hi: int)
    requires hi <= |g.labels|
    ensures PlacesNone(g, VisitArgs(es, g, s).g, lo, hi)
  {
    hide VisitArgs, Places;
    forall l | lo <= l < hi
      ensures Places(g, VisitArgs(es, g, s).g, l, 0)
    {
      VisitArgsPlaces(es, g, s, l);
    }
  }

  lemma VisitStatementsPlacesNone(es: seq<Ast>, g: Gen, s: Scope, last: int, lo: int, hi: int)
    requires hi <= |g.labels|
    ensures PlacesNone(g, VisitStatements(es, g, s, last).g, lo, hi)
  {
    hide VisitStatements, Places;
    forall l | lo <= l < hi
      ensures Places(g, VisitStatements(es, g, s, last).g, l, 0)
    {
      VisitStatementsPlaces(es, g, s, last, l);
    }
  }

  lemma EmitPlacesNone(g: Gen, i: Instr, lo: int, hi: int)
    requires i.Label? ==> i.l < lo || hi <= i.l
    ensures PlacesNone(g, Emit(g, i), lo, hi)
  {
    forall l | lo <= l < hi
      ensures Places(g, Emit(g, i), l, 0)
    {
      PlacedEmit(g, i, l);
    }
  }

  lemma CallPlacesNone(g: Gen, fn: int, args: seq<int>, ty: Ty, lo: int, hi: int)
    ensures PlacesNone(g, EmitCall(g, fn, args, ty), lo, hi)
  {
    EmitPlacesNone(AddUnique(g, ty), CallFn(fn, args, |g.vars|), lo, hi);
    NoneBefore(g, AddUnique(g, ty), EmitCall(g, fn, args, ty), lo, hi);
  }

  lemma BranchPlacesNone(x: Low, lTrue: int, lFalse: int, lo: int, hi: int)
    requires lTrue < lo || hi <= lTrue
    ensures PlacesNone(x.g, Branch(x, lTrue, lFalse), lo, hi)
  {
    var g1 := Emit(x.g, CondJump(x.v, lTrue, lFalse));
    EmitPlacesNone(x.g, CondJump(x.v, lTrue, lFalse), lo, hi);
    EmitPlacesNone(g1, Label(lTrue), lo, hi);
    NoneThen(x.g, g1, Branch(x, lTrue, lFalse), lo, hi);
  }

  lemma BeginElsePlacesNone(y: Low, k: int, lo: int, hi: int)
    requires k + 2 < lo || hi <= k + 2
    ensures PlacesNone(y.g, BeginElse(y, k), lo, hi)
  {
    forall l | lo <= l < hi
      ensures Places(y.g, BeginElse(y, k), l, 0)
    {
      BeginElsePlaces(y, k, l);
    }
  }

  lemma EndIfPlacesNone(z: Low, res: int, k: int, lo: int, hi: int)
    requires k + 1 < lo || hi <= k + 1
    ensures PlacesNone(z.g, EndIf(z, res, k), lo, hi)
  {
    forall l | lo <= l < hi
      ensures Places(z.g, EndIf(z, res, k), l, 0)
    {
      EndIfPlaces(z, res, k, l);
    }
  }

  lemma BeginWhilePlacesNone(g: Gen, lo: int, hi: int)
    requires |g.labels| < lo || hi <= |g.labels|
    ensures PlacesNone(g, BeginWhile(g), lo, hi)
  {
    forall l | lo <= l < hi
      ensures Places(g, BeginWhile(g), l, 0)
    {
      BeginWhilePlaces(g, l);
    }
  }

  lemma EndPlacesNone(y: Low, jump: int, end: int, lo: int, hi: int)
    requires end < lo || hi <= end
    ensures PlacesNone(y.g, Emit(Emit(y.g, Jump(jump)), Label(end)), lo, hi)
  {
    forall l | lo <= l < hi
      ensures Places(y.g, Emit(Emit(y.g, Jump(jump)), Label(end)), l, 0)
    {
      EndPlaces(y, jump, end, l);
    }
  }

  /** An `if` without `else`, however deep, leaves a label that was created but never placed. */
  lemma {:induction false} UnplacedLabel(a: Ast, g: Gen, s: Scope) returns (l: int)
    requires !EveryIfHasElse(a)
    ensures Between(g, l, Visit(a, g, s).g) && Places(g, Visit(a, g, s).g, l, 0)
    decreases a, 1
  {
    match a
    case Unary(op, arg, ty) =>
      var (g0, s0) := Require(g, s, "unary_" + op, TUnit);
      l := UnplacedLabel(arg, g0, s0);
      var x := Visit(arg, g0, s0);
      CallPlaces(x.g, s0["unary_" + op], [x.v], ty, l);
    case Binary(_, _, _, _) => l := UnplacedInBinary(a, g, s);
    case Call(_, args, ty) =>
      l := UnplacedInArgs(args, g, s);
      var xs := VisitArgs(args, g, s);
      CallPlaces(xs.g, Lookup(s, a.callee), xs.vs, ty, l);
    case Block(stmts, _) => l := UnplacedInStatements(stmts, g, map[], UNIT_VAR);
    case IfThen(_, _, _) =>
      l := |g.labels| + 1;
      IfThenPlaces(a, g, s, l);
    case IfElse(_, _, _, _) => l := UnplacedInIfElse(a, g, s);
    case While(_, _, _) => l := UnplacedInWhile(a, g, s);
    case VarExpr(name, init, _, ty) =>
      var g0 := AddVar(g, name, ty);
      l := UnplacedLabel(init, g0, s);
      var x := Visit(init, g0, s);
      PlacedEmit(x.g, Copy(x.v, |g.vars|), l);
  }

  lemma {:induction false} UnplacedInBinary(a: Ast, g: Gen, s: Scope) returns (l: int)
    requires a.Binary? && !EveryIfHasElse(a)
    ensures Between(g, l, VisitBinary(a, g, s).g) && Places(g, VisitBinary(a, g, s).g, l, 0)
    decreases a, 0
  {
    var (g0, s0) := Require(g, s, a.op, a.ty);
    var x := Visit(a.left, g0, s0);
    var y := Visit(a.right, x.g, x.s);
    VisitExtends(a.left, g0, s0);
    VisitExtends(a.right, x.g, x.s);
    if !EveryIfHasElse(a.left) {
      l := UnplacedLabel(a.left, g0, s0);
      VisitPlaces(a.right, x.g, x.s, l);
    } else {
      l := UnplacedLabel(a.right, x.g, x.s);
      VisitPlaces(a.left, g0, s0, l);
    }
    CallPlaces(y.g, y.s[a.op], [x.v, y.v], a.ty, l);
  }

  lemma {:induction false} UnplacedInIfElse(a: Ast, g: Gen, s: Scope) returns (l: int)
    requires a.IfElse? && !EveryIfHasElse(a)
    ensures Between(g, l, VisitIfElse(a, g, s).g) && Places(g, VisitIfElse(a, g, s).g, l, 0)
    decreases a, 0
  {
    hide Visit, Places;
    var k := |g.labels|;
    var (x, y, z) := IfParts(a, g, s);
    IfElseExtends(a, g, s);
    VisitExtends(a.cond, AddIfLabels(g), s);
    if !EveryIfHasElse(a.cond) {
      l := UnplacedLabel(a.cond, AddIfLabels(g), s);
    } else if !EveryIfHasElse(a.thn) {
      l := UnplacedLabel(a.thn, Branch(x, k, k + 2), x.s);
    } else {
      l := UnplacedLabel(a.els, BeginElse(y, k), y.s);
    }
    VisitPlaces(a.cond, AddIfLabels(g), s, l);
    VisitPlaces(a.thn, Branch(x, k, k + 2), x.s, l);
    VisitPlaces(a.els, BeginElse(y, k), y.s, l);
    IfElseUnplaced(a, g, s, l);
  }

  lemma IfElseUnplaced(a: Ast, g: Gen, s: Scope, l: int)
    requires a.IfElse? && l >= |g.labels| + 3
    requires var k := |g.labels|;
             var (x, y, z) := IfParts(a, g, s);
             Places(AddIfLabels(g), x.g, l, 0) && Places(Branch(x, k, k + 2), y.g, l, 0) && Places(BeginElse(y, k), z.g, l, 0)
    ensures Places(g, VisitIfElse(a, g, s).g, l, 0)
  {
    hide Visit;
    var k := |g.labels|;
    var (x, y, z) := IfParts(a, g, s);
    BranchPlaces(x, k, k + 2, l);
    BeginElsePlaces(y, k, l);
    EndIfPlaces(z, |y.g.vars|, k, l);
  }

  lemma {:induction false} UnplacedInWhile(a: Ast, g: Gen, s: Scope) returns (l: int)
    requires a.While? && !EveryIfHasElse(a)
    ensures Between(g, l, VisitWhile(a, g, s).g) && Places(g, VisitWhile(a, g, s).g, l, 0)
    decreases a, 0
  {
    hide Visit, Places;
    var k := |g.labels|;
    var (x, y) := WhileParts(a, g, s);
    WhileExtends(a, g, s);
    VisitExtends(a.cond, BeginWhile(g), s);
    if !EveryIfHasElse(a.cond) {
      l := UnplacedLabel(a.cond, BeginWhile(g), s);
    } else {
      l := UnplacedLabel(a.body, Branch(x, k + 1, k + 2), x.s);
    }
    VisitPlaces(a.cond, BeginWhile(g), s, l);
    VisitPlaces(a.body, Branch(x, k + 1, k + 2), x.s, l);
    WhileUnplaced(a, g, s, l);
  }

  lemma WhileUnplaced(a: Ast, g: Gen, s: Scope, l: int)
    requires a.While? && l >= |g.labels| + 3
    requires var k := |g.labels|;
             var (x, y) := WhileParts(a, g, s);
             Places(BeginWhile(g), x.g, l, 0) && Places(Branch(x, k + 1, k + 2), y.g, l, 0)
    ensures Places(g, VisitWhile(a, g, s).g, l, 0)
  {
    hide Visit;
    var k := |g.labels|;
    var (x, y) := WhileParts(a, g, s);
    BeginWhilePlaces(g, l);
    BranchPlaces(x, k + 1, k + 2, l);
    EndPlaces(y, k, k + 2, l);
  }

  lemma {:induction false} UnplacedInArgs(es: seq<Ast>, g: Gen, s: Scope) returns (l: int)
    requires !EveryIfHasElseIn(es)
    ensures Between(g, l, VisitArgs(es, g, s).g) && Places(g, VisitArgs(es, g, s).g, l, 0)
    decreases es
  {
    var x := Visit(es[0], g, s);
    VisitExtends(es[0], g, s);
    VisitArgsExtends(es[1..], x.g, x.s);
    if !EveryIfHasElse(es[0]) {
      l := UnplacedLabel(es[0], g, s);
    } else {
      l := UnplacedInArgs(es[1..], x.g, x.s);
    }
    VisitPlaces(es[0], g, s, l);
    VisitArgsPlaces(es[1..], x.g, x.s, l);
  }

  lemma {:induction false} UnplacedInStatements(es: seq<Ast>, g: Gen, s: Scope, last: int) returns (l: int)
    requires !EveryIfHasElseIn(es)
    ensures var r := VisitStatements(es, g, s, last); Between(g, l, r.g) && Places(g, r.g, l, 0)
    decreases es
  {
    var x := Visit(es[0], g, s);
    VisitExtends(es[0], g, s);
    VisitStatementsExtends(es[1..], x.g, x.s, x.v);
    if !EveryIfHasElse(es[0]) {
      l := UnplacedLabel(es[0], g, s);
    } else {
      l := UnplacedInStatements(es[1..], x.g, x.s, x.v);
    }
    VisitPlaces(es[0], g, s, l);
    VisitStatementsPlaces(es[1..], x.g, x.s, x.v, l);
  }

  ghost predicate PlacesEachOnce(g: Gen, h: Gen) {
    forall l :: Between(g, l, h) ==> Places(g, h, l, 1)
  }

  /** Every label a subtree creates is placed exactly once in its code if and only if every `if` has an `else`. */
  lemma ClosedIffEveryIfHasElse(a: Ast, g: Gen, s: Scope)
    ensures EveryIfHasElse(a) <==> PlacesEachOnce(g, Visit(a, g, s).g)
  {
    var h := Visit(a, g, s).g;
    if EveryIfHasElse(a) {
      forall l | Between(g, l, h)
        ensures Places(g, h, l, 1)
      {
        VisitPlaces(a, g, s, l);
      }
    } else {
      var l := UnplacedLabel(a, g, s);
      assert Between(g, l, h) && !Places(g, h, l, 1);
    }
  }

  /** The labels an instruction may jump to. */
  function Targets(i: Instr): set<int> {
    match i
    case Jump(t) => {t}
    case CondJump(_, t, e) => {t, e}
    case _ => {}
  }

  /** The code emitted between g and h jumps only to labels created between g and h. */
  ghost predicate JumpsInside(g: Gen, h: Gen, code: seq<Instr>, from: nat, to: nat) {
    forall k, t :: from <= k < to && k < |code| && t in Targets(code[k]) ==> Between(g, t, h)
  }

  ghost predicate OwnJumps(g: Gen, h: Gen) {
    Extends(g, h) && JumpsInside(g, h, h.code, |g.code|, |h.code|)
  }

  /** Code emitted in two stretches, with labels within those of the whole. */
  lemma OwnJumpsCompose(g: Gen, g1: Gen, h1: Gen, h: Gen)
    requires Extends(g, g1) && OwnJumps(g1, h1) && Extends(h1, h)
    requires JumpsInside(g, h, h.code, |g.code|, |g1.code|)
    ensures JumpsInside(g, h, h.code, |g.code|, |h1.code|)
  {
    assert h1.code <= h.code;
    forall k, t | |g1.code| <= k < |h1.code| && t in Targets(h.code[k])
      ensures Between(g, t, h)
    {
      assert h.code[k] == h1.code[k];
      assert t in Targets(h1.code[k]);
      assert Between(g1, t, h1);
    }
  }

  lemma {:induction false} VisitOwnJumps(a: Ast, g: Gen, s: Scope)
    ensures OwnJumps(g, Visit(a, g, s).g)
    decreases a, 1
  {
    hide OwnJumps;
    VisitExtends(a, g, s);
    match a
    case Literal(text, ty) => LiteralOwnJumps(text, ty, g, s);
    case Unary(_, _, _) => UnaryOwnJumps(a, g, s);
    case Binary(_, _, _, _) => BinaryOwnJumps(a, g, s);
    case Call(_, _, _) => CallOwnJumps(a, g, s);
    case Block(stmts, _) => VisitStatementsOwnJumps(stmts, g, map[], UNIT_VAR);
    case IfThen(_, _, _) => IfThenOwnJumps(a, g, s);
    case IfElse(_, _, _, _) => IfElseOwnJumps(a, g, s);
    case While(_, _, _) => WhileOwnJumps(a, g, s);
    case VarExpr(_, _, _, _) => VarExprOwnJumps(a, g, s);
    case _ => NoOwnJumps(g);
  }

  lemma NoOwnJumps(g: Gen)
    ensures OwnJumps(g, g)
  {
  }

  lemma LiteralOwnJumps(text: string, ty: Ty, g: Gen, s: Scope)
    ensures OwnJumps(g, VisitLiteral(text, ty, g, s).g)
  {
  }

  lemma {:induction false} CallOwnJumps(a: Ast, g: Gen, s: Scope)
    requires a.Call? && Extends(g, VisitCall(a, g, s).g)
    ensures OwnJumps(g, VisitCall(a, g, s).g)
    decreases a, 0
  {
    VisitArgsOwnJumps(a.args, g, s);
    OwnJumpsCompose(g, g, VisitArgs(a.args, g, s).g, VisitCall(a, g, s).g);
  }

  lemma {:induction false} UnaryOwnJumps(a: Ast, g: Gen, s: Scope)
    requires a.Unary? && Extends(g, VisitUnary(a, g, s).g)
    ensures OwnJumps(g, VisitUnary(a, g, s).g)
    decreases a, 0
  {
    hide Visit;
    var (g0, s0) := Require(g, s, "unary_" + a.op, TUnit);
    VisitOwnJumps(a.arg, g0, s0);
    OwnJumpsCompose(g, g0, Visit(a.arg, g0, s0).g, VisitUnary(a, g, s).g);
  }

  lemma {:induction false} VarExprOwnJumps(a: Ast, g: Gen, s: Scope)
    requires a.VarExpr? && Extends(g, VisitVarExpr(a, g, s).g)
    ensures OwnJumps(g, VisitVarExpr(a, g, s).g)
    decreases a, 0
  {
    hide Visit;
    var g0 := AddVar(g, a.name, a.ty);
    VisitOwnJumps(a.init, g0, s);
    OwnJumpsCompose(g, g0, Visit(a.init, g0, s).g, VisitVarExpr(a, g, s).g);
  }

  lemma {:induction false} BinaryOwnJumps(a: Ast, g: Gen, s: Scope)
    requires a.Binary?
    ensures OwnJumps(g, VisitBinary(a, g, s).g)
    decreases a, 0
  {
    var (g0, s0) := Require(g, s, a.op, a.ty);
    var x := Visit(a.left, g0, s0);
    var y := Visit(a.right, x.g, x.s);
    var h := VisitBinary(a, g, s).g;
    BinaryExtends(a, g, s);
    VisitOwnJumps(a.left, g0, s0);
    VisitOwnJumps(a.right, x.g, x.s);
    ExtendsTrans(x.g, y.g, h);
    OwnJumpsCompose(g, g0, x.g, h);
    OwnJumpsCompose(g, x.g, y.g, h);
  }

  lemma {:induction false} IfThenOwnJumps(a: Ast, g: Gen, s: Scope)
    requires a.IfThen?
    ensures OwnJumps(g, VisitIfThen(a, g, s).g)
    decreases a, 0
  {
    var k := |g.labels|;
    var (x, y) := IfThenParts(a, g, s);
    var g0, g1 := AddThenLabels(g), Branch(x, k, k + 1);
    var h := VisitIfThen(a, g, s).g;
    IfThenExtends(a, g, s);
    VisitOwnJumps(a.cond, g0, s);
    VisitOwnJumps(a.thn, g1, x.s);
    ExtendsTrans(g1, y.g, h);
    ExtendsTrans(x.g, g1, h);
    ExtendsTrans(g, x.g, g1);
    OwnJumpsCompose(g, g0, x.g, h);
    OwnJumpsCompose(g, g1, y.g, h);
  }

  lemma {:induction false} IfElseOwnJumps(a: Ast, g: Gen, s: Scope)
    requires a.IfElse?
    ensures OwnJumps(g, VisitIfElse(a, g, s).g)
    decreases a, 0
  {
    hide Visit;
    var k := |g.labels|;
    var (x, y, z) := IfParts(a, g, s);
    var g0, g1, g2 := AddIfLabels(g), Branch(x, k, k + 2), BeginElse(y, k);
    var h := VisitIfElse(a, g, s).g;
    IfElseExtends(a, g, s);
    VisitOwnJumps(a.cond, g0, s);
    VisitOwnJumps(a.thn, g1, x.s);
    VisitOwnJumps(a.els, g2, y.s);
    IfElseChain(g, x.g, g1, y.g, g2, z.g, h);
    OwnJumpsCompose(g, g0, x.g, h);
    JumpsInsideMore(g, h, x.g, g1);
    OwnJumpsCompose(g, g1, y.g, h);
    JumpsInsideMore(g, h, y.g, g2);
    OwnJumpsCompose(g, g2, z.g, h);
    JumpsInsideMore(g, h, z.g, h);
  }

  /** The few instructions between two stretches jump inside too. */
  lemma JumpsInsideMore(g: Gen, h: Gen, x: Gen, g1: Gen)
    requires JumpsInside(g, h, h.code, |g.code|, |x.code|) && Extends(g1, h)
    requires forall k, t :: |x.code| <= k < |g1.code| && t in Targets(g1.code[k]) ==> Between(g, t, h)
    ensures JumpsInside(g, h, h.code, |g.code|, |g1.code|)
  {
    forall k, t | |x.code| <= k < |g1.code| && t in Targets(h.code[k])
      ensures Between(g, t, h)
    {
      assert h.code[k] == g1.code[k];
      assert t in Targets(g1.code[k]);
    }
  }

  lemma IfElseChain(g: Gen, x: Gen, g1: Gen, y: Gen, g2: Gen, z: Gen, h: Gen)
    requires Extends(g, x) && Extends(x, g1) && Extends(g1, y) && Extends(y, g2) && Extends(g2, z) && Extends(z, h)
    ensures Extends(g, g1) && Extends(g, g2) && Extends(g, z)
    ensures Extends(x, h) && Extends(g1, h) && Extends(y, h) && Extends(g2, h)
  {
    ExtendsTrans(g, x, g1);
    ExtendsTrans(g, g1, y);
    ExtendsTrans(g, y, g2);
    ExtendsTrans(g, g2, z);
    ExtendsTrans(g2, z, h);
    ExtendsTrans(y, g2, h);
    ExtendsTrans(g1, y, h);
    ExtendsTrans(x, g1, h);
  }

  lemma {:induction false} WhileOwnJumps(a: Ast, g: Gen, s: Scope)
    requires a.While?
    ensures OwnJumps(g, VisitWhile(a, g, s).g)
    decreases a, 0
  {
    hide Visit;
    var k := |g.labels|;
    var (x, y) := WhileParts(a, g, s);
    var g0, g1 := BeginWhile(g), Branch(x, k + 1, k + 2);
    var h := VisitWhile(a, g, s).g;
    WhileExtends(a, g, s);
    VisitOwnJumps(a.cond, g0, s);
    VisitOwnJumps(a.body, g1, x.s);
    ExtendsTrans(g1, y.g, h);
    ExtendsTrans(x.g, g1, h);
    ExtendsTrans(g, x.g, g1);
    assert h.code[|g.code|] == g0.code[|g.code|] by { assert x.g.code <= h.code; }
    OwnJumpsCompose(g, g0, x.g, h);
    OwnJumpsCompose(g, g1, y.g, h);
  }

  lemma {:induction false} VisitArgsOwnJumps(es: seq<Ast>, g: Gen, s: Scope)
    ensures OwnJumps(g, VisitArgs(es, g, s).g)
    decreases es
  {
    if es != [] {
      VisitOwnJumps(es[0], g, s);
      var x := Visit(es[0], g, s);
      VisitArgsOwnJumps(es[1..], x.g, x.s);
      var h := VisitArgs(es[1..], x.g, x.s).g;
      ExtendsTrans(g, x.g, h);
      OwnJumpsCompose(g, g, x.g, h);
      OwnJumpsCompose(g, x.g, h, h);
    }
  }

  lemma {:induction false} VisitStatementsOwnJumps(es: seq<Ast>, g: Gen, s: Scope, last: int)
    ensures OwnJumps(g, VisitStatements(es, g, s, last).g)
    decreases es
  {
    if es != [] {
      VisitOwnJumps(es[0], g, s);
      var x := Visit(es[0], g, s);
      VisitStatementsOwnJumps(es[1..], x.g, x.s, x.v);
      var h := VisitStatements(es[1..], x.g, x.s, x.v).g;
      ExtendsTrans(g, x.g, h);
      OwnJumpsCompose(g, g, x.g, h);
      OwnJumpsCompose(g, x.g, h, h);
    }
  }

  lemma {:induction false} PlacedPrefix(code: seq<Instr>, more: seq<Instr>, l: int)
    ensures Placed(code + more, l) >= Placed(code, l)
    decreases |more|
  {
    if more == [] {
      assert code + more == code;
    } else {
      var rest := more[..|more| - 1];
      assert (code + more)[..|code + more| - 1] == code + rest;
      PlacedPrefix(code, rest, l);
    }
  }

  lemma PlacedAt(code: seq<Instr>, k: nat)
    requires k < |code| && code[k].Label?
    ensures Placed(code[..k + 1], code[k].l) == Placed(code[..k], code[k].l) + 1
  {
    assert code[..k + 1][..k] == code[..k];
  }

  /** Labels placed at most once are unique. */
  lemma OnceIsUnique(code: seq<Instr>)
    requires forall l :: Placed(code, l) <= 1
    ensures UniqueLabels(code)
  {
    forall i, j | 0 <= i < j < |code| && code[i].Label?
      ensures code[i] != code[j]
    {
      if code[i] == code[j] {
        var l := code[i].l;
        PlacedAt(code, i);
        PlacedAt(code, j);
        assert code[..j] == code[..i + 1] + code[i + 1..j];
        PlacedPrefix(code[..i + 1], code[i + 1..j], l);
        assert code == code[..j + 1] + code[j + 1..];
        PlacedPrefix(code[..j + 1], code[j + 1..], l);
      }
    }
  }

  /** In a whole program without an else-less `if`, every label is placed once: assembling it is unambiguous. */
  lemma ProgramLabelsUnique(root: Ast)
    requires EveryIfHasElse(root)
    ensures UniqueLabels(Generate(root).code)
    ensures forall l :: 0 <= l < |Generate(root).labels| ==> Placed(Generate(root).code, l) == 1
  {
    var r := VisitRoot(root);
    forall l
      ensures Placed(Generate(root).code, l) == (if 0 <= l < |Generate(root).labels| then 1 else 0)
    {
      VisitPlaces(root, RootGen(), ROOT_SCOPE, l);
      PlacedEmit(r.g, CallFn(0, [r.v], UNIT_VAR), l);
      PlacedEmit(r.g, CallFn(1, [r.v], UNIT_VAR), l);
    }
    OnceIsUnique(Generate(root).code);
  }

  /** A label placed between two states is found between them. */
  lemma {:induction false} PlacedSomewhere(before: seq<Instr>, after: seq<Instr>, l: int) returns (q: nat)
    requires before <= after && Placed(before, l) < Placed(after, l)
    ensures |before| <= q < |after| && after[q] == Label(l)
    decreases |after|
  {
    if before == after {
      assert false;
    }
    q := |after| - 1;
    if after[q] != Label(l) {
      q := PlacedSomewhere(before, after[..q], l);
    }
  }

  /** The first place of a label is the one an assembler finds. */
  lemma {:induction false} FindFirst(code: seq<Instr>, k: nat)
    requires k < |code| && code[k].Label? && Placed(code[..k], code[k].l) == 0
    ensures FindLabel(code, code[k].l) == Some(k)
  {
    var q := FindLabel(code, code[k].l).value;
    if q < k {
      PlacedAt(code, q);
      assert code[..k] == code[..q + 1] + code[q + 1..k];
      PlacedPrefix(code[..q + 1], code[q + 1..k], code[k].l);
      assert false;
    }
    if k < q {
      FirstIsLeast(code, k);
    }
  }

  lemma {:induction false} FirstIsLeast(code: seq<Instr>, k: nat)
    requires k < |code| && code[k].Label?
    ensures FindLabel(code, code[k].l).Some? && FindLabel(code, code[k].l).value <= k
  {
    if k > 0 && code[0] != code[k] {
      assert code[k] == code[1..][k - 1];
      FirstIsLeast(code[1..], k - 1);
    }
  }

  /** A label placed nowhere is not found. */
  lemma NeverFound(code: seq<Instr>, l: int)
    requires Placed(code, l) == 0
    ensures FindLabel(code, l) == None
  {
    var f := FindLabel(code, l);
    if f.Some? {
      PlacedAt(code, f.value);
      assert code == code[..f.value + 1] + code[f.value + 1..];
      PlacedPrefix(code[..f.value + 1], code[f.value + 1..], l);
    }
  }

  lemma PlacedOnceBefore(code: seq<Instr>, k: nat)
    requires k < |code| && code[k].Label? && Placed(code, code[k].l) <= 1
    ensures Placed(code[..k], code[k].l) == 0
  {
    PlacedAt(code, k);
    assert code == code[..k + 1] + code[k + 1..];
    PlacedPrefix(code[..k + 1], code[k + 1..], code[k].l);
  }
}
