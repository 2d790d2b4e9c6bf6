/**
 Single assignment in lowering (ir.c:101-113, 423-644): a subtree's code writes only variables created
 while visiting it, and two instructions write the same variable only as the two copies that join the
 branches of an `if`, each followed by the jump to the end label placed after the second.
*/
module SingleAssignment {
  import opened Syntax
  import opened SourceSemantics
  import opened Ir
  import opened Lowering
  import opened LoweringShape
  import ClosedControlFlow

  function Dest(i: Instr): Option<int> {
    match i
    case LoadBool(_, d) => Some(d)
    case LoadInt(_, d) => Some(d)
    case Copy(_, d) => Some(d)
    case CallFn(_, _, d) => Some(d)
    case _ => None
  }

  predicate WritesVar(i: Instr, v: int) {
    Dest(i) == Some(v)
  }

  /** The copies at i and j end the two branches of one `if`. */
  predicate JoinPair(code: seq<Instr>, i: nat, j: nat) {
    && i < j && j + 2 < |code|
    && code[i].Copy? && code[j].Copy?
    && code[i + 1].Jump? && code[j + 1] == code[i + 1] && code[j + 2] == Label(code[i + 1].target)
  }

  /** The code from `from` on writes only variables in [lo, hi). */
  ghost predicate WritesIn(code: seq<Instr>, from: nat, lo: int, hi: int) {
    forall k, v :: from <= k < |code| && WritesVar(code[k], v) ==> lo <= v < hi
  }

  ghost predicate Single(code: seq<Instr>, from: nat) {
    forall i: nat, j: nat, v ::
      from <= i < j < |code| && WritesVar(code[i], v) && WritesVar(code[j], v) ==> JoinPair(code, i, j)
  }

  /** What every visit keeps about the code it emits between g and h. */
  ghost predicate Assigns(g: Gen, h: Gen) {
    Extends(g, h) && WritesIn(h.code, |g.code|, |g.vars|, |h.vars|) && Single(h.code, |g.code|)
  }

  lemma AssignsNothing(g: Gen, h: Gen)
    requires Extends(g, h) && g.code == h.code
    ensures Assigns(g, h)
  {
  }

  lemma JoinPairKept(code: seq<Instr>, more: seq<Instr>, i: nat, j: nat)
    requires JoinPair(code, i, j) && code <= more
    ensures JoinPair(more, i, j)
  {
  }

  /** Stretches that write disjoint ranges of variables compose. */
  lemma AssignsThen(g: Gen, h: Gen, k: Gen)
    requires Assigns(g, h) && Assigns(h, k)
    ensures Assigns(g, k)
  {
    ExtendsTrans(g, h, k);
    forall i, v | |g.code| <= i < |k.code| && WritesVar(k.code[i], v)
      ensures |g.vars| <= v < |k.vars|
    {
      if i < |h.code| {
        assert WritesVar(h.code[i], v);
      }
    }
    forall i: nat, j: nat, v | |g.code| <= i < j < |k.code| && WritesVar(k.code[i], v) && WritesVar(k.code[j], v)
      ensures JoinPair(k.code, i, j)
    {
      if j < |h.code| {
        assert WritesVar(h.code[i], v) && WritesVar(h.code[j], v);
        JoinPairKept(h.code, k.code, i, j);
      }
    }
  }

  /** An instruction that writes nothing, or a variable created since g and not written yet. */
  lemma AssignsEmit(g: Gen, h: Gen, i: Instr)
    requires Assigns(g, h)
    requires forall v :: WritesVar(i, v) ==> |g.vars| <= v < |h.vars|
    requires forall k, v :: |g.code| <= k < |h.code| && WritesVar(i, v) ==> !WritesVar(h.code[k], v)
    ensures Assigns(g, Emit(h, i))
  {
    var e := Emit(h, i);
    ExtendsTrans(g, h, e);
    forall k, v | |g.code| <= k < |e.code| && WritesVar(e.code[k], v)
      ensures |g.vars| <= v < |e.vars|
    {
      if k < |h.code| {
        assert WritesVar(h.code[k], v);
      }
    }
    forall k: nat, j: nat, v | |g.code| <= k < j < |e.code| && WritesVar(e.code[k], v) && WritesVar(e.code[j], v)
      ensures JoinPair(e.code, k, j)
    {
      assert WritesVar(h.code[k], v);
      if j < |h.code| {
        assert WritesVar(h.code[j], v);
        JoinPairKept(h.code, e.code, k, j);
      }
    }
  }

  lemma AssignsCall(g: Gen, fn: int, args: seq<int>, ty: Ty)
    ensures Assigns(g, EmitCall(g, fn, args, ty))
  {
    var h := AddUnique(g, ty);
    AssignsNothing(g, h);
    AssignsEmit(g, h, CallFn(fn, args, |g.vars|));
  }

  lemma AssignsControl(g: Gen, i: Instr)
    requires Dest(i).None?
    ensures Assigns(g, Emit(g, i))
  {
    AssignsNothing(g, g);
    AssignsEmit(g, g, i);
  }

  lemma AssignsBranch(x: Low, lTrue: int, lFalse: int)
    ensures Assigns(x.g, Branch(x, lTrue, lFalse))
  {
    var g1 := Emit(x.g, CondJump(x.v, lTrue, lFalse));
    AssignsControl(x.g, CondJump(x.v, lTrue, lFalse));
    AssignsControl(g1, Label(lTrue));
    AssignsThen(x.g, g1, Emit(g1, Label(lTrue)));
  }

  lemma AssignsLiteral(text: string, ty: Ty, g: Gen, s: Scope)
    ensures Assigns(g, VisitLiteral(text, ty, g, s).g)
  {
    var g1 := AddUnique(g, ty);
    AssignsNothing(g, g1);
    AssignsEmit(g, g1, LoadBool(true, |g.vars|));
    AssignsEmit(g, g1, LoadBool(false, |g.vars|));
    AssignsEmit(g, g1, LoadInt(LiteralInt(text), |g.vars|));
  }

  /** Every visit keeps single assignment, whatever the tree. */
  lemma {:induction false} VisitAssigns(a: Ast, g: Gen, s: Scope)
    ensures Assigns(g, Visit(a, g, s).g)
    decreases a, 1
  {
    hide Assigns;
    match a
    case Literal(text, ty) => AssignsLiteral(text, ty, g, s);
    case Unary(_, _, _) => UnaryAssigns(a, g, s);
    case Binary(_, _, _, _) => BinaryAssigns(a, g, s);
    case Call(callee, args, ty) =>
      var xs := VisitArgs(args, g, s);
      VisitArgsAssigns(args, g, s);
      AssignsCall(xs.g, Lookup(s, callee), xs.vs, ty);
      AssignsThen(g, xs.g, VisitCall(a, g, s).g);
    case Block(stmts, _) => VisitStatementsAssigns(stmts, g, map[], UNIT_VAR);
    case IfThen(_, _, _) => IfThenAssigns(a, g, s);
    case IfElse(_, _, _, _) => IfElseAssigns(a, g, s);
    case While(_, _, _) => WhileAssigns(a, g, s);
    case VarExpr(_, _, _, _) => VarExprAssigns(a, g, s);
    case _ => AssignsNothing(g, g);
  }

  lemma {:induction false} UnaryAssigns(a: Ast, g: Gen, s: Scope)
    requires a.Unary?
    ensures Assigns(g, VisitUnary(a, g, s).g)
    decreases a, 0
  {
    hide Assigns, Visit;
    var (g0, s0) := Require(g, s, "unary_" + a.op, TUnit);
    var x := Visit(a.arg, g0, s0);
    AssignsNothing(g, g0);
    VisitAssigns(a.arg, g0, s0);
    AssignsThen(g, g0, x.g);
    AssignsCall(x.g, s0["unary_" + a.op], [x.v], a.ty);
    AssignsThen(g, x.g, VisitUnary(a, g, s).g);
  }

  lemma {:induction false} BinaryAssigns(a: Ast, g: Gen, s: Scope)
    requires a.Binary?
    ensures Assigns(g, VisitBinary(a, g, s).g)
    decreases a, 0
  {
    hide Assigns, Visit;
    var (g0, s0) := Require(g, s, a.op, a.ty);
    var x := Visit(a.left, g0, s0);
    var y := Visit(a.right, x.g, x.s);
    AssignsNothing(g, g0);
    VisitAssigns(a.left, g0, s0);
    AssignsThen(g, g0, x.g);
    VisitAssigns(a.right, x.g, x.s);
    AssignsThen(g, x.g, y.g);
    AssignsCall(y.g, y.s[a.op], [x.v, y.v], a.ty);
    AssignsThen(g, y.g, VisitBinary(a, g, s).g);
  }

  lemma {:induction false} VarExprAssigns(a: Ast, g: Gen, s: Scope)
    requires a.VarExpr?
    ensures Assigns(g, VisitVarExpr(a, g, s).g)
    decreases a, 0
  {
    var g0 := AddVar(g, a.name, a.ty);
    var x := Visit(a.init, g0, s);
    VisitAssigns(a.init, g0, s);
    AssignsNothing(g, g0);
    AssignsThen(g, g0, x.g);
    AssignsEmit(g, x.g, Copy(x.v, |g.vars|));
  }

  lemma {:induction false} IfThenAssigns(a: Ast, g: Gen, s: Scope)
    requires a.IfThen?
    ensures Assigns(g, VisitIfThen(a, g, s).g)
    decreases a, 0
  {
    hide Assigns;
    var k := |g.labels|;
    var (x, y) := IfThenParts(a, g, s);
    var g0, g1 := AddThenLabels(g), Branch(x, k, k + 1);
    AssignsNothing(g, g0);
    VisitAssigns(a.cond, g0, s);
    AssignsThen(g, g0, x.g);
    AssignsBranch(x, k, k + 1);
    AssignsThen(g, x.g, g1);
    VisitAssigns(a.thn, g1, x.s);
    AssignsThen(g, g1, y.g);
    var g2 := Emit(y.g, Jump(k + 1));
    AssignsControl(y.g, Jump(k + 1));
    AssignsThen(g, y.g, g2);
    AssignsControl(g2, Label(k));
    AssignsThen(g, g2, Emit(g2, Label(k)));
  }

  lemma {:induction false} WhileAssigns(a: Ast, g: Gen, s: Scope)
    requires a.While?
    ensures Assigns(g, VisitWhile(a, g, s).g)
    decreases a, 0
  {
    hide Assigns;
    var k := |g.labels|;
    var (x, y) := WhileParts(a, g, s);
    var l := AddLabel(AddLabel(AddLabel(g, "while_start"), "while_body"), "while_end");
    var g0, g1 := BeginWhile(g), Branch(x, k + 1, k + 2);
    AssignsNothing(g, l);
    AssignsControl(l, Label(k));
    AssignsThen(g, l, g0);
    VisitAssigns(a.cond, g0, s);
    AssignsThen(g, g0, x.g);
    AssignsBranch(x, k + 1, k + 2);
    AssignsThen(g, x.g, g1);
    VisitAssigns(a.body, g1, x.s);
    AssignsThen(g, g1, y.g);
    var g2 := Emit(y.g, Jump(k));
    AssignsControl(y.g, Jump(k));
    AssignsThen(g, y.g, g2);
    AssignsControl(g2, Label(k + 2));
    AssignsThen(g, g2, Emit(g2, Label(k + 2)));
  }

  lemma {:induction false} IfElseAssigns(a: Ast, g: Gen, s: Scope)
    requires a.IfElse?
    ensures Assigns(g, VisitIfElse(a, g, s).g)
    decreases a, 0
  {
    hide Assigns, BeginElse;
    var k := |g.labels|;
    var (x, y, z) := IfParts(a, g, s);
    var g0, g1 := AddIfLabels(g), Branch(x, k, k + 2);
    AssignsNothing(g, g0);
    VisitAssigns(a.cond, g0, s);
    AssignsThen(g, g0, x.g);
    AssignsBranch(x, k, k + 2);
    AssignsThen(g, x.g, g1);
    VisitAssigns(a.thn, g1, x.s);
    AssignsThen(g, g1, y.g);
    VisitAssigns(a.els, BeginElse(y, k), y.s);
    JoinAssigns(y, z, k);
    AssignsThen(g, y.g, VisitIfElse(a, g, s).g);
  }

  /** The code after the then-branch: its copy, the else-branch, and the second copy to the same variable. */
  lemma JoinAssigns(y: Low, z: Low, k: int)
    requires Assigns(BeginElse(y, k), z.g)
    ensures Assigns(y.g, EndIf(z, |y.g.vars|, k))
  {
    var res, g2 := |y.g.vars|, BeginElse(y, k);
    var h := EndIf(z, res, k);
    var at1, at2 := |y.g.code|, |z.g.code|;
    ExtendsTrans(y.g, g2, z.g);
    ExtendsTrans(y.g, z.g, h);
    ExtendsTrans(g2, z.g, h);
    assert h.code[at1] == g2.code[at1] == Copy(y.v, res);
    assert h.code[at1 + 1] == g2.code[at1 + 1] == Jump(k + 1);
    assert h.code[at1 + 2] == g2.code[at1 + 2] == Label(k + 2);
    assert JoinPair(h.code, at1, at2);
    forall i, v | at1 <= i < |h.code| && WritesVar(h.code[i], v)
      ensures if i == at1 || i == at2 then v == res else |g2.code| <= i < at2 && WritesVar(z.g.code[i], v) && res < v < |h.vars|
    {
      if |g2.code| <= i < at2 {
        assert h.code[i] == z.g.code[i];
      }
    }
    forall i: nat, j: nat, v | at1 <= i < j < |h.code| && WritesVar(h.code[i], v) && WritesVar(h.code[j], v)
      ensures JoinPair(h.code, i, j)
    {
      if i != at1 {
        JoinPairKept(z.g.code, h.code, i, j);
      }
    }
  }

  lemma {:induction false} VisitArgsAssigns(es: seq<Ast>, g: Gen, s: Scope)
    ensures Assigns(g, VisitArgs(es, g, s).g)
    decreases es
  {
    hide Assigns;
    AssignsNothing(g, g);
    if es != [] {
      VisitAssigns(es[0], g, s);
      var x := Visit(es[0], g, s);
      VisitArgsAssigns(es[1..], x.g, x.s);
      AssignsThen(g, x.g, VisitArgs(es[1..], x.g, x.s).g);
    }
  }

  lemma {:induction false} VisitStatementsAssigns(es: seq<Ast>, g: Gen, s: Scope, last: int)
    ensures Assigns(g, VisitStatements(es, g, s, last).g)
    decreases es
  {
    hide Assigns;
    AssignsNothing(g, g);
    if es != [] {
      VisitAssigns(es[0], g, s);
      var x := Visit(es[0], g, s);
      VisitStatementsAssigns(es[1..], x.g, x.s, x.v);
      AssignsThen(g, x.g, VisitStatements(es[1..], x.g, x.s, x.v).g);
    }
  }

  /** So it is in a whole program: the call that prints its value writes no variable. */
  lemma ProgramSingle(root: Ast)
    ensures Single(Generate(root).code, 0)
  {
    hide Visit;
    var r, h := VisitRoot(root), Generate(root);
    VisitAssigns(root, RootGen(), ROOT_SCOPE);
    forall i: nat, j: nat, v | i < j < |h.code| && WritesVar(h.code[i], v) && WritesVar(h.code[j], v)
      ensures JoinPair(h.code, i, j)
    {
      assert WritesVar(r.g.code[i], v);
      if j < |r.g.code| {
        assert WritesVar(r.g.code[j], v);
        JoinPairKept(r.g.code, h.code, i, j);
      }
    }
  }

  /** Whichever of two copies a run comes to, it goes on from there past both. */
  lemma OneCopyRuns(p: Prog, o: Oracle, i: nat, j: nat, c: Cfg)
    requires JoinPair(p.code, i, j) && UniqueLabels(p.code) && (c.pc == i || c.pc == j) && Step(p, o, c).Some?
    ensures var d := Run(p, o, c, 2); d.Some? && d.value.pc == j + 2 && d.value.trace == c.trace
  {
    hide FindLabel;
    var e := Step(p, o, c).value;
    FindUnique(p.code, p.code[i + 1].target, j + 2);
    RunOne(p, o, c, 0, c);
    RunOne(p, o, c, 1, e);
  }

  lemma FindUnique(code: seq<Instr>, l: int, k: nat)
    requires UniqueLabels(code) && k < |code| && code[k] == Label(l)
    ensures FindLabel(code, l) == Some(k)
  {
    hide FindLabel;
    assert FindLabel(code, l).Some?;
  }

  /** No variable is the destination of three instructions. */
  lemma AtMostTwoWrites(code: seq<Instr>, from: nat, i: nat, j: nat, k: nat, v: int)
    requires Single(code, from) && UniqueLabels(code)
    requires from <= i < j < k < |code| && WritesVar(code[i], v) && WritesVar(code[j], v)
    ensures !WritesVar(code[k], v)
  {
    assert JoinPair(code, i, j);
  }

  /** In a program with unique labels, two writes to a variable are the copies of one `if`, and there is no third. */
  lemma ProgramWrites(root: Ast, i: nat, j: nat, k: nat, v: int)
    requires EveryIfHasElse(root)
    requires var code := Generate(root).code; i < j < |code| && WritesVar(code[i], v) && WritesVar(code[j], v)
    requires k < |Generate(root).code| && k != i && k != j
    ensures UniqueLabels(Generate(root).code) && JoinPair(Generate(root).code, i, j)
    ensures !WritesVar(Generate(root).code[k], v)
  {
    hide Generate, EveryIfHasElse, WritesVar, JoinPair;
    var code := Generate(root).code;
    ProgramSingle(root);
    ClosedControlFlow.ProgramLabelsUnique(root);
    if k < i && WritesVar(code[k], v) {
      AtMostTwoWrites(code, 0, k, i, j, v);
    } else if i < k < j && WritesVar(code[k], v) {
      AtMostTwoWrites(code, 0, i, k, j, v);
    } else if j < k {
      AtMostTwoWrites(code, 0, i, j, k, v);
    }
  }
}
