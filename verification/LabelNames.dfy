/**
 Label names repeat (ir.c:571-591, 616-618): every `if` names its labels then/end/else and every `while`
 names its labels alike, and code generation emits the names.  Exactly which programs escape the clash.
*/
module LabelNames {
  import opened Syntax
  import opened Ir
  import opened Lowering
  import opened LoweringShape
  import opened CodegenMeaning

  function One(b: bool): nat {
    if b then 1 else 0
  }

  /** How many labels of this name an `if` creates. */
  function InIf(name: string, withElse: bool): nat {
    One(name == "then") + One(name == "end") + One(withElse && name == "else")
  }

  function InWhile(name: string): nat {
    One(name == "while_start") + One(name == "while_body") + One(name == "while_end")
  }

  /** No two labels of one `if` or `while` share a name, nor do labels of an `if` and a `while`. */
  lemma PerNode(name: string, withElse: bool)
    ensures InIf(name, withElse) <= 1 && InWhile(name) <= 1 && (InWhile(name) == 0 || InIf(name, withElse) == 0)
    ensures InIf("then", withElse) == 1 && InWhile("then") == 0
    ensures InIf("while_start", withElse) == 0 && InWhile("while_start") == 1
  {
  }

  /** How many labels of this name a tree creates: for "then", the number of its ifs. */
  function Uses(a: Ast, name: string): nat
    decreases a
  {
    match a
    case Unary(_, arg, _) => Uses(arg, name)
    case Binary(_, left, right, _) => Uses(left, name) + Uses(right, name)
    case Call(_, args, _) => UsesIn(args, name)
    case Block(stmts, _) => UsesIn(stmts, name)
    case IfThen(cond, thn, _) => InIf(name, false) + Uses(cond, name) + Uses(thn, name)
    case IfElse(cond, thn, els, _) => InIf(name, true) + Uses(cond, name) + Uses(thn, name) + Uses(els, name)
    case While(cond, body, _) => InWhile(name) + Uses(cond, name) + Uses(body, name)
    case VarExpr(_, init, _, _) => Uses(init, name)
    case _ => 0
  }

  function UsesIn(es: seq<Ast>, name: string): nat
    decreases es
  {
    if es == [] then 0 else Uses(es[0], name) + UsesIn(es[1..], name)
  }

  function Ifs(a: Ast): nat {
    Uses(a, "then")
  }

  function Whiles(a: Ast): nat {
    Uses(a, "while_start")
  }

  function Named(labels: seq<string>, name: string): nat {
    if labels == [] then 0 else Named(labels[..|labels| - 1], name) + One(labels[|labels| - 1] == name)
  }

  lemma NamedAdd(g: Gen, label1: string, name: string)
    ensures Named(AddLabel(g, label1).labels, name) == Named(g.labels, name) + One(label1 == name)
  {
    assert AddLabel(g, label1).labels[..|g.labels|] == g.labels;
  }

  lemma NamedAddIf(g: Gen, name: string)
    ensures Named(AddIfLabels(g).labels, name)
         == Named(g.labels, name) + InIf(name, true)
  {
    NamedAdd(g, "then", name);
    NamedAdd(AddLabel(g, "then"), "end", name);
    NamedAdd(AddLabel(AddLabel(g, "then"), "end"), "else", name);
  }

  lemma NamedAddIfThen(g: Gen, name: string)
    ensures Named(AddThenLabels(g).labels, name) == Named(g.labels, name) + InIf(name, false)
  {
    NamedAdd(g, "then", name);
    NamedAdd(AddLabel(g, "then"), "end", name);
  }

  lemma NamedBeginWhile(g: Gen, name: string)
    ensures Named(BeginWhile(g).labels, name)
         == Named(g.labels, name) + InWhile(name)
  {
    NamedAdd(g, "while_start", name);
    NamedAdd(AddLabel(g, "while_start"), "while_body", name);
    NamedAdd(AddLabel(AddLabel(g, "while_start"), "while_body"), "while_end", name);
  }

  /** Lowering creates exactly the labels counted from the tree. */
  lemma {:induction false} VisitNames(a: Ast, g: Gen, s: Scope, name: string)
    ensures Named(Visit(a, g, s).g.labels, name) == Named(g.labels, name) + Uses(a, name)
    decreases a, 1
  {
    hide InIf, InWhile, Named, VisitLiteral, VisitUnary, VisitBinary, VisitCall, VisitIfThen, VisitIfElse, VisitWhile,
         VisitVarExpr;
    match a
    case Literal(text, ty) => LiteralNames(text, ty, g, s, name);
    case Unary(_, _, _) => UnaryNames(a, g, s, name);
    case Binary(_, _, _, _) => BinaryNames(a, g, s, name);
    case Call(_, _, _) => CallNames(a, g, s, name);
    case Block(stmts, _) => VisitStatementsNames(stmts, g, map[], UNIT_VAR, name);
    case IfThen(_, _, _) => IfThenNames(a, g, s, name);
    case IfElse(_, _, _, _) => IfElseNames(a, g, s, name);
    case While(_, _, _) => WhileNames(a, g, s, name);
    case VarExpr(_, _, _, _) => VarExprNames(a, g, s, name);
    case _ =>
  }

  lemma LiteralNames(text: string, ty: Ty, g: Gen, s: Scope, name: string)
    ensures Named(VisitLiteral(text, ty, g, s).g.labels, name) == Named(g.labels, name)
  {
    hide Named;
  }

  lemma {:induction false} UnaryNames(a: Ast, g: Gen, s: Scope, name: string)
    requires a.Unary?
    ensures Named(VisitUnary(a, g, s).g.labels, name) == Named(g.labels, name) + Uses(a, name)
    decreases a, 0
  {
    hide InIf, InWhile, Named, Visit;
    var (g0, s0) := Require(g, s, "unary_" + a.op, TUnit);
    VisitNames(a.arg, g0, s0, name);
  }

  lemma {:induction false} CallNames(a: Ast, g: Gen, s: Scope, name: string)
    requires a.Call?
    ensures Named(VisitCall(a, g, s).g.labels, name) == Named(g.labels, name) + Uses(a, name)
    decreases a, 0
  {
    hide InIf, InWhile, Named, VisitArgs;
    VisitArgsNames(a.args, g, s, name);
  }

  lemma {:induction false} VarExprNames(a: Ast, g: Gen, s: Scope, name: string)
    requires a.VarExpr?
    ensures Named(VisitVarExpr(a, g, s).g.labels, name) == Named(g.labels, name) + Uses(a, name)
    decreases a, 0
  {
    hide InIf, InWhile, Named, Visit;
    VisitNames(a.init, AddVar(g, a.name, a.ty), s, name);
  }

  lemma {:induction false} BinaryNames(a: Ast, g: Gen, s: Scope, name: string)
    requires a.Binary?
    ensures Named(VisitBinary(a, g, s).g.labels, name) == Named(g.labels, name) + Uses(a, name)
    decreases a, 0
  {
    hide InIf, InWhile, Named, Visit;
    var (g0, s0) := Require(g, s, a.op, a.ty);
    var x := Visit(a.left, g0, s0);
    VisitNames(a.left, g0, s0, name);
    VisitNames(a.right, x.g, x.s, name);
  }

  lemma {:induction false} IfThenNames(a: Ast, g: Gen, s: Scope, name: string)
    requires a.IfThen?
    ensures Named(VisitIfThen(a, g, s).g.labels, name) == Named(g.labels, name) + Uses(a, name)
    decreases a, 0
  {
    hide InIf, InWhile, Named, Visit, AddThenLabels;
    var (x, y) := IfThenParts(a, g, s);
    NamedAddIfThen(g, name);
    VisitNames(a.cond, AddThenLabels(g), s, name);
    VisitNames(a.thn, Branch(x, |g.labels|, |g.labels| + 1), x.s, name);
  }

  lemma {:induction false} IfElseNames(a: Ast, g: Gen, s: Scope, name: string)
    requires a.IfElse?
    ensures Named(VisitIfElse(a, g, s).g.labels, name) == Named(g.labels, name) + Uses(a, name)
    decreases a, 0
  {
    hide InIf, InWhile, Named, Visit, AddIfLabels;
    var (x, y, z) := IfParts(a, g, s);
    NamedAddIf(g, name);
    VisitNames(a.cond, AddIfLabels(g), s, name);
    VisitNames(a.thn, Branch(x, |g.labels|, |g.labels| + 2), x.s, name);
    VisitNames(a.els, BeginElse(y, |g.labels|), y.s, name);
  }

  lemma {:induction false} WhileNames(a: Ast, g: Gen, s: Scope, name: string)
    requires a.While?
    ensures Named(VisitWhile(a, g, s).g.labels, name) == Named(g.labels, name) + Uses(a, name)
    decreases a, 0
  {
    hide InIf, InWhile, Named, Visit, BeginWhile;
    var (x, y) := WhileParts(a, g, s);
    NamedBeginWhile(g, name);
    VisitNames(a.cond, BeginWhile(g), s, name);
    VisitNames(a.body, Branch(x, |g.labels| + 1, |g.labels| + 2), x.s, name);
  }

  lemma {:induction false} VisitArgsNames(es: seq<Ast>, g: Gen, s: Scope, name: string)
    ensures Named(VisitArgs(es, g, s).g.labels, name) == Named(g.labels, name) + UsesIn(es, name)
    decreases es
  {
    if es != [] {
      VisitNames(es[0], g, s, name);
      var x := Visit(es[0], g, s);
      VisitArgsNames(es[1..], x.g, x.s, name);
    }
  }

  lemma {:induction false} VisitStatementsNames(es: seq<Ast>, g: Gen, s: Scope, last: int, name: string)
    ensures Named(VisitStatements(es, g, s, last).g.labels, name) == Named(g.labels, name) + UsesIn(es, name)
    decreases es
  {
    if es != [] {
      VisitNames(es[0], g, s, name);
      var x := Visit(es[0], g, s);
      VisitStatementsNames(es[1..], x.g, x.s, x.v, name);
    }
  }

  /** A name that no `if` and no `while` uses more often than another is used no more often anywhere. */
  lemma {:induction false} UsesCompare(a: Ast, name: string, other: string)
    requires InIf(name, true) <= InIf(other, true) && InIf(name, false) <= InIf(other, false) && InWhile(name) <= InWhile(other)
    ensures Uses(a, name) <= Uses(a, other)
    decreases a
  {
    hide InIf, InWhile;
    match a
    case Unary(_, arg, _) => UsesCompare(arg, name, other);
    case Binary(_, left, right, _) => UsesCompare(left, name, other); UsesCompare(right, name, other);
    case Call(_, args, _) => UsesInCompare(args, name, other);
    case Block(stmts, _) => UsesInCompare(stmts, name, other);
    case IfThen(cond, thn, _) => UsesCompare(cond, name, other); UsesCompare(thn, name, other);
    case IfElse(cond, thn, els, _) =>
      UsesCompare(cond, name, other);
      UsesCompare(thn, name, other);
      UsesCompare(els, name, other);
    case While(cond, body, _) => UsesCompare(cond, name, other); UsesCompare(body, name, other);
    case VarExpr(_, init, _, _) => UsesCompare(init, name, other);
    case _ =>
  }

  lemma {:induction false} UsesInCompare(es: seq<Ast>, name: string, other: string)
    requires InIf(name, true) <= InIf(other, true) && InIf(name, false) <= InIf(other, false) && InWhile(name) <= InWhile(other)
    ensures UsesIn(es, name) <= UsesIn(es, other)
    decreases es
  {
    hide InIf, InWhile;
    if es != [] {
      UsesCompare(es[0], name, other);
      UsesInCompare(es[1..], name, other);
    }
  }

  /** Only the ifs and whiles of a tree create labels: no name is used more often than one of them. */
  lemma UsesBounded(a: Ast, name: string)
    ensures if InWhile(name) == 0 then Uses(a, name) <= Ifs(a) else Uses(a, name) <= Whiles(a)
  {
    hide InIf, InWhile, Uses;
    PerNode(name, true);
    PerNode(name, false);
    if InWhile(name) == 0 {
      UsesCompare(a, name, "then");
    } else {
      UsesCompare(a, name, "while_start");
    }
  }

  lemma {:induction false} NamedPositive(labels: seq<string>, i: nat)
    requires i < |labels|
    ensures Named(labels, labels[i]) >= 1
    decreases |labels|
  {
    if i < |labels| - 1 {
      NamedPositive(labels[..|labels| - 1], i);
    }
  }

  lemma {:induction false} NamedWitness(labels: seq<string>, name: string) returns (i: nat)
    requires Named(labels, name) >= 1
    ensures i < |labels| && labels[i] == name
    decreases |labels|
  {
    i := |labels| - 1;
    if labels[i] != name {
      i := NamedWitness(labels[..i], name);
    }
  }

  ghost predicate NamedOnce(labels: seq<string>) {
    forall name :: Named(labels, name) <= 1
  }

  lemma {:induction false} DistinctIffNamedOnce(labels: seq<string>)
    ensures DistinctNames(labels) <==> NamedOnce(labels)
    decreases |labels|
  {
    if labels != [] {
      var rest, last := labels[..|labels| - 1], labels[|labels| - 1];
      DistinctIffNamedOnce(rest);
      if DistinctNames(labels) {
        assert DistinctNames(rest);
        forall name
          ensures Named(labels, name) <= 1
        {
          if Named(rest, last) >= 1 {
            var i := NamedWitness(rest, last);
            assert false;
          }
        }
      } else {
        NotDistinct(labels);
      }
    }
  }

  lemma NotDistinct(labels: seq<string>)
    requires labels != [] && !DistinctNames(labels)
    requires var rest := labels[..|labels| - 1];
             DistinctNames(rest) || !NamedOnce(rest)
    ensures !NamedOnce(labels)
  {
    var rest, last := labels[..|labels| - 1], labels[|labels| - 1];
    if DistinctNames(rest) {
      var i, j :| 0 <= i < j < |labels| && labels[i] == labels[j];
      assert j == |labels| - 1 by { assert forall k :: 0 <= k < |rest| ==> labels[k] == rest[k]; }
      assert rest[i] == last;
      NamedPositive(rest, i);
      assert Named(labels, last) > 1;
    } else {
      var name :| Named(rest, name) > 1;
      assert Named(labels, name) > 1;
    }
  }

  /** The generated label names are pairwise distinct exactly for programs with at most one `if` and one `while`. */
  lemma NamesDistinctIff(root: Ast)
    ensures DistinctNames(Generate(root).labels) <==> Ifs(root) <= 1 && Whiles(root) <= 1
  {
    hide Visit, Uses;
    var labels := Generate(root).labels;
    DistinctIffNamedOnce(labels);
    forall name
      ensures Named(labels, name) == Uses(root, name)
    {
      VisitNames(root, RootGen(), ROOT_SCOPE, name);
    }
    forall name
      ensures Named(labels, name) <= Ifs(root) || Named(labels, name) <= Whiles(root)
    {
      UsesBounded(root, name);
    }
    assert NamedOnce(labels) ==> Named(labels, "then") <= 1 && Named(labels, "while_start") <= 1;
    assert Named(labels, "then") == Ifs(root) && Named(labels, "while_start") == Whiles(root);
    if Ifs(root) <= 1 && Whiles(root) <= 1 {
      assert NamedOnce(labels);
    }
  }

  /** Where every `if` has an `else`, a name is used as often as any other that ifs and whiles use alike. */
  lemma {:induction false} UsesSame(a: Ast, name: string, other: string)
    requires EveryIfHasElse(a) && InIf(name, true) == InIf(other, true) && InWhile(name) == InWhile(other)
    ensures Uses(a, name) == Uses(a, other)
    decreases a
  {
    hide InIf, InWhile;
    match a
    case Unary(_, arg, _) => UsesSame(arg, name, other);
    case Binary(_, left, right, _) => UsesSame(left, name, other); UsesSame(right, name, other);
    case Call(_, args, _) => UsesInSame(args, name, other);
    case Block(stmts, _) => UsesInSame(stmts, name, other);
    case IfElse(cond, thn, els, _) =>
      UsesSame(cond, name, other);
      UsesSame(thn, name, other);
      UsesSame(els, name, other);
    case While(cond, body, _) => UsesSame(cond, name, other); UsesSame(body, name, other);
    case VarExpr(_, init, _, _) => UsesSame(init, name, other);
    case _ =>
  }

  lemma {:induction false} UsesInSame(es: seq<Ast>, name: string, other: string)
    requires EveryIfHasElseIn(es) && InIf(name, true) == InIf(other, true) && InWhile(name) == InWhile(other)
    ensures UsesIn(es, name) == UsesIn(es, other)
    decreases es
  {
    hide InIf, InWhile;
    if es != [] {
      UsesSame(es[0], name, other);
      UsesInSame(es[1..], name, other);
    }
  }

  const IF_LABELS: set<string> := {"then", "end", "else"}

  const WHILE_LABELS: set<string> := {"while_start", "while_body", "while_end"}

  /** Which names the labels of a program have. */
  function LabelsUsed(root: Ast): set<string> {
    (if Ifs(root) == 0 then {} else IF_LABELS) + (if Whiles(root) == 0 then {} else WHILE_LABELS)
  }

  lemma UsesWhen(a: Ast, name: string)
    requires EveryIfHasElse(a)
    ensures Uses(a, name) >= 1 <==> name in LabelsUsed(a)
  {
    hide Uses, EveryIfHasElse;
    if name in IF_LABELS {
      UsesSame(a, name, "then");
    } else if name in WHILE_LABELS {
      UsesSame(a, name, "while_start");
    } else {
      UsesNone(a, name);
    }
  }

  lemma {:induction false} UsesNone(a: Ast, name: string)
    requires InIf(name, true) == 0 && InIf(name, false) == 0 && InWhile(name) == 0
    ensures Uses(a, name) == 0
    decreases a
  {
    hide InIf, InWhile;
    match a
    case Unary(_, arg, _) => UsesNone(arg, name);
    case Binary(_, left, right, _) => UsesNone(left, name); UsesNone(right, name);
    case Call(_, args, _) => UsesInNone(args, name);
    case Block(stmts, _) => UsesInNone(stmts, name);
    case IfThen(cond, thn, _) => UsesNone(cond, name); UsesNone(thn, name);
    case IfElse(cond, thn, els, _) => UsesNone(cond, name); UsesNone(thn, name); UsesNone(els, name);
    case While(cond, body, _) => UsesNone(cond, name); UsesNone(body, name);
    case VarExpr(_, init, _, _) => UsesNone(init, name);
    case _ =>
  }

  lemma {:induction false} UsesInNone(es: seq<Ast>, name: string)
    requires InIf(name, true) == 0 && InIf(name, false) == 0 && InWhile(name) == 0
    ensures UsesIn(es, name) == 0
    decreases es
  {
    hide InIf, InWhile;
    if es != [] {
      UsesNone(es[0], name);
      UsesInNone(es[1..], name);
    }
  }

  /** The generated labels' names. */
  lemma LabelsAre(root: Ast, name: string)
    requires EveryIfHasElse(root)
    ensures name in Generate(root).labels <==> name in LabelsUsed(root)
  {
    hide Visit, Uses, Named, EveryIfHasElse, LabelsUsed;
    var labels := Generate(root).labels;
    VisitNames(root, RootGen(), ROOT_SCOPE, name);
    UsesWhen(root, name);
    assert Named(RootGen().labels, name) == 0 by { NoLabelsYet(name); }
    if name in labels {
      var i :| 0 <= i < |labels| && labels[i] == name;
      NamedPositive(labels, i);
    } else if Named(labels, name) >= 1 {
      var i := NamedWitness(labels, name);
      assert false;
    }
  }

  lemma NoLabelsYet(name: string)
    ensures Named(RootGen().labels, name) == 0
  {
  }
}
