/**
 Typing rules for the language, and two results about them.  The type checker decides them: it accepts a tree
 exactly when some assignment of types to its nodes obeys the rules, and then finds it.  And the IR generator
 agrees with them: in a well-typed tree every identifier it looks up is bound, to an IR variable of the right
 type, and the variable holding a node's value has the node's type.  Both are for the fragment without calls:
 a call always keeps the error type (type_checker.c:141-152).
*/
module CheckerAgreement {
  import opened Syntax
  import opened SourceSemantics
  import opened Lowering
  import opened ValueTypes
  import opened TypeChecker

  /** The tree as the parser leaves it: every node has the error type. */
  function Erase(a: Ast): Ast
    decreases a
  {
    match a
    case Literal(text, _) => Literal(text, TError)
    case Identifier(name, _) => Identifier(name, TError)
    case Unary(op, arg, _) => Unary(op, Erase(arg), TError)
    case Binary(op, left, right, _) => Binary(op, Erase(left), Erase(right), TError)
    case Call(callee, args, _) => Call(callee, EraseAll(args), TError)
    case UnitNode => UnitNode
    case Block(stmts, _) => Block(EraseAll(stmts), TError)
    case IfThen(cond, thn, _) => IfThen(Erase(cond), Erase(thn), TError)
    case IfElse(cond, thn, els, _) => IfElse(Erase(cond), Erase(thn), Erase(els), TError)
    case While(cond, body, _) => While(Erase(cond), Erase(body), TError)
    case VarExpr(name, init, decl, _) => VarExpr(name, Erase(init), decl, TError)
  }

  function EraseAll(es: seq<Ast>): (r: seq<Ast>)
    ensures |r| == |es|
    decreases es
  {
    if es == [] then [] else [Erase(es[0])] + EraseAll(es[1..])
  }

  /** No node carries the error type. */
  predicate NoErrors(a: Ast)
    decreases a
  {
    match a
    case Literal(_, ty) => ty != TError
    case Identifier(_, ty) => ty != TError
    case Unary(_, arg, ty) => ty != TError && NoErrors(arg)
    case Binary(_, left, right, ty) => ty != TError && NoErrors(left) && NoErrors(right)
    case Call(_, args, ty) => ty != TError && NoErrorsIn(args)
    case UnitNode => true
    case Block(stmts, ty) => ty != TError && NoErrorsIn(stmts)
    case IfThen(cond, thn, ty) => ty != TError && NoErrors(cond) && NoErrors(thn)
    case IfElse(cond, thn, els, ty) => ty != TError && NoErrors(cond) && NoErrors(thn) && NoErrors(els)
    case While(cond, body, ty) => ty != TError && NoErrors(cond) && NoErrors(body)
    case VarExpr(_, init, _, ty) => ty != TError && NoErrors(init)
  }

  predicate NoErrorsIn(es: seq<Ast>)
    decreases es
  {
    es == [] || (NoErrors(es[0]) && NoErrorsIn(es[1..]))
  }

  function TypeOf(a: Ast): Ty {
    if a.UnitNode? then TUnit else a.ty
  }

  /** The typing rules. */
  predicate WellTyped(a: Ast, types: Types)
    decreases a
  {
    match a
    case Literal(text, ty) => ty == if text == "true" || text == "false" then TBool else TInt
    case Identifier(name, ty) => name in types && types[name] == ty != TError
    case Unary(op, arg, ty) =>
      WellTyped(arg, types) && TypeOf(arg) == ty && ((op == "-" && ty == TInt) || (op == "not" && ty == TBool))
    case Binary(_, left, right, ty) =>
      WellTyped(left, types) && WellTyped(right, types) && TypeOf(left) == TypeOf(right) == ty != TError
    case Call(_, _, _) => false
    case UnitNode => true
    case Block(stmts, ty) =>
      WellTypedIn(stmts, map[]) && ty == (if stmts == [] then TUnit else TypeOf(stmts[|stmts| - 1])) != TError
    case IfThen(cond, thn, ty) =>
      WellTyped(cond, types) && WellTyped(thn, types) && TypeOf(cond) == TBool && TypeOf(thn) == ty != TError
    case IfElse(cond, thn, els, ty) =>
      && WellTyped(cond, types) && WellTyped(thn, types) && WellTyped(els, types)
      && TypeOf(cond) == TBool && TypeOf(thn) == TypeOf(els) == ty != TError
    case While(cond, body, ty) =>
      WellTyped(cond, types) && WellTyped(body, types) && TypeOf(cond) == TBool && ty == TUnit
    case VarExpr(name, init, decl, ty) =>
      && WellTyped(init, types) && TypeOf(init) == ty != TError && name !in types
      && (decl == "" || (decl == "Int" && ty == TInt) || (decl == "Bool" && ty == TBool))
  }

  /** Statements in one scope: each sees the names declared before it. */
  predicate WellTypedIn(es: seq<Ast>, types: Types)
    decreases es
  {
    es == [] || (WellTyped(es[0], types) && WellTypedIn(es[1..], Declare(es[0], types)))
  }

  /** A tree the checker accepts: the parser's tree of a fragment program, checked without error. */
  ghost predicate Accepted(a: Ast, types: Types) {
    var b := Check(a, types).a;
    Erase(a) == a && Fragment(b) && NoErrors(b)
  }

  ghost predicate Sound(a: Ast, types: Types) {
    var c := Check(a, types);
    && WellTyped(c.a, types) && c.ty == TypeOf(c.a) != TError && c.types == Declare(c.a, types)
    && Erase(c.a) == a
  }

  ghost predicate SoundOperand(a: Ast, types: Types) {
    Sound(a, types) && Check(a, types).types == types
  }

  lemma {:induction false} OperandSound(a: Ast, types: Types)
    requires Erase(a) == a && Operand(Check(a, types).a) && NoErrors(Check(a, types).a)
    ensures SoundOperand(a, types)
    decreases a, 2
  {
    CheckerSound(a, types);
  }

  /** Whatever the checker accepts obeys the rules, and only types were filled in. */
  lemma {:induction false} CheckerSound(a: Ast, types: Types)
    requires Accepted(a, types)
    ensures Sound(a, types)
    decreases a, 1
  {
    match a
    case Unary(_, _, _) => UnarySound(a, types);
    case Binary(_, _, _, _) => BinarySound(a, types);
    case Call(_, args, _) => assert false;
    case Block(_, _) => BlockSound(a, types);
    case IfThen(_, _, _) => IfThenSound(a, types);
    case IfElse(_, _, _, _) => IfSound(a, types);
    case While(_, _, _) => WhileSound(a, types);
    case VarExpr(_, _, _, _) => VarSound(a, types);
    case _ =>
  }

  lemma {:induction false} UnarySound(a: Ast, types: Types)
    requires a.Unary? && Accepted(a, types)
    ensures Sound(a, types)
    decreases a, 0
  {
    OperandSound(a.arg, types);
  }

  lemma {:induction false} BinarySound(a: Ast, types: Types)
    requires a.Binary? && Accepted(a, types)
    ensures Sound(a, types)
    decreases a, 0
  {
    OperandSound(a.left, types);
    OperandSound(a.right, types);
  }

  lemma {:induction false} BlockSound(a: Ast, types: Types)
    requires a.Block? && Accepted(a, types)
    ensures Sound(a, types)
    decreases a, 0
  {
    StatementsSound(a.stmts, map[], TUnit);
  }

  lemma {:induction false} StatementsSound(es: seq<Ast>, types: Types, last: Ty)
    requires var c := CheckAll(es, types, last); EraseAll(es) == es && Statements(c.es) && NoErrorsIn(c.es)
    ensures var c := CheckAll(es, types, last);
            && WellTypedIn(c.es, types) && EraseAll(c.es) == es
            && c.ty == (if es == [] then last else TypeOf(c.es[|es| - 1])) && (es != [] ==> c.ty != TError)
    decreases es
  {
    hide Check, Erase, Fragment, NoErrors, WellTyped;
    if es != [] {
      CheckerSound(es[0], types);
      var x := Check(es[0], types);
      var rest := CheckAll(es[1..], x.types, x.ty);
      assert CheckAll(es, types, last).es[1..] == rest.es;
      StatementsSound(es[1..], x.types, x.ty);
    }
  }

  lemma {:induction false} IfThenSound(a: Ast, types: Types)
    requires a.IfThen? && Accepted(a, types)
    ensures Sound(a, types)
    decreases a, 0
  {
    OperandSound(a.cond, types);
    CheckerSound(a.thn, types);
  }

  lemma {:induction false} IfSound(a: Ast, types: Types)
    requires a.IfElse? && Accepted(a, types)
    ensures Sound(a, types)
    decreases a, 0
  {
    OperandSound(a.cond, types);
    OperandSound(a.thn, types);
    OperandSound(a.els, types);
  }

  lemma {:induction false} WhileSound(a: Ast, types: Types)
    requires a.While? && Accepted(a, types)
    ensures Sound(a, types)
    decreases a, 0
  {
    OperandSound(a.cond, types);
    CheckerSound(a.body, types);
  }

  lemma {:induction false} VarSound(a: Ast, types: Types)
    requires a.VarExpr? && Accepted(a, types)
    ensures Sound(a, types)
    decreases a, 0
  {
    OperandSound(a.init, types);
  }

  /** Whatever obeys the rules is what the checker makes of its parsed form. */
  lemma {:induction false} CheckerComplete(b: Ast, types: Types)
    requires Fragment(b) && WellTyped(b, types)
    ensures Check(Erase(b), types) == Checked(b, TypeOf(b), Declare(b, types)) && NoErrors(b) && TypeOf(b) != TError
    decreases b, 1
  {
    match b
    case Unary(_, arg, _) => OperandComplete(arg, types);
    case Binary(_, left, right, _) =>
      OperandComplete(left, types);
      OperandComplete(right, types);
    case Block(stmts, _) => StatementsComplete(stmts, map[], TUnit);
    case IfThen(cond, thn, _) =>
      OperandComplete(cond, types);
      CheckerComplete(thn, types);
    case IfElse(cond, thn, els, _) =>
      OperandComplete(cond, types);
      OperandComplete(thn, types);
      OperandComplete(els, types);
    case While(cond, body, _) =>
      OperandComplete(cond, types);
      CheckerComplete(body, types);
    case VarExpr(_, init, _, _) => OperandComplete(init, types);
    case _ =>
  }

  lemma {:induction false} OperandComplete(b: Ast, types: Types)
    requires Operand(b) && WellTyped(b, types)
    ensures Check(Erase(b), types) == Checked(b, TypeOf(b), types) && NoErrors(b) && TypeOf(b) != TError
    decreases b, 2
  {
    CheckerComplete(b, types);
  }

  lemma {:induction false} StatementsComplete(es: seq<Ast>, types: Types, last: Ty)
    requires Statements(es) && WellTypedIn(es, types)
    ensures var c := CheckAll(EraseAll(es), types, last);
            c.es == es && NoErrorsIn(es) && c.ty == (if es == [] then last else TypeOf(es[|es| - 1]))
    decreases es
  {
    hide Check, Erase, Fragment, NoErrors, WellTyped;
    if es != [] {
      CheckerComplete(es[0], types);
      assert EraseAll(es)[1..] == EraseAll(es[1..]);
      StatementsComplete(es[1..], Declare(es[0], types), TypeOf(es[0]));
    }
  }

  /** The checker decides the typing rules, and the types it finds are the only ones that obey them. */
  lemma CheckerDecides(a: Ast, types: Types)
    requires Erase(a) == a
    ensures Accepted(a, types) <==> exists b :: Typing(a, b, types)
    ensures forall b :: Typing(a, b, types) ==> b == Check(a, types).a
  {
    hide Check, Fragment, NoErrors, WellTyped, Erase;
    forall b | Typing(a, b, types)
      ensures b == Check(a, types).a && Accepted(a, types)
    {
      CheckerComplete(b, types);
    }
    if Accepted(a, types) {
      CheckerSound(a, types);
      assert Typing(a, Check(a, types).a, types);
    }
  }

  /** An assignment of types to the nodes of a that obeys the rules. */
  ghost predicate Typing(a: Ast, b: Ast, types: Types) {
    Erase(b) == a && Fragment(b) && WellTyped(b, types)
  }

  /** A comparison gets its operands' type (type_checker.c:91-106): one of Ints is refused as a condition everywhere. */
  lemma IntComparisonIsNoCondition(op: string, left: Ast, right: Ast, thn: Ast, els: Ast, types: Types)
    requires Check(left, types).ty == TInt
    ensures var cond := Binary(op, left, right, TError);
            && Check(IfThen(cond, thn, TError), types).ty == TError
            && Check(IfElse(cond, thn, els, TError), types).ty == TError
            && Check(While(cond, thn, TError), types).ty == TError
  {
    var cond := Binary(op, left, right, TError);
    assert Check(cond, types).ty != TBool;
  }

  /** Checking fills in types only: names are as parsed. */
  lemma {:induction false} CheckKeepsNames(a: Ast, types: Types)
    requires WellNamed(a)
    ensures WellNamed(Check(a, types).a)
    decreases a
  {
    match a
    case Unary(_, arg, _) => CheckKeepsNames(arg, types);
    case Binary(_, left, right, _) =>
      CheckKeepsNames(left, types);
      CheckKeepsNames(right, Check(left, types).types);
    case Call(_, args, _) => CheckAllKeepsNames(args, types, TUnit);
    case Block(stmts, _) => CheckAllKeepsNames(stmts, map[], TUnit);
    case IfThen(cond, thn, _) =>
      CheckKeepsNames(cond, types);
      CheckKeepsNames(thn, Check(cond, types).types);
    case IfElse(cond, thn, els, _) =>
      CheckKeepsNames(cond, types);
      var x := Check(cond, types);
      CheckKeepsNames(thn, x.types);
      CheckKeepsNames(els, Check(thn, x.types).types);
    case While(cond, body, _) =>
      CheckKeepsNames(cond, types);
      CheckKeepsNames(body, Check(cond, types).types);
    case VarExpr(_, init, _, _) => CheckKeepsNames(init, types);
    case _ =>
  }

  lemma {:induction false} CheckAllKeepsNames(es: seq<Ast>, types: Types, last: Ty)
    requires WellNamedIn(es)
    ensures WellNamedIn(CheckAll(es, types, last).es)
    decreases es
  {
    if es != [] {
      CheckKeepsNames(es[0], types);
      var x := Check(es[0], types);
      CheckAllKeepsNames(es[1..], x.types, x.ty);
      assert CheckAll(es, types, last).es[1..] == CheckAll(es[1..], x.types, x.ty).es;
    }
  }

  /** In a well-typed tree every identifier read is declared before it in its own block. */
  lemma {:induction false} TypedIsScoped(b: Ast, types: Types, callees: set<string>)
    requires Fragment(b) && WellTyped(b, types)
    ensures Scoped(b, types.Keys, callees)
    decreases b
  {
    match b
    case Unary(_, arg, _) =>
      assert Operand(arg);
      TypedIsScoped(arg, types, callees);
    case Binary(_, left, right, _) =>
      assert Operand(left) && Operand(right);
      TypedIsScoped(left, types, callees);
      TypedIsScoped(right, types, callees);
    case Block(stmts, _) =>
      var none: Types := map[];
      TypedStatementsScoped(stmts, none);
      assert none.Keys == {};
    case IfThen(cond, thn, _) =>
      assert Operand(cond);
      TypedIsScoped(cond, types, callees);
      TypedIsScoped(thn, types, callees);
    case IfElse(cond, thn, els, _) =>
      assert Operand(cond) && Operand(thn) && Operand(els);
      TypedIsScoped(cond, types, callees);
      TypedIsScoped(thn, types, callees);
      TypedIsScoped(els, types, callees);
    case While(cond, body, _) =>
      assert Operand(cond);
      TypedIsScoped(cond, types, callees);
      TypedIsScoped(body, types, callees);
    case VarExpr(_, init, _, _) =>
      assert Operand(init);
      TypedIsScoped(init, types, callees);
    case _ =>
  }

  lemma {:induction false} TypedStatementsScoped(es: seq<Ast>, types: Types)
    requires Statements(es) && WellTypedIn(es, types)
    ensures ScopedStatements(es, types.Keys, {})
    decreases es
  {
    if es != [] {
      TypedIsScoped(es[0], types, {});
      assert Declare(es[0], types).Keys == types.Keys + Declared(es[0]);
      TypedStatementsScoped(es[1..], Declare(es[0], types));
    }
  }

  /** In a well-typed tree, the type of the value a node leaves is the type it carries. */
  lemma {:induction false} TypedValueType(b: Ast, types: Types)
    requires Operand(b) && WellTyped(b, types)
    ensures ValueType(b, types) == TypeOf(b)
    decreases b
  {
    match b
    case Block(stmts, _) => TypedLastType(stmts, map[]);
    case IfElse(_, thn, _, _) =>
      assert Operand(thn);
      TypedValueType(thn, types);
    case _ =>
  }

  lemma {:induction false} TypedLastType(es: seq<Ast>, types: Types)
    requires es != [] && IsValue(es[|es| - 1]) && Statements(es) && WellTypedIn(es, types)
    ensures LastType(es, types) == TypeOf(es[|es| - 1])
    decreases es
  {
    if |es| == 1 {
      TypedValueType(es[0], types);
    } else {
      assert es[1..][|es[1..]| - 1] == es[|es| - 1];
      TypedLastType(es[1..], Declare(es[0], types));
    }
  }

  /** The variable returned for a value node has the node's type. */
  lemma ValueHasType(b: Ast, types: Types, g: Gen, s: Scope)
    requires Operand(b) && WellTyped(b, types) && TypesAgree(types, g, s)
    ensures var r := Visit(b, g, s); 2 <= r.v < |r.g.vars| && r.g.vars[r.v].ty == TypeOf(b)
  {
    hide Visit, Fragment, WellTyped, Scoped;
    TypedIsScoped(b, types, {});
    TypedValueType(b, types);
    ReturnsValueType(b, types, {}, g, s);
  }

  /**
   A program the checker accepts meets what lowering asks of it: every lookup succeeds, and the value of the
   root is in a variable of the root's type, which decides how it is printed.
  */
  lemma AcceptedLowers(root: Ast)
    requires Accepted(root, map[])
    ensures var b := Check(root, map[]).a;
            && WellScoped(b)
            && FinalType(VisitRoot(b)) == RootType(b) == (if IsValue(b) then TypeOf(b) else TUnit)
  {
    hide Check, Fragment, WellTyped, Scoped, Visit, RootType;
    var b, none: Types := Check(root, map[]).a, map[];
    CheckerSound(root, none);
    assert none.Keys == {};
    TypedIsScoped(b, none, ROOT_CALLEES);
    RootTypeIs(b);
    RootTypeOf(b);
  }

  lemma RootTypeOf(b: Ast)
    requires Fragment(b) && WellTyped(b, map[])
    ensures RootType(b) == if IsValue(b) then TypeOf(b) else TUnit
  {
    hide Fragment, WellTyped;
    if IsValue(b) {
      TypedValueType(b, map[]);
    } else {
      NoValueType(b, map[]);
    }
  }
}
