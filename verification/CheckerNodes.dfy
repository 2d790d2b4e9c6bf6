/**
 What the checker makes of each kind of node (type_checker.c:42-334), in whatever scope and whether or not the children
 are free of errors: compilation goes on with the checked tree in any case.
*/
module CheckerNodes {
  import opened Syntax
  import opened TypeChecker
  import opened CheckerAgreement

  /** `true` and `false` are Bools, every other literal an Int. */
  lemma LiteralChecked(text: string, ty: Ty, types: Types)
    ensures Check(Literal("true", ty), types) == Checked(Literal("true", TBool), TBool, types)
    ensures Check(Literal("false", ty), types) == Checked(Literal("false", TBool), TBool, types)
    ensures text != "true" && text != "false" ==> Check(Literal(text, ty), types) == Checked(Literal(text, TInt), TInt, types)
  {
  }

  /** `-` takes and gives an Int, `not` a Bool, and there is no other prefix operator. */
  lemma PrefixChecked(op: string, arg: Ast, ty: Ty, types: Types)
    ensures var x := Check(arg, types);
            Check(Unary(op, arg, ty), types)
            == if op == "-" && x.ty == TInt then Checked(Unary("-", x.a, TInt), TInt, x.types)
               else if op == "not" && x.ty == TBool then Checked(Unary("not", x.a, TBool), TBool, x.types)
               else Checked(Unary(op, x.a, ty), TError, x.types)
  {
  }

  /** Every binary operator takes two operands of one type, and gives that type. */
  lemma OperandsChecked(op: string, left: Ast, right: Ast, ty: Ty, types: Types, t: Ty)
    requires t != TError
    ensures var x := Check(left, types);
            var y := Check(right, x.types);
            Check(Binary(op, left, right, ty), types).ty == t <==> x.ty == t && y.ty == t
  {
  }

  /** `var` with the type Int: accepted exactly for an Int, under a new name. */
  lemma IntDeclared(name: string, init: Ast, ty: Ty, types: Types)
    ensures var x := Check(init, types);
            Check(VarExpr(name, init, "Int", ty), types)
            == if x.ty == TInt && name !in x.types
               then Checked(VarExpr(name, x.a, "Int", TInt), TInt, x.types[name := TInt])
               else Checked(VarExpr(name, x.a, "Int", ty), TError, x.types)
  {
  }

  lemma BoolDeclared(name: string, init: Ast, ty: Ty, types: Types)
    ensures var x := Check(init, types);
            Check(VarExpr(name, init, "Bool", ty), types)
            == if x.ty == TBool && name !in x.types
               then Checked(VarExpr(name, x.a, "Bool", TBool), TBool, x.types[name := TBool])
               else Checked(VarExpr(name, x.a, "Bool", ty), TError, x.types)
  {
  }

  /** Without a type, whatever the initialiser has, an error too; and no other type can be declared. */
  lemma OtherDeclared(name: string, init: Ast, decl: string, ty: Ty, types: Types)
    ensures var x := Check(init, types);
            name !in x.types ==>
            Check(VarExpr(name, init, "", ty), types) == Checked(VarExpr(name, x.a, "", x.ty), x.ty, x.types[name := x.ty])
    ensures decl != "" && decl != "Int" && decl != "Bool" ==> Check(VarExpr(name, init, decl, ty), types).ty == TError
    ensures name in Check(init, types).types ==> Check(VarExpr(name, init, decl, ty), types).ty == TError
  {
  }

  /** An erroneous loop body or statement does not make the loop or block erroneous, as long as it is not the last. */
  lemma ErrorsPassed(cond: Ast, body: Ast, es: seq<Ast>, last: Ast, ty: Ty, types: Types)
    ensures Check(cond, types).ty == TBool ==> Check(While(cond, body, ty), types).ty == TUnit
    ensures Check(Block(es + [last], ty), types).ty == Check(last, ScopeAt(es + [last], |es|, map[])).ty
  {
    hide CheckAll, ScopeAt;
    ListChecked(es + [last], map[], TUnit);
  }

  /** The scope in which the k-th of several nodes is checked: one after another. */
  function ScopeAt(es: seq<Ast>, k: nat, types: Types): Types
    requires k <= |es|
  {
    if k == 0 then types else Check(es[k - 1], ScopeAt(es, k - 1, types)).types
  }

  lemma {:induction false} ScopeShift(es: seq<Ast>, k: nat, types: Types)
    requires es != [] && k < |es|
    ensures ScopeAt(es, k + 1, types) == ScopeAt(es[1..], k, Check(es[0], types).types)
    decreases k
  {
    hide Check;
    if k > 0 {
      ScopeShift(es, k - 1, types);
      assert es[1..][k - 1] == es[k];
    } else {
      assert ScopeAt(es, 0, types) == types;
    }
  }

  /** Each node of a list is checked in the scope its predecessors leave. */
  lemma {:induction false} ListChecked(es: seq<Ast>, types: Types, last: Ty)
    ensures var r := CheckAll(es, types, last);
            && |r.es| == |es| && r.types == ScopeAt(es, |es|, types)
            && (forall k :: 0 <= k < |es| ==> r.es[k] == Check(es[k], ScopeAt(es, k, types)).a)
            && r.ty == if es == [] then last else Check(es[|es| - 1], ScopeAt(es, |es| - 1, types)).ty
    decreases es
  {
    hide Check;
    if es != [] {
      var x := Check(es[0], types);
      var rest := CheckAll(es[1..], x.types, x.ty);
      ListChecked(es[1..], x.types, x.ty);
      ScopeShift(es, |es| - 1, types);
      forall k | 0 <= k < |es|
        ensures CheckAll(es, types, last).es[k] == Check(es[k], ScopeAt(es, k, types)).a
      {
        if k > 0 {
          ScopeShift(es, k - 1, types);
          assert es[1..][k - 1] == es[k];
        }
      }
      if |es| > 1 {
        ScopeShift(es, |es| - 2, types);
      }
    }
  }

  /** A call's arguments are checked one after another in the scope of the call, which keeps the type it has. */
  lemma CallChecked(callee: string, args: seq<Ast>, ty: Ty, types: Types)
    ensures var r := Check(Call(callee, args, ty), types);
            && r.a.Call? && r.a.callee == callee && r.a.ty == ty && r.ty == TError
            && |r.a.args| == |args| && r.types == ScopeAt(args, |args|, types)
            && forall k :: 0 <= k < |args| ==> r.a.args[k] == Check(args[k], ScopeAt(args, k, types)).a
  {
    ListChecked(args, types, TUnit);
  }

  /** Checking a program, with errors or without, fills in types and changes nothing else. */
  lemma {:induction false} CheckKeepsTree(a: Ast, types: Types)
    ensures Erase(Check(a, types).a) == Erase(a)
    decreases a
  {
    match a
    case Unary(_, arg, _) => CheckKeepsTree(arg, types);
    case Binary(_, left, right, _) =>
      CheckKeepsTree(left, types);
      CheckKeepsTree(right, Check(left, types).types);
    case Call(_, args, _) => ListKeepsTree(args, types, TUnit);
    case Block(stmts, _) => ListKeepsTree(stmts, map[], TUnit);
    case IfThen(cond, thn, _) =>
      CheckKeepsTree(cond, types);
      CheckKeepsTree(thn, Check(cond, types).types);
    case IfElse(cond, thn, els, _) =>
      var x := Check(cond, types);
      CheckKeepsTree(cond, types);
      CheckKeepsTree(thn, x.types);
      CheckKeepsTree(els, Check(thn, x.types).types);
    case While(cond, body, _) =>
      CheckKeepsTree(cond, types);
      CheckKeepsTree(body, Check(cond, types).types);
    case VarExpr(_, init, _, _) => CheckKeepsTree(init, types);
    case _ =>
  }

  lemma {:induction false} ListKeepsTree(es: seq<Ast>, types: Types, last: Ty)
    ensures EraseAll(CheckAll(es, types, last).es) == EraseAll(es)
    decreases es
  {
    hide Check, Erase;
    if es != [] {
      var x := Check(es[0], types);
      CheckKeepsTree(es[0], types);
      ListKeepsTree(es[1..], x.types, x.ty);
      assert CheckAll(es, types, last).es[1..] == CheckAll(es[1..], x.types, x.ty).es;
    }
  }

  /** In a parsed program, the type written to a node is the one returned for it, the error type included. */
  lemma TypeIsWritten(a: Ast, types: Types)
    requires Erase(a) == a
    ensures TypeOf(Check(a, types).a) == Check(a, types).ty
  {
  }

  /** Behind a condition that is no Bool nothing is checked. */
  lemma NotReached(cond: Ast, thn: Ast, els: Ast, ty: Ty, types: Types)
    requires Check(cond, types).ty != TBool
    ensures var x := Check(cond, types);
            && Check(IfThen(cond, thn, ty), types) == Checked(IfThen(x.a, thn, ty), TError, x.types)
            && Check(IfElse(cond, thn, els, ty), types) == Checked(IfElse(x.a, thn, els, ty), TError, x.types)
            && Check(While(cond, thn, ty), types) == Checked(While(x.a, thn, ty), TError, x.types)
  {
  }

  /** Behind a Bool everything is; two branches must agree. */
  lemma BranchesChecked(cond: Ast, thn: Ast, els: Ast, ty: Ty, types: Types, t: Ty)
    requires Check(cond, types).ty == TBool && t != TError
    ensures var x := Check(cond, types);
            var y := Check(thn, x.types);
            var z := Check(els, y.types);
            && Check(IfThen(cond, thn, ty), types).ty == y.ty
            && (Check(IfElse(cond, thn, els, ty), types).ty == t <==> y.ty == t && z.ty == t)
  {
  }
}
