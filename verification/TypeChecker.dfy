/**
 The type checker (src/language/type_checker.c:34-334): it walks the tree with one scope per block, writes the
 type of every node it accepts, and reports an error by returning the error type.  The functions give the
 annotated tree, the returned type and the scope afterwards; the methods do it on scopes changed in place.
*/
module TypeChecker {
  import opened Syntax

  /** The names of one scope and their types. */
  type Types = map<string, Ty>

  datatype Checked = Checked(a: Ast, ty: Ty, types: Types)

  datatype CheckedList = CheckedList(es: seq<Ast>, ty: Ty, types: Types)

  function DeclaredType(decl: string): Ty {
    if decl == "Int" then TInt else if decl == "Bool" then TBool else TError
  }

  function LiteralType(text: string): Ty {
    if text == "true" || text == "false" then TBool else TInt
  }

  /** The type a unary operator takes and gives. */
  function UnaryType(op: string): Ty {
    if op == "-" then TInt else if op == "not" then TBool else TError
  }

  /** cabor_typecheck: on an error the node keeps the type it had, and what was not reached is not checked. */
  function Check(a: Ast, types: Types): (r: Checked)
    decreases a
  {
    match a
    case Literal(text, _) => Checked(Literal(text, LiteralType(text)), LiteralType(text), types)
    case Identifier(name, _) =>
      if name in types then Checked(Identifier(name, types[name]), types[name], types) else Checked(a, TError, types)
    case Unary(op, arg, ty) =>
      var x := Check(arg, types);
      var ok := UnaryType(op) != TError && x.ty == UnaryType(op);
      Checked(Unary(op, x.a, if ok then x.ty else ty), if ok then x.ty else TError, x.types)
    case Binary(op, left, right, ty) =>
      var x := Check(left, types);
      var y := Check(right, x.types);
      var ok := x.ty == y.ty;
      Checked(Binary(op, x.a, y.a, if ok then x.ty else ty), if ok then x.ty else TError, y.types)
    case Call(callee, args, ty) =>
      var xs := CheckAll(args, types, TUnit);
      Checked(Call(callee, xs.es, ty), TError, xs.types)  // the node kind returned as a type is the error type
    case UnitNode => Checked(UnitNode, TUnit, types)
    case Block(stmts, _) =>
      var xs := CheckAll(stmts, map[], TUnit);
      Checked(Block(xs.es, xs.ty), xs.ty, types)
    case IfThen(cond, thn, ty) =>
      var x := Check(cond, types);
      if x.ty != TBool then Checked(IfThen(x.a, thn, ty), TError, x.types) else
      var y := Check(thn, x.types);
      Checked(IfThen(x.a, y.a, y.ty), y.ty, y.types)
    case IfElse(cond, thn, els, ty) =>
      var x := Check(cond, types);
      if x.ty != TBool then Checked(IfElse(x.a, thn, els, ty), TError, x.types) else
      var y := Check(thn, x.types);
      var z := Check(els, y.types);
      var result := if y.ty == z.ty then y.ty else TError;
      Checked(IfElse(x.a, y.a, z.a, result), result, z.types)
    case While(cond, body, ty) =>
      var x := Check(cond, types);
      if x.ty != TBool then Checked(While(x.a, body, ty), TError, x.types) else
      var y := Check(body, x.types);
      Checked(While(x.a, y.a, TUnit), TUnit, y.types)
    case VarExpr(name, init, decl, ty) =>
      var x := Check(init, types);
      if (decl != "" && x.ty != DeclaredType(decl)) || name in x.types
        then Checked(VarExpr(name, x.a, decl, ty), TError, x.types)
        else Checked(VarExpr(name, x.a, decl, x.ty), x.ty, x.types[name := x.ty])
  }

  /** Several nodes in one scope; the type is the last one's. */
  function CheckAll(es: seq<Ast>, types: Types, last: Ty): (r: CheckedList)
    ensures |r.es| == |es|
    decreases es
  {
    if es == [] then CheckedList([], last, types) else
    var x := Check(es[0], types);
    var xs := CheckAll(es[1..], x.types, x.ty);
    xs.(es := [x.a] + xs.es)
  }

  class SymbolScope {
    var types: Types
    var parent: SymbolScope?
    var child: SymbolScope?

    constructor ()
      ensures types == map[] && parent == null && child == null
    {
      types, parent, child := map[], null, null;
    }

    /** cabor_create_new_symbol_scope: linked to this one, and seeing none of its names. */
    method NewScope() returns (inner: SymbolScope)
      modifies this`child
      ensures fresh(inner) && inner.types == map[] && inner.parent == this && child == inner
    {
      inner := new SymbolScope();
      inner.parent := this;
      child := inner;
    }

    ghost predicate Agrees(a: Ast, ty: Ty, r: Checked)
      reads this
    {
      Checked(a, ty, types) == r
    }

    method Typecheck(a: Ast) returns (b: Ast, ty: Ty)
      modifies this
      ensures Agrees(b, ty, Check(a, old(types)))
      decreases a, 1
    {
      match a {
        case Literal(text, _) =>
          ty := LiteralType(text);
          b := Literal(text, ty);
        case Identifier(name, _) =>
          ty := if name in types then types[name] else TError;
          b := if name in types then Identifier(name, ty) else a;
        case Unary(_, _, _) => b, ty := TypecheckUnaryOp(a);
        case Binary(_, _, _, _) => b, ty := TypecheckBinaryOp(a);
        case Call(_, _, _) => b, ty := TypecheckFunction(a);
        case UnitNode => b, ty := a, TUnit;
        case Block(_, _) => b, ty := TypecheckBlock(a);
        case IfThen(_, _, _) => b, ty := TypecheckIfThen(a);
        case IfElse(_, _, _, _) => b, ty := TypecheckIfThenElse(a);
        case While(_, _, _) => b, ty := TypecheckWhile(a);
        case VarExpr(_, _, _, _) => b, ty := TypecheckVarExpr(a);
      }
    }

    method TypecheckUnaryOp(a: Ast) returns (b: Ast, ty: Ty)
      requires a.Unary?
      modifies this
      ensures Agrees(b, ty, Check(a, old(types)))
      decreases a, 0
    {
      var arg;
      arg, ty := Typecheck(a.arg);
      if (a.op == "-" && ty == TInt) || (a.op == "not" && ty == TBool) {
        b := Unary(a.op, arg, ty);
      } else {
        b, ty := Unary(a.op, arg, a.ty), TError;
      }
    }

    method TypecheckBinaryOp(a: Ast) returns (b: Ast, ty: Ty)
      requires a.Binary?
      modifies this
      ensures Agrees(b, ty, Check(a, old(types)))
      decreases a, 0
    {
      var left, right, rightTy;
      left, ty := Typecheck(a.left);
      right, rightTy := Typecheck(a.right);
      if ty == rightTy {
        b := Binary(a.op, left, right, ty);
      } else {
        b, ty := Binary(a.op, left, right, a.ty), TError;
      }
    }

    method TypecheckFunction(a: Ast) returns (b: Ast, ty: Ty)
      requires a.Call?
      modifies this
      ensures Agrees(b, ty, Check(a, old(types)))
      decreases a, 0
    {
      var args;
      args, ty := TypecheckAll(a.args);
      b, ty := Call(a.callee, args, a.ty), TError;
    }

    /** Names declared in the block are seen nowhere else: the scope's own names do not change. */
    method TypecheckBlock(a: Ast) returns (b: Ast, ty: Ty)
      requires a.Block?
      modifies this`child
      ensures Agrees(b, ty, Check(a, old(types)))
      decreases a, 0
    {
      var inner := NewScope();
      var stmts;
      stmts, ty := inner.TypecheckAll(a.stmts);
      b := Block(stmts, ty);
    }

    /** The loop over the children of a call or a block. */
    method TypecheckAll(es: seq<Ast>) returns (bs: seq<Ast>, ty: Ty)
      modifies this
      ensures CheckedList(bs, ty, types) == CheckAll(es, old(types), TUnit)
      decreases es, 0
    {
      bs, ty := [], TUnit;
      ghost var goal := CheckAll(es, types, ty);
      var i := 0;
      assert es[i..] == es;
      while i < |es|
        invariant i <= |es|
        invariant var rest := CheckAll(es[i..], types, ty); goal == rest.(es := bs + rest.es)
      {
        ghost var done := bs;
        assert es[i..][1..] == es[i + 1..];
        var b;
        b, ty := Typecheck(es[i]);
        bs := bs + [b];
        i := i + 1;
        ghost var rest := CheckAll(es[i..], types, ty);
        assert done + ([b] + rest.es) == bs + rest.es;
      }
      assert bs + [] == bs;
    }

    method TypecheckIfThen(a: Ast) returns (b: Ast, ty: Ty)
      requires a.IfThen?
      modifies this
      ensures Agrees(b, ty, Check(a, old(types)))
      decreases a, 0
    {
      var cond, thn;
      cond, ty := Typecheck(a.cond);
      if ty != TBool {
        return IfThen(cond, a.thn, a.ty), TError;
      }
      thn, ty := Typecheck(a.thn);
      b := IfThen(cond, thn, ty);
    }

    method TypecheckIfThenElse(a: Ast) returns (b: Ast, ty: Ty)
      requires a.IfElse?
      modifies this
      ensures Agrees(b, ty, Check(a, old(types)))
      decreases a, 0
    {
      var cond, thn, els, elsTy;
      cond, ty := Typecheck(a.cond);
      if ty != TBool {
        return IfElse(cond, a.thn, a.els, a.ty), TError;
      }
      thn, ty := Typecheck(a.thn);
      els, elsTy := Typecheck(a.els);
      if ty != elsTy {
        ty := TError;
      }
      b := IfElse(cond, thn, els, ty);
    }

    method TypecheckWhile(a: Ast) returns (b: Ast, ty: Ty)
      requires a.While?
      modifies this
      ensures Agrees(b, ty, Check(a, old(types)))
      decreases a, 0
    {
      var cond, body;
      cond, ty := Typecheck(a.cond);
      if ty != TBool {
        return While(cond, a.body, a.ty), TError;
      }
      body, ty := Typecheck(a.body);
      b, ty := While(cond, body, TUnit), TUnit;
    }

    method TypecheckVarExpr(a: Ast) returns (b: Ast, ty: Ty)
      requires a.VarExpr?
      modifies this
      ensures Agrees(b, ty, Check(a, old(types)))
      decreases a, 0
    {
      var init;
      init, ty := Typecheck(a.init);
      b := VarExpr(a.name, init, a.decl, a.ty);
      if a.decl != "" && ty != DeclaredType(a.decl) {
        return b, TError;
      }
      if a.name in types {
        return b, TError;
      }
      types := types[a.name := ty];
      b := VarExpr(a.name, init, a.decl, ty);
    }
  }
}
