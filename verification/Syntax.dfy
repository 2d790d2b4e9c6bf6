/**
 The abstract syntax tree the parser builds, with the type each node carries after checking
 (src/language/parser.h:12-57).  Tokens are represented by their text.
*/
module Syntax {
  import opened Words

  datatype Ty = TInt | TBool | TUnit | TFunction | TError

  datatype Ast =
    | Literal(text: string, ty: Ty)
    | Identifier(name: string, ty: Ty)
    | Unary(op: string, arg: Ast, ty: Ty)
    | Binary(op: string, left: Ast, right: Ast, ty: Ty)
    | Call(callee: string, args: seq<Ast>, ty: Ty)
    | UnitNode
    | Block(stmts: seq<Ast>, ty: Ty)
    | IfThen(cond: Ast, thn: Ast, ty: Ty)
    | IfElse(cond: Ast, thn: Ast, els: Ast, ty: Ty)
    | While(cond: Ast, body: Ast, ty: Ty)
    | VarExpr(name: string, init: Ast, decl: string, ty: Ty)  // decl == "" when no type is declared

  /** The node evaluates to a value held in an IR variable (rather than to UNIT). */
  predicate IsValue(a: Ast) {
    match a
    case Literal(_, _) => true
    case Identifier(_, _) => true
    case Unary(_, _, _) => true
    case Binary(_, _, _, _) => true
    case Call(_, _, _) => true
    case UnitNode => false
    case Block(stmts, _) => stmts != [] && IsValue(stmts[|stmts| - 1])
    case IfThen(_, _, _) => false
    case IfElse(_, _, _, _) => true
    case While(_, _, _) => false
    case VarExpr(_, _, _, _) => false
  }

  /** Literals as the type checker annotates them (type_checker.c:236-262). */
  predicate LiteralOk(text: string, ty: Ty) {
    if text == "true" || text == "false" then ty == TBool else ty == TInt && IsDigits(text)
  }

  /**
   The fragment in which lowering a node makes sense: operands, arguments, conditions, the branches of an `if`
   with `else`, and initialisers are value expressions; `var` occurs only as the root or as a statement of a block.
   An `if` without `else` has no value, so it is a statement, a body or a branch of its like.
  */
  predicate Fragment(a: Ast)
    decreases a, 0
  {
    match a
    case Literal(text, ty) => LiteralOk(text, ty)
    case Identifier(_, _) => true
    case Unary(_, arg, _) => Operand(arg)
    case Binary(_, left, right, _) => Operand(left) && Operand(right)
    case Call(_, args, _) => Operands(args)
    case UnitNode => true
    case Block(stmts, _) => Statements(stmts)
    case IfThen(cond, thn, _) => Operand(cond) && !thn.VarExpr? && Fragment(thn)
    case IfElse(cond, thn, els, _) => Operand(cond) && Operand(thn) && Operand(els)
    case While(cond, body, _) => Operand(cond) && !body.VarExpr? && Fragment(body)
    case VarExpr(_, init, _, _) => Operand(init)
  }

  predicate Operand(a: Ast)
    decreases a, 1
  {
    IsValue(a) && Fragment(a)
  }

  predicate Operands(es: seq<Ast>)
    decreases es
  {
    es == [] || (Operand(es[0]) && Operands(es[1..]))
  }

  predicate Statements(es: seq<Ast>)
    decreases es
  {
    es == [] || (Fragment(es[0]) && Statements(es[1..]))
  }

  function Declared(a: Ast): set<string> {
    if a.VarExpr? then {a.name} else {}
  }

  /** The types of the names of a scope, after a statement. */
  function Declare(a: Ast, types: map<string, Ty>): map<string, Ty> {
    if a.VarExpr? then types[a.name := a.ty] else types
  }

  /**
   Every identifier read is declared earlier in the same block, and every callee is bound there: a
   block sees only its own names (type_checker_test.c:190-194, ir.c:555-567).
  */
  predicate Scoped(a: Ast, vars: set<string>, callees: set<string>)
    decreases a
  {
    match a
    case Literal(_, _) => true
    case Identifier(name, _) => name in vars
    case Unary(_, arg, _) => Scoped(arg, vars, callees)
    case Binary(_, left, right, _) => Scoped(left, vars, callees) && Scoped(right, vars, callees)
    case Call(callee, args, _) => (callee in callees || callee in vars) && ScopedAll(args, vars, callees)
    case UnitNode => true
    case Block(stmts, _) => ScopedStatements(stmts, {}, {})
    case IfThen(cond, thn, _) => Scoped(cond, vars, callees) && Scoped(thn, vars, callees)
    case IfElse(cond, thn, els, _) =>
      Scoped(cond, vars, callees) && Scoped(thn, vars, callees) && Scoped(els, vars, callees)
    case While(cond, body, _) => Scoped(cond, vars, callees) && Scoped(body, vars, callees)
    case VarExpr(_, init, _, _) => Scoped(init, vars, callees)
  }

  predicate ScopedAll(es: seq<Ast>, vars: set<string>, callees: set<string>)
    decreases es
  {
    es == [] || (Scoped(es[0], vars, callees) && ScopedAll(es[1..], vars, callees))
  }

  predicate ScopedStatements(es: seq<Ast>, vars: set<string>, callees: set<string>)
    decreases es
  {
    es == [] || (Scoped(es[0], vars, callees) && ScopedStatements(es[1..], vars + Declared(es[0]), callees))
  }

  /** The functions bound at the root (ir.c:273-291). */
  const ROOT_CALLEES: set<string> := {"print_int", "print_bool"}

  predicate WellScoped(root: Ast) {
    Fragment(root) && Scoped(root, {}, ROOT_CALLEES)
  }

  /** No `if` without `else` anywhere in the tree. */
  predicate EveryIfHasElse(a: Ast)
    decreases a
  {
    match a
    case Literal(_, _) => true
    case Identifier(_, _) => true
    case Unary(_, arg, _) => EveryIfHasElse(arg)
    case Binary(_, left, right, _) => EveryIfHasElse(left) && EveryIfHasElse(right)
    case Call(_, args, _) => EveryIfHasElseIn(args)
    case UnitNode => true
    case Block(stmts, _) => EveryIfHasElseIn(stmts)
    case IfThen(_, _, _) => false
    case IfElse(cond, thn, els, _) => EveryIfHasElse(cond) && EveryIfHasElse(thn) && EveryIfHasElse(els)
    case While(cond, body, _) => EveryIfHasElse(cond) && EveryIfHasElse(body)
    case VarExpr(_, init, _, _) => EveryIfHasElse(init)
  }

  predicate EveryIfHasElseIn(es: seq<Ast>)
    decreases es
  {
    es == [] || (EveryIfHasElse(es[0]) && EveryIfHasElseIn(es[1..]))
  }

  /** Declared names and callees start with a letter, and operators are not empty: so it is in every parsed tree. */
  predicate WellNamed(a: Ast)
    decreases a
  {
    match a
    case Unary(_, arg, _) => WellNamed(arg)
    case Binary(op, left, right, _) => op != "" && WellNamed(left) && WellNamed(right)
    case Call(callee, args, _) => Name(callee) && WellNamedIn(args)
    case Block(stmts, _) => WellNamedIn(stmts)
    case IfThen(cond, thn, _) => WellNamed(cond) && WellNamed(thn)
    case IfElse(cond, thn, els, _) => WellNamed(cond) && WellNamed(thn) && WellNamed(els)
    case While(cond, body, _) => WellNamed(cond) && WellNamed(body)
    case VarExpr(name, init, _, _) => Name(name) && WellNamed(init)
    case _ => true
  }

  predicate WellNamedIn(es: seq<Ast>)
    decreases es
  {
    es == [] || (WellNamed(es[0]) && WellNamedIn(es[1..]))
  }
}
