/**
 Printing trees as tokens with the parentheses precedence requires, and any number of redundant ones.
*/
module Printer {
  import opened Words
  import opened Syntax
  import opened Tokens

  /**
   How many redundant pairs of parentheses to put around each node; missing children have none.  And whether a `;` is
   put behind every `if` without `else` of the whole tree: the parser steps over whatever follows one (parser.c:448).
  */
  datatype Style = Style(extra: nat, kids: seq<Style>, stop: bool)

  const PLAIN: Style := Style(0, [], true)

  /** No redundant parentheses, and nothing behind an `if`. */
  const NATURAL: Style := Style(0, [], false)

  function Kid(kids: seq<Style>, i: nat, stop: bool): (st: Style)
    ensures st.stop == stop
  {
    if i < |kids| then kids[i].(stop := stop) else Style(0, [], stop)
  }

  function Stop(stop: bool): seq<Token> {
    if stop then [Punct(";")] else []
  }

  const FACTOR_LEVEL: nat := 7

  /** These forms swallow whatever operators follow them. */
  predicate OpenEnded(a: Ast) {
    a.IfElse? || a.While? || a.VarExpr?
  }

  /**
   A node printed where the parser expects an operand of `level`, with an operator possibly following it
   (guarded), needs parentheses if its operator binds too loosely or it would swallow that operator.
  */
  predicate NeedsParens(a: Ast, level: nat, guarded: bool) {
    (a.Binary? && OpLevel(a.op).Some? && OpLevel(a.op).value < level) || (guarded && OpenEnded(a))
  }

  function Pairs(a: Ast, level: nat, guarded: bool, st: Style): nat {
    if st.extra == 0 && NeedsParens(a, level, guarded) then 1 else st.extra
  }

  function Wrap(k: nat, ts: seq<Token>): seq<Token> {
    if k == 0 then ts else [Punct("(")] + Wrap(k - 1, ts) + [Punct(")")]
  }

  function Print(a: Ast, level: nat, guarded: bool, st: Style): seq<Token>
    decreases a, 1
  {
    var k := Pairs(a, level, guarded, st);
    Wrap(k, Bare(a, guarded && k == 0, st.kids, st.stop))
  }

  function TypeDecl(decl: string): seq<Token> {
    if decl == "" then [] else [Punct(":"), Ident(decl)]
  }

  /** The tokens of a node without parentheses of its own. */
  function Bare(a: Ast, guarded: bool, kids: seq<Style>, stop: bool): seq<Token>
    decreases a, 0
  {
    match a
    case Literal(text, _) => [if text == "true" || text == "false" then Ident(text) else Token(IntegerKind, text)]
    case Identifier(name, _) => [Ident(name)]
    case Unary(op, arg, _) => [Op(op)] + Print(arg, FACTOR_LEVEL, guarded, Kid(kids, 0, stop))
    case Binary(op, left, right, _) =>
      var p := if OpLevel(op).Some? then OpLevel(op).value else 0;
      Print(left, p, true, Kid(kids, 0, stop)) + [Op(op)] + Print(right, p + 1, guarded, Kid(kids, 1, stop))
    case Call(callee, args, _) => [Ident(callee), Punct("(")] + PrintArgs(args, kids, 0, stop)
    case UnitNode => []
    case Block(stmts, _) => [Punct("{")] + PrintStatements(stmts, kids, 0, stop)
    case IfThen(cond, thn, _) =>
      [Keyword("if")] + (Print(cond, 0, false, Kid(kids, 0, stop)) + ([Keyword("then")]
      + (Print(thn, 0, false, Kid(kids, 1, stop)) + Stop(stop))))
    case IfElse(cond, thn, els, _) =>
      [Keyword("if")] + (Print(cond, 0, false, Kid(kids, 0, stop)) + ([Keyword("then")] + (Print(thn, 0, false, Kid(kids, 1, stop))
      + ([Keyword("else")] + Print(els, 0, false, Kid(kids, 2, stop))))))
    case While(cond, body, _) =>
      [Keyword("while")] + (Print(cond, 0, false, Kid(kids, 0, stop)) + ([Keyword("do")] + Print(body, 0, false, Kid(kids, 1, stop))))
    case VarExpr(name, init, decl, _) =>
      [Keyword("var")] + ([Ident(name)] + (TypeDecl(decl) + ([Op("=")] + Print(init, 0, false, Kid(kids, 0, stop)))))
  }

  /** Arguments separated by commas, and the closing parenthesis. */
  function PrintArgs(es: seq<Ast>, kids: seq<Style>, i: nat, stop: bool): seq<Token>
    decreases es
  {
    if es == [] then [Punct(")")]
    else if |es| == 1 then Print(es[0], 0, false, Kid(kids, i, stop)) + [Punct(")")]
    else Print(es[0], 0, false, Kid(kids, i, stop)) + [Punct(",")] + PrintArgs(es[1..], kids, i + 1, stop)
  }

  /** Statements separated by semicolons, and the closing brace; a final UNIT is an empty statement. */
  function PrintStatements(es: seq<Ast>, kids: seq<Style>, i: nat, stop: bool): seq<Token>
    decreases es
  {
    if es == [] || es == [UnitNode] then [Punct("}")]
    else if |es| == 1 then Print(es[0], 0, false, Kid(kids, i, stop)) + [Punct("}")]
    else Print(es[0], 0, false, Kid(kids, i, stop)) + [Punct(";")] + PrintStatements(es[1..], kids, i + 1, stop)
  }

  /** The trees the parser produces, from tokens classified as the tokenizer does (nodes not yet typed). */
  predicate Parseable(a: Ast)
    decreases a
  {
    match a
    case Literal(text, ty) => ty == TError && (text == "true" || text == "false" || (text != "" && IsDigit(text[0])))
    case Identifier(name, ty) => ty == TError && Name(name) && name != "true" && name != "false"
    case Unary(op, arg, ty) => ty == TError && (op == "-" || op == "not") && Parseable(arg) && !arg.UnitNode?
    case Binary(op, left, right, ty) =>
      && ty == TError && OpLevel(op).Some? && Parseable(left) && Parseable(right)
      && !left.Block? && !left.UnitNode? && !right.Block? && !right.UnitNode?
    case Call(callee, args, ty) => ty == TError && Name(callee) && |args| <= 10 && ParseableArgs(args)
    case UnitNode => true
    case Block(stmts, ty) => ty == TError && 1 <= |stmts| <= 10 && !stmts[0].UnitNode? && ParseableStatements(stmts)
    case IfThen(cond, thn, ty) =>
      ty == TError && Parseable(cond) && Parseable(thn) && !cond.UnitNode? && !thn.UnitNode?
    case IfElse(cond, thn, els, ty) =>
      ty == TError && Parseable(cond) && Parseable(thn) && Parseable(els) && !cond.UnitNode? && !thn.UnitNode? && !els.UnitNode?
    case While(cond, body, ty) =>
      ty == TError && Parseable(cond) && Parseable(body) && !cond.UnitNode? && !body.UnitNode?
    case VarExpr(name, init, decl, ty) => ty == TError && Name(name) && Parseable(init) && !init.UnitNode?
  }

  predicate ParseableArgs(es: seq<Ast>)
    decreases es
  {
    es == [] || (Parseable(es[0]) && !es[0].UnitNode? && ParseableArgs(es[1..]))
  }

  /** Only the last statement of a block may be UNIT. */
  predicate ParseableStatements(es: seq<Ast>)
    decreases es
  {
    es == [] || es == [UnitNode] || (Parseable(es[0]) && !es[0].UnitNode? && ParseableStatements(es[1..]))
  }

  /** Trees printed in a way that closes every `if`. */
  predicate Printable(a: Ast, stop: bool) {
    Parseable(a) && (stop || EveryIfHasElse(a))
  }

  predicate PrintableArgs(es: seq<Ast>, stop: bool) {
    ParseableArgs(es) && (stop || EveryIfHasElseIn(es))
  }

  predicate PrintableStatements(es: seq<Ast>, stop: bool) {
    ParseableStatements(es) && (stop || EveryIfHasElseIn(es))
  }

  /** The UNIT tokens the parser appends for a tree: one per block ending in UNIT. */
  function Units(a: Ast): nat
    decreases a
  {
    match a
    case Unary(_, arg, _) => Units(arg)
    case Binary(_, left, right, _) => Units(left) + Units(right)
    case Call(_, args, _) => UnitsIn(args)
    case UnitNode => 1
    case Block(stmts, _) => UnitsIn(stmts)
    case IfThen(cond, thn, _) => Units(cond) + Units(thn)
    case IfElse(cond, thn, els, _) => Units(cond) + Units(thn) + Units(els)
    case While(cond, body, _) => Units(cond) + Units(body)
    case VarExpr(_, init, _, _) => Units(init)
    case _ => 0
  }

  function UnitsIn(es: seq<Ast>): nat
    decreases es
  {
    if es == [] then 0 else Units(es[0]) + UnitsIn(es[1..])
  }
}
