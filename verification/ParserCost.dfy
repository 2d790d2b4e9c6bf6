/**
 What a tree costs to parse (parser.c:180-710).  An `if` without `else` swallows a token more than it is written with,
 unless the input ends; so whatever the tokens are, the parser has read at least so many when it returns a tree.
*/
module ParserCost {
  import opened Syntax
  import opened Ir
  import opened Tokens
  import opened ParserSpec
  import opened Printer
  import opened ParserInverse

  /** How many ifs without else there are. */
  function Opens(a: Ast): nat
    decreases a
  {
    match a
    case Unary(_, arg, _) => Opens(arg)
    case Binary(_, left, right, _) => Opens(left) + Opens(right)
    case Call(_, args, _) => OpensIn(args)
    case Block(stmts, _) => OpensIn(stmts)
    case IfThen(cond, thn, _) => 1 + Opens(cond) + Opens(thn)
    case IfElse(cond, thn, els, _) => Opens(cond) + Opens(thn) + Opens(els)
    case While(cond, body, _) => Opens(cond) + Opens(body)
    case VarExpr(_, init, _, _) => Opens(init)
    case _ => 0
  }

  function OpensIn(es: seq<Ast>): nat
    decreases es
  {
    if es == [] then 0 else Opens(es[0]) + OpensIn(es[1..])
  }

  /** The tokens of a tree with no parentheses but the required ones, and one more for each `if` without `else`. */
  function Full(a: Ast, level: nat, guarded: bool): nat
    decreases a, 1
  {
    if NeedsParens(a, level, guarded) then 2 + FullBare(a, false) else FullBare(a, guarded)
  }

  function FullBare(a: Ast, guarded: bool): nat
    decreases a, 0
  {
    match a
    case Unary(_, arg, _) => 1 + Full(arg, FACTOR_LEVEL, guarded)
    case Binary(op, left, right, _) => Full(left, LevelOf(op), true) + 1 + Full(right, LevelOf(op) + 1, guarded)
    case Call(_, args, _) => 2 + FullArgs(args)
    case UnitNode => 0
    case Block(stmts, _) => 1 + FullStatements(stmts)
    case IfThen(cond, thn, _) => 1 + Full(cond, 0, false) + 1 + Full(thn, 0, false) + 1
    case IfElse(cond, thn, els, _) => 1 + Full(cond, 0, false) + 1 + Full(thn, 0, false) + 1 + Full(els, 0, false)
    case While(cond, body, _) => 1 + Full(cond, 0, false) + 1 + Full(body, 0, false)
    case VarExpr(_, init, decl, _) => 2 + |TypeDecl(decl)| + 1 + Full(init, 0, false)
    case _ => 1
  }

  function LevelOf(op: string): nat {
    if OpLevel(op).Some? then OpLevel(op).value else 0
  }

  /** Arguments, and the closing parenthesis. */
  function FullArgs(es: seq<Ast>): nat
    decreases es
  {
    if es == [] then 1
    else if |es| == 1 then Full(es[0], 0, false) + 1
    else Full(es[0], 0, false) + 1 + FullArgs(es[1..])
  }

  /** Statements, and the closing brace. */
  function FullStatements(es: seq<Ast>): nat
    decreases es
  {
    if es == [] || es == [UnitNode] then 1
    else if |es| == 1 then Full(es[0], 0, false) + 1
    else Full(es[0], 0, false) + 1 + FullStatements(es[1..])
  }

  /** The same up to the last token that is no closing parenthesis, nor the one behind a final `if`. */
  function Solid(a: Ast, level: nat, guarded: bool): nat
    decreases a, 1
  {
    if NeedsParens(a, level, guarded) then 1 + SolidBare(a, false) else SolidBare(a, guarded)
  }

  function SolidBare(a: Ast, guarded: bool): nat
    decreases a, 0
  {
    match a
    case Unary(_, arg, _) => 1 + Solid(arg, FACTOR_LEVEL, guarded)
    case Binary(op, left, right, _) => Full(left, LevelOf(op), true) + 1 + Solid(right, LevelOf(op) + 1, guarded)
    case Call(_, args, _) => 2 + SolidArgs(args)
    case UnitNode => 0
    case Block(stmts, _) => 1 + FullStatements(stmts)
    case IfThen(cond, thn, _) => 1 + Full(cond, 0, false) + 1 + Solid(thn, 0, false)
    case IfElse(cond, thn, els, _) => 1 + Full(cond, 0, false) + 1 + Full(thn, 0, false) + 1 + Solid(els, 0, false)
    case While(cond, body, _) => 1 + Full(cond, 0, false) + 1 + Solid(body, 0, false)
    case VarExpr(_, init, decl, _) => 2 + |TypeDecl(decl)| + 1 + Solid(init, 0, false)
    case _ => 1
  }

  function SolidArgs(es: seq<Ast>): nat
    decreases es
  {
    if es == [] then 0
    else if |es| == 1 then Solid(es[0], 0, false)
    else Full(es[0], 0, false) + 1 + SolidArgs(es[1..])
  }

  /** An operator behind a node costs at most one pair of parentheses, and never saves any. */
  lemma {:induction false} GuardCost(a: Ast)
    ensures FullBare(a, false) <= FullBare(a, true) <= FullBare(a, false) + 2
    ensures SolidBare(a, false) <= SolidBare(a, true) <= SolidBare(a, false) + 1
    decreases a
  {
    hide OpLevel;
    match a
    case Unary(_, arg, _) => GuardCost(arg);
    case Binary(_, _, right, _) => GuardCost(right);
    case _ =>
  }

  /** A pair of parentheses is enough anywhere. */
  lemma PairIsEnough(a: Ast, level: nat, guarded: bool)
    ensures Full(a, level, guarded) <= FullBare(a, false) + 2 && Solid(a, level, guarded) <= SolidBare(a, false) + 1
    ensures Full(a, 0, false) == FullBare(a, false) && Solid(a, 0, false) == SolidBare(a, false)
  {
    hide FullBare, SolidBare, OpLevel;
    GuardCost(a);
  }

  /** A looser position, or one with no operator behind it, costs no more. */
  lemma Looser(a: Ast, level': nat, level: nat, guarded': bool, guarded: bool)
    requires level' <= level && (guarded' ==> guarded)
    ensures Full(a, level', guarded') <= Full(a, level, guarded) && Solid(a, level', guarded') <= Solid(a, level, guarded)
  {
    hide FullBare, SolidBare, OpLevel;
    GuardCost(a);
  }

  /** From c to q there are n tokens up to one that is no closing parenthesis. */
  predicate Reached(P: seq<Token>, c: nat, q: nat, n: nat) {
    exists p :: c <= p <= q && p < |P| && P[p] != Punct(")") && p - c + 1 >= n
  }

  lemma ReachedFrom(P: seq<Token>, c: nat, d: nat, q: nat, q': nat, n: nat, n': nat)
    requires Reached(P, d, q, n) && c <= d && q <= q' && n' <= n + (d - c)
    ensures Reached(P, c, q', n')
  {
    var p :| d <= p <= q && p < |P| && P[p] != Punct(")") && p - d + 1 >= n;
  }

  lemma ReachedHere(P: seq<Token>, c: nat, q: nat, n: nat)
    requires c <= q < |P| && P[q] != Punct(")") && n <= q - c + 1
    ensures Reached(P, c, q, n)
  {
  }

  /** Reading from c to q was enough for a: all of it, or up to its last solid token when the input ends there. */
  predicate Costs(P: seq<Token>, c: nat, q: nat, a: Ast, level: nat, guarded: bool) {
    && c <= q && !a.UnitNode? && (q + 1 < |P| ==> q - c + 1 >= Full(a, level, guarded))
    && Reached(P, c, q, Solid(a, level, guarded))
  }

  predicate CostsOk(P: seq<Token>, c: nat, r: Parse, level: nat) {
    r.Ok? ==> Costs(P, c, r.cursor, r.a, level, OpAfter(P, r.units, r.cursor))
  }

  predicate OpAfter(P: seq<Token>, u: nat, q: nat) {
    var t := At(P, u, q + 1);
    t.Some? && AnyOp(t.value)
  }

  lemma CostsLooser(P: seq<Token>, c: nat, q: nat, a: Ast, level': nat, level: nat, guarded': bool, guarded: bool)
    requires Costs(P, c, q, a, level, guarded) && level' <= level && (guarded' ==> guarded)
    ensures Costs(P, c, q, a, level', guarded')
  {
    hide Full, Solid, Reached;
    Looser(a, level', level, guarded', guarded);
    ReachedFrom(P, c, c, q, q, Solid(a, level, guarded), Solid(a, level', guarded'));
  }

  /** No operator of this level or a tighter one. */
  predicate NoOpFrom(t: Option<Token>, level: nat) {
    t.Some? && t.value.kind == OperatorKind && OpLevel(t.value.data).Some? ==> OpLevel(t.value.data).value < level
  }

  /** The loops stop at an operator they do not take. */
  lemma {:induction false} BinaryStops(P: seq<Token>, u: nat, c: nat, level: nat)
    requires level <= LAST_LEVEL
    ensures var r := ParseBinary(P, u, c, level); r.Ok? ==> NoOpFrom(At(P, r.units, r.cursor + 1), level)
    decreases Unread(P, c), 20 - level
  {
    hide ParseFactor, ParseRest, OpLevel;
    if level == LAST_LEVEL {
      var x := ParseFactor(P, u, c);
      if x.Ok? {
        Levels(At(P, x.units, x.cursor + 1));
        RestStopsAt(P, x.units, x.cursor, level, x.a);
      }
    } else {
      BinaryStops(P, u, c, level + 1);
      var x := ParseBinary(P, u, c, level + 1);
      if x.Ok? {
        RestStopsAt(P, x.units, x.cursor, level, x.a);
      }
    }
  }

  lemma Levels(t: Option<Token>)
    ensures NoOpFrom(t, LAST_LEVEL + 1)
  {
  }

  lemma {:induction false} RestStopsAt(P: seq<Token>, u: nat, q: nat, level: nat, left: Ast)
    requires level <= LAST_LEVEL && NoOpFrom(At(P, u, q + 1), level + 1)
    ensures var r := ParseRest(P, u, q, level, left); r.Ok? ==> NoOpFrom(At(P, r.units, r.cursor + 1), level)
    decreases Unread(P, q), 4
  {
    hide ParseFactor, ParseBinary, OpLevel;
    if IsBinaryOpAt(At(P, u, q + 1), level) && At(P, u, q + 2).Some? {
      var right := if level == LAST_LEVEL then ParseFactor(P, u, q + 2) else ParseBinary(P, u, q + 2, level + 1);
      if level == LAST_LEVEL {
        if right.Ok? {
          Levels(At(P, right.units, right.cursor + 1));
        }
      } else {
        BinaryStops(P, u, q + 2, level + 1);
      }
      if right.Ok? && IsTerm(left) && IsTerm(right.a) {
        RestStopsAt(P, right.units, right.cursor, level, Binary(P[q + 1].data, left, right.a, TError));
      }
    }
  }

  lemma {:induction false} BinaryCost(P: seq<Token>, u: nat, c: nat, level: nat)
    requires level <= LAST_LEVEL
    ensures CostsOk(P, c, ParseBinary(P, u, c, level), level)
    decreases Unread(P, c), 20 - level
  {
    hide ParseFactor, ParseRest, Costs;
    if level == LAST_LEVEL {
      FactorCost(P, u, c);
      var x := ParseFactor(P, u, c);
      if x.Ok? {
        var after := OpAfter(P, x.units, x.cursor);
        CostsLooser(P, c, x.cursor, x.a, level, FACTOR_LEVEL, after, after);
        RestCost(P, x.units, c, x.cursor, level, x.a);
      }
    } else {
      BinaryCost(P, u, c, level + 1);
      var x := ParseBinary(P, u, c, level + 1);
      if x.Ok? {
        var after := OpAfter(P, x.units, x.cursor);
        CostsLooser(P, c, x.cursor, x.a, level, level + 1, after, after);
        RestCost(P, x.units, c, x.cursor, level, x.a);
      }
    }
  }

  lemma {:induction false} RestCost(P: seq<Token>, u: nat, c: nat, q: nat, level: nat, left: Ast)
    requires level <= LAST_LEVEL && c <= q && Costs(P, c, q, left, level, OpAfter(P, u, q))
    ensures CostsOk(P, c, ParseRest(P, u, q, level, left), level)
    decreases Unread(P, q), 4
  {
    hide ParseFactor, ParseBinary, Costs, OpLevel;
    if IsBinaryOpAt(At(P, u, q + 1), level) && At(P, u, q + 2).Some? {
      var right := if level == LAST_LEVEL then ParseFactor(P, u, q + 2) else ParseBinary(P, u, q + 2, level + 1);
      if level == LAST_LEVEL {
        FactorCost(P, u, q + 2);
      } else {
        BinaryCost(P, u, q + 2, level + 1);
      }
      if right.Ok? && IsTerm(left) && IsTerm(right.a) {
        JoinCost(P, c, q, right.cursor, P[q + 1].data, left, right.a, level, OpAfter(P, right.units, right.cursor));
        RestCost(P, right.units, c, right.cursor, level, Binary(P[q + 1].data, left, right.a, TError));
      }
    }
  }

  lemma JoinCost(P: seq<Token>, c: nat, q: nat, e: nat, op: string, left: Ast, right: Ast, level: nat, guarded: bool)
    requires q + 1 < |P| && OpLevel(op) == Some(level)
    requires Costs(P, c, q, left, level, true) && Costs(P, q + 2, e, right, level + 1, guarded)
    ensures Costs(P, c, e, Binary(op, left, right, TError), level, guarded)
  {
    hide OpLevel, Reached;
    var a := Binary(op, left, right, TError);
    assert LevelOf(op) == level;
    BinaryFull(a, level, guarded);
    ReachedFrom(P, c, q + 2, e, e, Solid(right, level + 1, guarded), Solid(a, level, guarded));
  }

  lemma BinaryFull(a: Ast, level: nat, guarded: bool)
    requires a.Binary? && OpLevel(a.op) == Some(level)
    ensures Full(a, level, guarded) == Full(a.left, level, true) + 1 + Full(a.right, level + 1, guarded)
    ensures Solid(a, level, guarded) == Full(a.left, level, true) + 1 + Solid(a.right, level + 1, guarded)
  {
  }

  lemma {:induction false} ExpressionCost(P: seq<Token>, u: nat, c: nat)
    ensures var r := ParseExpression(P, u, c);
            r.Ok? ==> Costs(P, c, r.cursor, r.a, 0, false) && !OpAfter(P, r.units, r.cursor)
    decreases Unread(P, c), 30
  {
    hide ParseBinary, Costs, OpLevel;
    BinaryCost(P, u, c, 0);
    BinaryStops(P, u, c, 0);
    var r := ParseBinary(P, u, c, 0);
    if r.Ok? {
      CostsLooser(P, c, r.cursor, r.a, 0, 0, false, OpAfter(P, r.units, r.cursor));
    }
  }

  lemma {:induction false} FactorCost(P: seq<Token>, u: nat, c: nat)
    ensures CostsOk(P, c, ParseFactor(P, u, c), FACTOR_LEVEL)
    decreases Unread(P, c), 10
  {
    hide Costs, ParseFunction, ParseUnary, ParseParenthesized, ParseBlock, ParseIf, ParseWhile, ParseVar, IdentifierNode;
    if c < |P| {
      match P[c].kind
      case IdentifierKind =>
        LeafCost(P, u, c, OpAfter(P, u, c));
        FunctionCost(P, u, c);
      case IntegerKind => LeafCost(P, u, c, OpAfter(P, u, c));
      case OperatorKind => UnaryCost(P, u, c);
      case PunctuationKind =>
        ParenthesizedCost(P, u, c);
        BlockCost(P, u, c);
      case KeywordKind =>
        IfCost(P, u, c);
        WhileCost(P, u, c);
        VarCost(P, u, c);
      case UnitKind =>
    }
  }

  lemma LeafCost(P: seq<Token>, u: nat, c: nat, guarded: bool)
    requires c < |P| && (P[c].kind == IdentifierKind || P[c].kind == IntegerKind)
    ensures Costs(P, c, c, IdentifierNode(P[c].data), FACTOR_LEVEL, guarded)
    ensures Costs(P, c, c, Literal(P[c].data, TError), FACTOR_LEVEL, guarded)
  {
    hide Reached, Full, Solid;
    LeafFull(IdentifierNode(P[c].data), guarded);
    LeafFull(Literal(P[c].data, TError), guarded);
    ReachedHere(P, c, c, 1);
  }

  lemma LeafFull(a: Ast, guarded: bool)
    requires a.Literal? || a.Identifier?
    ensures Full(a, FACTOR_LEVEL, guarded) == Solid(a, FACTOR_LEVEL, guarded) == 1
  {
  }

  /** A node whose last part ends where it ends. */
  lemma LastPart(P: seq<Token>, c: nat, d: nat, q: nat, x: Ast, a: Ast, level: nat, guarded: bool, level': nat, guarded': bool)
    requires Costs(P, d, q, x, level, guarded) && c <= d && !a.UnitNode?
    requires Full(a, level', guarded') <= Full(x, level, guarded) + (d - c)
    requires Solid(a, level', guarded') <= Solid(x, level, guarded) + (d - c)
    ensures Costs(P, c, q, a, level', guarded')
  {
    hide Full, Solid, Reached;
    ReachedFrom(P, c, d, q, q, Solid(x, level, guarded), Solid(a, level', guarded'));
  }

  lemma {:induction false} UnaryCost(P: seq<Token>, u: nat, c: nat)
    requires c < |P|
    ensures CostsOk(P, c, ParseUnary(P, u, c), FACTOR_LEVEL)
    decreases Unread(P, c), 5
  {
    hide ParseFactor, Costs;
    var x := ParseFactor(P, u, c + 1);
    FactorCost(P, u, c + 1);
    if x.Ok? {
      var after := OpAfter(P, x.units, x.cursor);
      LastPart(P, c, c + 1, x.cursor, x.a, Unary(P[c].data, x.a, TError), FACTOR_LEVEL, after, FACTOR_LEVEL, after);
    }
  }

  lemma {:induction false} ParenthesizedCost(P: seq<Token>, u: nat, c: nat)
    requires c < |P|
    ensures CostsOk(P, c, ParseParenthesized(P, u, c), FACTOR_LEVEL)
    decreases Unread(P, c), 5
  {
    hide ParseBinary, Full, Solid, Reached;
    BinaryCost(P, u, c + 1, 0);
    var x, r := ParseBinary(P, u, c + 1, 0), ParseParenthesized(P, u, c);
    if r.Ok? {
      var after := OpAfter(P, r.units, r.cursor);
      CostsLooser(P, c + 1, x.cursor, x.a, 0, 0, false, OpAfter(P, x.units, x.cursor));
      PairIsEnough(x.a, FACTOR_LEVEL, after);
      ReachedFrom(P, c, c + 1, x.cursor, r.cursor, Solid(x.a, 0, false), Solid(x.a, FACTOR_LEVEL, after));
    }
  }

  lemma {:induction false} IfCost(P: seq<Token>, u: nat, c: nat)
    requires c < |P|
    ensures CostsOk(P, c, ParseIf(P, u, c), FACTOR_LEVEL)
    decreases Unread(P, c), 5
  {
    hide ParseExpression, ParseElse, Full, Solid, Reached;
    ExpressionCost(P, u, c + 1);
    var x := ParseExpression(P, u, c + 1);
    if x.Ok? && At(P, x.units, x.cursor + 1) == Some(Keyword("then")) {
      ExpressionCost(P, x.units, x.cursor + 2);
      var y := ParseExpression(P, x.units, x.cursor + 2);
      if y.Ok? {
        ElseCost(P, y.units, c, x.cursor, y.cursor, x.a, y.a);
      }
    }
  }

  lemma {:induction false} ElseCost(P: seq<Token>, u: nat, c: nat, q: nat, e: nat, cond: Ast, thn: Ast)
    requires c < q && q + 1 < |P| && q + 2 <= e && Costs(P, c + 1, q, cond, 0, false) && Costs(P, q + 2, e, thn, 0, false)
    ensures CostsOk(P, c, ParseElse(P, u, e, cond, thn), FACTOR_LEVEL)
    decreases Unread(P, e), 4
  {
    hide ParseExpression, Reached, Full, Solid;
    var r := ParseElse(P, u, e, cond, thn);
    if r.Ok? {
      var after := OpAfter(P, r.units, r.cursor);
      if r.a.IfThen? {
        IfThenFull(r.a, after);
        ReachedFrom(P, c, q + 2, e, r.cursor, Solid(thn, 0, false), Solid(r.a, FACTOR_LEVEL, after));
      } else {
        ExpressionCost(P, u, e + 2);
        IfElseFull(r.a);
        ReachedFrom(P, c, e + 2, r.cursor, r.cursor, Solid(r.a.els, 0, false), Solid(r.a, FACTOR_LEVEL, false));
      }
    }
  }

  lemma IfThenFull(a: Ast, guarded: bool)
    requires a.IfThen?
    ensures Full(a, FACTOR_LEVEL, guarded) == 3 + Full(a.cond, 0, false) + Full(a.thn, 0, false)
    ensures Solid(a, FACTOR_LEVEL, guarded) == 2 + Full(a.cond, 0, false) + Solid(a.thn, 0, false)
  {
  }

  lemma IfElseFull(a: Ast)
    requires a.IfElse?
    ensures Full(a, FACTOR_LEVEL, false) == 3 + Full(a.cond, 0, false) + Full(a.thn, 0, false) + Full(a.els, 0, false)
    ensures Solid(a, FACTOR_LEVEL, false) == 3 + Full(a.cond, 0, false) + Full(a.thn, 0, false) + Solid(a.els, 0, false)
  {
  }

  lemma {:induction false} WhileCost(P: seq<Token>, u: nat, c: nat)
    requires c < |P|
    ensures CostsOk(P, c, ParseWhile(P, u, c), FACTOR_LEVEL)
    decreases Unread(P, c), 5
  {
    hide ParseExpression, Reached, Full, Solid;
    ExpressionCost(P, u, c + 1);
    var x := ParseExpression(P, u, c + 1);
    if x.Ok? && At(P, x.units, x.cursor + 1) == Some(Keyword("do")) {
      ExpressionCost(P, x.units, x.cursor + 2);
      var r := ParseWhile(P, u, c);
      if r.Ok? {
        WhileFull(r.a);
        ReachedFrom(P, c, x.cursor + 2, r.cursor, r.cursor, Solid(r.a.body, 0, false), Solid(r.a, FACTOR_LEVEL, false));
      }
    }
  }

  lemma WhileFull(a: Ast)
    requires a.While?
    ensures Full(a, FACTOR_LEVEL, false) == 2 + Full(a.cond, 0, false) + Full(a.body, 0, false)
    ensures Solid(a, FACTOR_LEVEL, false) == 2 + Full(a.cond, 0, false) + Solid(a.body, 0, false)
  {
  }

  lemma {:induction false} VarCost(P: seq<Token>, u: nat, c: nat)
    requires c < |P|
    ensures CostsOk(P, c, ParseVar(P, u, c), FACTOR_LEVEL)
    decreases Unread(P, c), 5
  {
    hide ParseExpression, Reached, Full, Solid;
    ExpressionCost(P, u, c + 3);
    ExpressionCost(P, u, c + 5);
    var r := ParseVar(P, u, c);
    if r.Ok? {
      VarFull(r.a);
      var d := if At(P, u, c + 2).value.data == ":" then c + 5 else c + 3;
      ReachedFrom(P, c, d, r.cursor, r.cursor, Solid(r.a.init, 0, false), Solid(r.a, FACTOR_LEVEL, false));
    }
  }

  lemma VarFull(a: Ast)
    requires a.VarExpr?
    ensures Full(a, FACTOR_LEVEL, false) == (if a.decl == "" then 3 else 5) + Full(a.init, 0, false)
    ensures Solid(a, FACTOR_LEVEL, false) == (if a.decl == "" then 3 else 5) + Solid(a.init, 0, false)
  {
  }

  lemma {:induction false} BlockCost(P: seq<Token>, u: nat, c: nat)
    requires c < |P|
    ensures CostsOk(P, c, ParseBlock(P, u, c), FACTOR_LEVEL)
    decreases Unread(P, c), 5
  {
    hide ParseStatements, Reached, FullStatements;
    StatementsCost(P, u, c);
    var r := ParseStatements(P, u, c);
    if r.OkList? && |r.es| <= MAX_EDGES {
      BlockFull(Block(r.es, TError), OpAfter(P, r.units, r.cursor));
      ReachedHere(P, c, r.cursor, 1 + FullStatements(r.es));
    }
  }

  lemma BlockFull(a: Ast, guarded: bool)
    requires a.Block?
    ensures Full(a, FACTOR_LEVEL, guarded) == Solid(a, FACTOR_LEVEL, guarded) == 1 + FullStatements(a.stmts)
  {
  }

  lemma {:induction false} StatementsCost(P: seq<Token>, u: nat, c: nat)
    requires c < |P|
    ensures var r := ParseStatements(P, u, c);
            r.OkList? ==> && c < r.cursor < |P| && P[r.cursor] == Punct("}") && r.cursor - c >= FullStatements(r.es)
                          && r.es != [] && !r.es[0].UnitNode?
    decreases Unread(P, c), 4
  {
    hide ParseExpression, ParseStatements, Full, Solid, Reached;
    StatementsUnfold(P, u, c);
    ExpressionCost(P, u, c + 1);
    var e := ParseExpression(P, u, c + 1);
    if e.Ok? {
      assert [e.a, UnitNode][1..] == [UnitNode];
      if At(P, e.units, e.cursor + 1) == Some(Punct(";")) {
        StatementsCost(P, e.units, e.cursor + 1);
        var rest := ParseStatements(P, e.units, e.cursor + 1);
        if rest.OkList? {
          assert ([e.a] + rest.es)[1..] == rest.es;
        }
      }
    }
  }

  lemma {:induction false} FunctionCost(P: seq<Token>, u: nat, c: nat)
    requires c < |P|
    ensures At(P, u, c + 1) == Some(Punct("(")) ==> CostsOk(P, c, ParseFunction(P, u, c), FACTOR_LEVEL)
    decreases Unread(P, c), 5
  {
    hide ParseArgs, Reached, FullArgs, SolidArgs;
    ArgsCost(P, u, c + 2);
    var r := ParseArgs(P, u, c + 2);
    if r.OkList? && |r.es| <= MAX_EDGES && At(P, u, c + 1) == Some(Punct("(")) {
      CallFull(Call(P[c].data, r.es, TError), OpAfter(P, r.units, r.cursor));
      if r.es == [] {
        NoArgsCost();
        ReachedHere(P, c, c + 1, 2);
        ReachedFrom(P, c, c, c + 1, r.cursor, 2, 2);
      } else {
        ReachedFrom(P, c, c + 2, r.cursor, r.cursor, SolidArgs(r.es), 2 + SolidArgs(r.es));
      }
    }
  }

  lemma CallFull(a: Ast, guarded: bool)
    requires a.Call?
    ensures Full(a, FACTOR_LEVEL, guarded) == 2 + FullArgs(a.args) && Solid(a, FACTOR_LEVEL, guarded) == 2 + SolidArgs(a.args)
  {
  }

  lemma NoArgsCost()
    ensures FullArgs([]) == 1 && SolidArgs([]) == 0
  {
  }

  lemma {:induction false} ArgsCost(P: seq<Token>, u: nat, c: nat)
    ensures var r := ParseArgs(P, u, c);
            r.OkList? ==> && c <= r.cursor < |P| && r.cursor - c + 1 >= FullArgs(r.es)
                          && (r.es != [] ==> Reached(P, c, r.cursor, SolidArgs(r.es)))
    decreases Unread(P, c), 40
  {
    hide ParseExpression, ParseArgs, Full, Solid, Reached;
    ArgsUnfold(P, u, c);
    ExpressionCost(P, u, c);
    var x := ParseExpression(P, u, c);
    if x.Ok? {
      var s := SkipToSeparator(P, x.cursor + 1);
      if s.Some? {
        ReachedFrom(P, c, c, x.cursor, s.value, Solid(x.a, 0, false), Solid(x.a, 0, false));
        ArgsCost(P, x.units, s.value + 1);
        var rest := ParseArgs(P, x.units, s.value + 1);
        if rest.OkList? {
          assert ([x.a] + rest.es)[1..] == rest.es;
          if rest.es != [] {
            ReachedFrom(P, c, s.value + 1, rest.cursor, rest.cursor, SolidArgs(rest.es), Full(x.a, 0, false) + 1 + SolidArgs(rest.es));
          } else {
            ReachedFrom(P, c, c, x.cursor, rest.cursor, Solid(x.a, 0, false), Solid(x.a, 0, false));
          }
        }
      }
    }
  }
}
