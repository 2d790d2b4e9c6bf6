/**
 Reading programs written with nothing behind an `if` without `else` (parser.c:439-472).  Such an `if` swallows the
 token behind it; only where nothing but closing parentheses follows can the tree come back.  There the parser steps
 over one parenthesis for each of these ifs: those missing in the end it forgives for a parenthesised expression, if no
 UNIT token was appended, and never for a call.
*/
module NaturalText {
  import opened Syntax
  import opened Ir
  import opened Tokens
  import opened ParserSpec
  import opened Printer
  import opened ParserInverse
  import opened ParserCost

  /** The ifs without `else` that end where the tree ends, closing parentheses aside. */
  function EdgeIfs(a: Ast): nat
    decreases a
  {
    match a
    case Unary(_, arg, _) => EdgeIfs(arg)
    case Binary(_, _, right, _) => EdgeIfs(right)
    case Call(_, args, _) => if args == [] then 0 else EdgeIfs(args[|args| - 1])
    case IfThen(_, thn, _) => 1 + EdgeIfs(thn)
    case IfElse(_, _, els, _) => EdgeIfs(els)
    case While(_, body, _) => EdgeIfs(body)
    case VarExpr(_, init, _, _) => EdgeIfs(init)
    case _ => 0
  }

  /** Every `if` without `else` is on the right edge. */
  predicate OnEdge(a: Ast) {
    Opens(a) == EdgeIfs(a)
  }

  /** The closing parentheses the text ends in. */
  function Closing(a: Ast, level: nat, guarded: bool): nat
    decreases a, 1
  {
    if NeedsParens(a, level, guarded) then 1 + ClosingBare(a, false) else ClosingBare(a, guarded)
  }

  function ClosingBare(a: Ast, guarded: bool): nat
    decreases a, 0
  {
    match a
    case Unary(_, arg, _) => Closing(arg, FACTOR_LEVEL, guarded)
    case Binary(op, _, right, _) => Closing(right, LevelOf(op) + 1, guarded)
    case Call(_, args, _) => 1 + if args == [] then 0 else Closing(args[|args| - 1], 0, false)
    case IfThen(_, thn, _) => Closing(thn, 0, false)
    case IfElse(_, _, els, _) => Closing(els, 0, false)
    case While(_, body, _) => Closing(body, 0, false)
    case VarExpr(_, init, _, _) => Closing(init, 0, false)
    case _ => 0
  }

  /**
   The closing parentheses stepped over can be done without: those behind it (room) make up for the ifs within a call,
   and within parentheses too when UNIT tokens were appended.
  */
  predicate Settles(a: Ast, level: nat, room: nat, units: bool)
    decreases a, 1
  {
    if NeedsParens(a, level, false) then (units ==> EdgeIfs(a) <= room) && SettlesBare(a, room + 1, units)
    else SettlesBare(a, room, units)
  }

  predicate SettlesBare(a: Ast, room: nat, units: bool)
    decreases a, 0
  {
    match a
    case Unary(_, arg, _) => Settles(arg, FACTOR_LEVEL, room, units)
    case Binary(op, _, right, _) => Settles(right, LevelOf(op) + 1, room, units)
    case Call(_, args, _) => args == [] || LastSettles(args[|args| - 1], room, units)
    case IfThen(_, thn, _) => Settles(thn, 0, room, units)
    case IfElse(_, _, els, _) => Settles(els, 0, room, units)
    case While(_, body, _) => Settles(body, 0, room, units)
    case VarExpr(_, init, _, _) => Settles(init, 0, room, units)
    case _ => true
  }

  /** The last argument of a call. */
  predicate LastSettles(a: Ast, room: nat, units: bool)
    decreases a, 2
  {
    EdgeIfs(a) <= room && Settles(a, 0, room + 1, units)
  }

  lemma {:induction false} OpensAtLeast(a: Ast)
    ensures Opens(a) >= EdgeIfs(a)
    decreases a
  {
    match a
    case Unary(_, arg, _) => OpensAtLeast(arg);
    case Binary(_, _, right, _) => OpensAtLeast(right);
    case Call(_, args, _) =>
      if args != [] {
        OpensAtLeast(args[|args| - 1]);
        OpensOfLast(args);
      }
    case IfThen(_, thn, _) => OpensAtLeast(thn);
    case IfElse(_, _, els, _) => OpensAtLeast(els);
    case While(_, body, _) => OpensAtLeast(body);
    case VarExpr(_, init, _, _) => OpensAtLeast(init);
    case _ =>
  }

  lemma {:induction false} OpensOfLast(es: seq<Ast>)
    requires es != []
    ensures OpensIn(es) >= Opens(es[|es| - 1])
  {
    if |es| > 1 {
      OpensOfLast(es[1..]);
    }
  }

  lemma {:induction false} ClosedIff(a: Ast)
    ensures EveryIfHasElse(a) <==> Opens(a) == 0
    decreases a
  {
    match a
    case Unary(_, arg, _) => ClosedIff(arg);
    case Binary(_, left, right, _) =>
      ClosedIff(left);
      ClosedIff(right);
    case Call(_, args, _) => ClosedInIff(args);
    case Block(stmts, _) => ClosedInIff(stmts);
    case IfElse(cond, thn, els, _) =>
      ClosedIff(cond);
      ClosedIff(thn);
      ClosedIff(els);
    case While(cond, body, _) =>
      ClosedIff(cond);
      ClosedIff(body);
    case VarExpr(_, init, _, _) => ClosedIff(init);
    case _ =>
  }

  lemma {:induction false} ClosedInIff(es: seq<Ast>)
    ensures EveryIfHasElseIn(es) <==> OpensIn(es) == 0
    decreases es
  {
    if es != [] {
      ClosedIff(es[0]);
      ClosedInIff(es[1..]);
    }
  }

  /** The text is as long as the cost, but for the tokens swallowed. */
  lemma {:induction false} LengthIs(a: Ast, level: nat, guarded: bool)
    ensures |Print(a, level, guarded, NATURAL)| + Opens(a) == Full(a, level, guarded)
    decreases a, 1
  {
    hide Bare, FullBare, OpLevel;
    var k := Pairs(a, level, guarded, NATURAL);
    BareLengthIs(a, guarded && k == 0);
    WrapLength(k, Bare(a, guarded && k == 0, [], false));
  }

  lemma {:induction false} BareLengthIs(a: Ast, guarded: bool)
    ensures |Bare(a, guarded, [], false)| + Opens(a) == FullBare(a, guarded)
    decreases a, 0
  {
    hide Print, Full, OpLevel;
    match a
    case Unary(_, arg, _) => LengthIs(arg, FACTOR_LEVEL, guarded);
    case Binary(op, left, right, _) =>
      LengthIs(left, LevelOf(op), true);
      LengthIs(right, LevelOf(op) + 1, guarded);
    case Call(_, args, _) => ArgsLengthIs(args, 0);
    case Block(stmts, _) => StatementsLengthIs(stmts, 0);
    case IfThen(cond, thn, _) =>
      LengthIs(cond, 0, false);
      LengthIs(thn, 0, false);
    case IfElse(cond, thn, els, _) =>
      LengthIs(cond, 0, false);
      LengthIs(thn, 0, false);
      LengthIs(els, 0, false);
    case While(cond, body, _) =>
      LengthIs(cond, 0, false);
      LengthIs(body, 0, false);
    case VarExpr(_, init, _, _) => LengthIs(init, 0, false);
    case _ =>
  }

  lemma {:induction false} ArgsLengthIs(es: seq<Ast>, i: nat)
    ensures |PrintArgs(es, [], i, false)| + OpensIn(es) == FullArgs(es)
    decreases es
  {
    hide Print, Full, Opens;
    if es != [] {
      LengthIs(es[0], 0, false);
      ArgsLengthIs(es[1..], i + 1);
      assert |es| == 1 ==> OpensIn(es[1..]) == 0;
    }
  }

  lemma {:induction false} StatementsLengthIs(es: seq<Ast>, i: nat)
    ensures |PrintStatements(es, [], i, false)| + OpensIn(es) == FullStatements(es)
    decreases es
  {
    hide Print, Full;
    if es != [] {
      LengthIs(es[0], 0, false);
      StatementsLengthIs(es[1..], i + 1);
      assert |es| == 1 ==> OpensIn(es[1..]) == 0;
    }
  }

  /** Behind the last solid token there are the closing parentheses and the tokens the last ifs swallow. */
  lemma {:induction false} SolidIs(a: Ast, level: nat, guarded: bool)
    ensures Solid(a, level, guarded) + Closing(a, level, guarded) + EdgeIfs(a) == Full(a, level, guarded)
    decreases a, 1
  {
    hide OpLevel;
    BareSolidIs(a, guarded && !NeedsParens(a, level, guarded));
  }

  lemma {:induction false} BareSolidIs(a: Ast, guarded: bool)
    ensures SolidBare(a, guarded) + ClosingBare(a, guarded) + EdgeIfs(a) == FullBare(a, guarded)
    decreases a, 0
  {
    hide Full, Solid, Closing, OpLevel;
    match a
    case Unary(_, arg, _) => SolidIs(arg, FACTOR_LEVEL, guarded);
    case Binary(op, _, right, _) => SolidIs(right, LevelOf(op) + 1, guarded);
    case Call(_, args, _) =>
      if args != [] {
        ArgsSolidIs(args);
      }
    case IfThen(_, thn, _) => SolidIs(thn, 0, false);
    case IfElse(_, _, els, _) => SolidIs(els, 0, false);
    case While(_, body, _) => SolidIs(body, 0, false);
    case VarExpr(_, init, _, _) => SolidIs(init, 0, false);
    case _ =>
  }

  lemma {:induction false} ArgsSolidIs(es: seq<Ast>)
    requires es != []
    ensures var last := es[|es| - 1]; SolidArgs(es) + Closing(last, 0, false) + EdgeIfs(last) + 1 == FullArgs(es)
    decreases es, 2
  {
    hide Full, Solid, Closing, EdgeIfs;
    if |es| == 1 {
      SolidIs(es[0], 0, false);
    } else {
      ArgsSolidIs(es[1..]);
    }
  }

  /** A text that ends in n closing parentheses. */
  predicate Ends(ts: seq<Token>, n: nat) {
    n <= |ts| && forall i :: |ts| - n <= i < |ts| ==> ts[i] == Punct(")")
  }

  lemma EndsAfter(s: seq<Token>, t: seq<Token>, n: nat)
    requires Ends(t, n)
    ensures Ends(s + t, n)
  {
  }

  lemma EndsOneMore(s: seq<Token>, n: nat)
    requires Ends(s, n)
    ensures Ends(s + [Punct(")")], n + 1)
  {
  }

  lemma {:induction false} PrintEnds(a: Ast, level: nat, guarded: bool)
    ensures Ends(Print(a, level, guarded, NATURAL), Closing(a, level, guarded))
    decreases a, 1
  {
    hide Bare, ClosingBare, Ends, OpLevel;
    if NeedsParens(a, level, guarded) {
      var ts := Bare(a, false, [], false);
      BareEnds(a, false);
      EndsAfter([Punct("(")], ts, ClosingBare(a, false));
      EndsOneMore([Punct("(")] + ts, ClosingBare(a, false));
      assert Wrap(0, ts) == ts;
    } else {
      BareEnds(a, guarded);
    }
  }

  lemma {:induction false} BareEnds(a: Ast, guarded: bool)
    ensures Ends(Bare(a, guarded, [], false), ClosingBare(a, guarded))
    decreases a, 0, 1
  {
    hide Print, Closing, OpLevel, Ends, PrintArgs;
    var ts := Bare(a, guarded, [], false);
    match a
    case Unary(op, arg, _) =>
      PrintEnds(arg, FACTOR_LEVEL, guarded);
      EndsAfter([Op(op)], Print(arg, FACTOR_LEVEL, guarded, NATURAL), ClosingBare(a, guarded));
    case Binary(op, left, right, _) =>
      PrintEnds(right, LevelOf(op) + 1, guarded);
      EndsAfter(Print(left, LevelOf(op), true, NATURAL) + [Op(op)], Print(right, LevelOf(op) + 1, guarded, NATURAL),
                ClosingBare(a, guarded));
    case Call(callee, args, _) =>
      ArgsEnd(args, 0);
      EndsAfter([Ident(callee), Punct("(")], PrintArgs(args, [], 0, false), ClosingBare(a, guarded));
    case IfThen(_, _, _) => IfThenEnds(a, guarded);
    case IfElse(_, _, _, _) => IfElseEnds(a, guarded);
    case While(_, _, _) => WhileEnds(a, guarded);
    case VarExpr(_, _, _, _) => VarEnds(a, guarded);
    case _ => EndsNone(ts);
  }

  lemma EndsNone(ts: seq<Token>)
    ensures Ends(ts, 0)
  {
  }

  lemma {:induction false} IfThenEnds(a: Ast, guarded: bool)
    requires a.IfThen?
    ensures Ends(Bare(a, guarded, [], false), ClosingBare(a, guarded))
    decreases a, 0, 0
  {
    hide Print, Closing, Ends;
    var x, y := Print(a.cond, 0, false, NATURAL), Print(a.thn, 0, false, NATURAL);
    PrintEnds(a.thn, 0, false);
    assert Bare(a, guarded, [], false) == [Keyword("if")] + x + [Keyword("then")] + y;
    EndsAfter([Keyword("if")] + x + [Keyword("then")], y, ClosingBare(a, guarded));
  }

  lemma {:induction false} IfElseEnds(a: Ast, guarded: bool)
    requires a.IfElse?
    ensures Ends(Bare(a, guarded, [], false), ClosingBare(a, guarded))
    decreases a, 0, 0
  {
    hide Print, Closing, Ends;
    var x, y, z := Print(a.cond, 0, false, NATURAL), Print(a.thn, 0, false, NATURAL), Print(a.els, 0, false, NATURAL);
    PrintEnds(a.els, 0, false);
    assert Bare(a, guarded, [], false) == [Keyword("if")] + x + [Keyword("then")] + y + [Keyword("else")] + z;
    EndsAfter([Keyword("if")] + x + [Keyword("then")] + y + [Keyword("else")], z, ClosingBare(a, guarded));
  }

  lemma {:induction false} WhileEnds(a: Ast, guarded: bool)
    requires a.While?
    ensures Ends(Bare(a, guarded, [], false), ClosingBare(a, guarded))
    decreases a, 0, 0
  {
    hide Print, Closing, Ends;
    var x, y := Print(a.cond, 0, false, NATURAL), Print(a.body, 0, false, NATURAL);
    PrintEnds(a.body, 0, false);
    assert Bare(a, guarded, [], false) == [Keyword("while")] + x + [Keyword("do")] + y;
    EndsAfter([Keyword("while")] + x + [Keyword("do")], y, ClosingBare(a, guarded));
  }

  lemma {:induction false} VarEnds(a: Ast, guarded: bool)
    requires a.VarExpr?
    ensures Ends(Bare(a, guarded, [], false), ClosingBare(a, guarded))
    decreases a, 0, 0
  {
    hide Print, Closing, Ends;
    var x, d := Print(a.init, 0, false, NATURAL), TypeDecl(a.decl);
    PrintEnds(a.init, 0, false);
    assert Bare(a, guarded, [], false) == [Keyword("var")] + [Ident(a.name)] + d + [Op("=")] + x;
    EndsAfter([Keyword("var")] + [Ident(a.name)] + d + [Op("=")], x, ClosingBare(a, guarded));
  }

  lemma {:induction false} ArgsEnd(es: seq<Ast>, i: nat)
    ensures Ends(PrintArgs(es, [], i, false), 1 + if es == [] then 0 else Closing(es[|es| - 1], 0, false))
    decreases es, 2
  {
    hide Print, Closing;
    if |es| == 1 {
      PrintEnds(es[0], 0, false);
    } else if es != [] {
      ArgsEnd(es[1..], i + 1);
    }
  }

  /** A tree read from its text has its ifs on the edge: for the others there are not tokens enough. */
  lemma OffEdgeLost(a: Ast)
    requires var ts := Print(a, 0, false, NATURAL); ParseProgram(ts).Ok? && ParseProgram(ts).a == a
    ensures OnEdge(a)
  {
    hide Print, ParseExpression, Solid, Full, Closing, Opens, EdgeIfs, Ends;
    var P := Print(a, 0, false, NATURAL);
    ExpressionCost(P, 0, 0);
    LengthIs(a, 0, false);
    SolidIs(a, 0, false);
    PrintEnds(a, 0, false);
    BeforeClosing(P, ParseProgram(P).cursor, Solid(a, 0, false), Closing(a, 0, false));
    OpensAtLeast(a);
  }

  lemma BeforeClosing(P: seq<Token>, q: nat, n: nat, k: nat)
    requires Reached(P, 0, q, n) && Ends(P, k)
    ensures n + k <= |P|
  {
    var p :| 0 <= p <= q && p < |P| && P[p] != Punct(")") && p - 0 + 1 >= n;
  }

  /** Only closing parentheses from e on. */
  predicate Tail(P: seq<Token>, e: nat) {
    1 <= e <= |P| && forall i :: e <= i < |P| ==> P[i] == Punct(")")
  }

  /** Where the cursor is after a text that ends before e and n more tokens, if there are so many. */
  function EndAt(P: seq<Token>, v: nat, e: nat, n: nat): nat
    requires 1 <= e <= |P|
  {
    if e - 1 + n < |P| + v then e - 1 + n else |P| + v - 1
  }

  function EdgeResult(P: seq<Token>, u: nat, a: Ast, e: nat, ok: bool): Parse
    requires 1 <= e <= |P|
  {
    if ok then Ok(a, EndAt(P, u + Units(a), e, EdgeIfs(a)), u + Units(a)) else Fail
  }

  lemma TailFollows(P: seq<Token>, e: nat, level: nat, guarded: bool)
    requires Tail(P, e)
    ensures Follow(P, e, level, guarded)
  {
  }

  lemma {:induction false} SettlesClosed(a: Ast, level: nat, room: nat, units: bool)
    requires EdgeIfs(a) == 0
    ensures Settles(a, level, room, units) && SettlesBare(a, room, units)
    decreases a
  {
    match a
    case Unary(_, arg, _) =>
      SettlesClosed(arg, FACTOR_LEVEL, room, units);
      SettlesClosed(arg, FACTOR_LEVEL, room + 1, units);
    case Binary(op, _, right, _) =>
      SettlesClosed(right, LevelOf(op) + 1, room, units);
      SettlesClosed(right, LevelOf(op) + 1, room + 1, units);
    case Call(_, args, _) =>
      if args != [] {
        SettlesClosed(args[|args| - 1], 0, room + 1, units);
        SettlesClosed(args[|args| - 1], 0, room + 2, units);
      }
    case IfElse(_, _, els, _) =>
      SettlesClosed(els, 0, room, units);
      SettlesClosed(els, 0, room + 1, units);
    case While(_, body, _) =>
      SettlesClosed(body, 0, room, units);
      SettlesClosed(body, 0, room + 1, units);
    case VarExpr(_, init, _, _) =>
      SettlesClosed(init, 0, room, units);
      SettlesClosed(init, 0, room + 1, units);
    case _ =>
  }

  /** What a factor gives is what every level gives, if no operator follows. */
  lemma {:induction false} UpStops(P: seq<Token>, u: nat, c: nat, level: nat)
    requires level <= LAST_LEVEL
    requires var r := ParseFactor(P, u, c); r.Ok? && r.cursor + 1 < |P| ==> P[r.cursor + 1].kind != OperatorKind
    ensures ParseBinary(P, u, c, level) == ParseFactor(P, u, c)
    decreases LAST_LEVEL - level
  {
    hide ParseFactor, ParseRest;
    var r := ParseFactor(P, u, c);
    if level < LAST_LEVEL {
      UpStops(P, u, c, level + 1);
    }
    if r.Ok? {
      RestStops(P, r.units, r.cursor, level, r.a);
    }
  }

  lemma EdgeNext(P: seq<Token>, v: nat, e: nat, n: nat)
    requires Tail(P, e)
    ensures 1 <= e <= |P|
    ensures var q := EndAt(P, v, e, n); q + 1 < |P| ==> P[q + 1] == Punct(")")
  {
  }

  /** A text with only closing parentheses behind it, for an operand of this level. */
  lemma {:induction false} EdgeLevel(P: seq<Token>, u: nat, c: nat, a: Ast, level: nat, e: nat)
    requires level <= LAST_LEVEL && Parseable(a) && !a.UnitNode? && OnEdge(a)
    requires Has(P, c, Print(a, level, false, NATURAL)) && e == c + |Print(a, level, false, NATURAL)| && Tail(P, e)
    ensures ParseBinary(P, u, c, level) == EdgeResult(P, u, a, e, Settles(a, level, |P| - e, u + Units(a) > 0))
    decreases a, if NeedsParens(a, level, false) then 2 else 1, LAST_LEVEL - level
  {
    hide ParseFactor, ParseBinary, ParseRest, Print, Bare, Parseable, Has, Settles, SettlesBare, Opens, EdgeIfs, OpLevel, Units, Tail, Follow;
    var v, n := u + Units(a), EdgeIfs(a);
    EdgeNext(P, v, e, n);
    if n == 0 {
      EdgeClosed(P, u, c, a, level, e);
    } else if NeedsParens(a, level, false) {
      ParenForm(a, level);
      EdgeParens(P, u, c, a, level, e);
      UpStops(P, u, c, level);
    } else {
      BareForm(a, level);
      if !a.Binary? {
        EdgeFactor(P, u, c, a, e);
        UpStops(P, u, c, level);
      } else {
        BinaryLevel(a, level);
        if OpLevel(a.op) == Some(level) {
          EdgeBinary(P, u, c, a, level, e);
        } else {
          BareForm(a, level + 1);
          EdgeLevel(P, u, c, a, level + 1, e);
          EdgeUp(P, u, c, level);
        }
      }
    }
  }

  lemma BinaryLevel(a: Ast, level: nat)
    requires Parseable(a) && a.Binary? && !NeedsParens(a, level, false)
    ensures OpLevel(a.op).Some? && level <= OpLevel(a.op).value <= LAST_LEVEL
    ensures OpLevel(a.op) == Some(level) || !NeedsParens(a, level + 1, false)
  {
  }

  lemma ParenForm(a: Ast, level: nat)
    requires NeedsParens(a, level, false)
    ensures Print(a, level, false, NATURAL) == Wrap(1, Bare(a, false, [], false))
    ensures forall room: nat, units: bool ::
              Settles(a, level, room, units) == ((units ==> EdgeIfs(a) <= room) && SettlesBare(a, room + 1, units))
  {
    hide SettlesBare, EdgeIfs;
  }

  lemma BareForm(a: Ast, level: nat)
    requires !NeedsParens(a, level, false)
    ensures Print(a, level, false, NATURAL) == Bare(a, false, [], false)
    ensures forall room: nat, units: bool :: Settles(a, level, room, units) == SettlesBare(a, room, units)
  {
    hide SettlesBare;
  }

  /** From one level to the next looser one. */
  lemma EdgeUp(P: seq<Token>, u: nat, c: nat, level: nat)
    requires level < LAST_LEVEL
    requires var r := ParseBinary(P, u, c, level + 1); r.Ok? && r.cursor + 1 < |P| ==> P[r.cursor + 1] == Punct(")")
    ensures ParseBinary(P, u, c, level) == ParseBinary(P, u, c, level + 1)
  {
    hide ParseRest;
    var r := ParseBinary(P, u, c, level + 1);
    if r.Ok? {
      RestStops(P, r.units, r.cursor, level, r.a);
    }
  }

  /** Without such an `if` the text is read as anywhere. */
  lemma EdgeClosed(P: seq<Token>, u: nat, c: nat, a: Ast, level: nat, e: nat)
    requires level <= LAST_LEVEL && Parseable(a) && !a.UnitNode? && OnEdge(a) && EdgeIfs(a) == 0
    requires Has(P, c, Print(a, level, false, NATURAL)) && e == c + |Print(a, level, false, NATURAL)| && Tail(P, e)
    ensures ParseBinary(P, u, c, level) == EdgeResult(P, u, a, e, Settles(a, level, |P| - e, u + Units(a) > 0))
  {
    hide ParseBinary, ParseRest, Print, Parseable, Has, Settles, Opens, EdgeIfs, Follow, EveryIfHasElse;
    ClosedIff(a);
    TailFollows(P, e, level, false);
    Chain(P, u, c, a, level, false, NATURAL);
    RestStops(P, u + Units(a), e - 1, level, a);
    SettlesClosed(a, level, |P| - e, u + Units(a) > 0);
  }

  /** In parentheses. */
  lemma {:induction false} EdgeParens(P: seq<Token>, u: nat, c: nat, a: Ast, level: nat, e: nat)
    requires NeedsParens(a, level, false) && Parseable(a) && !a.UnitNode? && OnEdge(a)
    requires Has(P, c, Wrap(1, Bare(a, false, [], false))) && e == c + |Wrap(1, Bare(a, false, [], false))| && Tail(P, e)
    ensures ParseFactor(P, u, c) == EdgeResult(P, u, a, e, Settles(a, level, |P| - e, u + Units(a) > 0))
    decreases a, 1, 100
  {
    hide ParseBinary, Bare, Print, Parseable, Has, Settles, SettlesBare, Opens, EdgeIfs, Units, Wrap, OpLevel, Follow;
    var ts := Bare(a, false, [], false);
    BareNonEmpty(a, false, [], false);
    ParensLayout(P, c, 1, ts);
    WrapNone(ts);
    assert !NeedsParens(a, 0, false);
    BareForm(a, 0);
    ParenForm(a, level);
    EdgeLevel(P, u, c + 1, a, 0, e - 1);
    CloseStep(P, u, c, a, e, u + Units(a), EdgeIfs(a), SettlesBare(a, |P| - e + 1, u + Units(a) > 0));
  }

  /** The closing parenthesis of an expression after which n have been stepped over. */
  lemma CloseStep(P: seq<Token>, u: nat, c: nat, a: Ast, e: nat, v: nat, n: nat, ok: bool)
    requires c + 2 < e && Tail(P, e - 1) && Tail(P, e) && P[c] == Punct("(")
    requires ParseBinary(P, u, c + 1, 0) == if ok then Ok(a, EndAt(P, v, e - 1, n), v) else Fail
    ensures ParseFactor(P, u, c) == if (v > 0 ==> n <= |P| - e) && ok then Ok(a, EndAt(P, v, e, n), v) else Fail
  {
    hide ParseBinary;
  }

  /** An operand of a unary or of the tightest operators. */
  lemma {:induction false} EdgeTight(P: seq<Token>, u: nat, c: nat, a: Ast, e: nat)
    requires Parseable(a) && !a.UnitNode? && OnEdge(a)
    requires Has(P, c, Print(a, FACTOR_LEVEL, false, NATURAL)) && e == c + |Print(a, FACTOR_LEVEL, false, NATURAL)| && Tail(P, e)
    ensures ParseFactor(P, u, c) == EdgeResult(P, u, a, e, Settles(a, FACTOR_LEVEL, |P| - e, u + Units(a) > 0))
    decreases a, 2, 200
  {
    hide ParseFactor, Print, Bare, Has, Settles, SettlesBare, Opens, EdgeIfs, Units, Follow, EveryIfHasElse;
    if EdgeIfs(a) == 0 {
      ClosedIff(a);
      TailFollows(P, e, FACTOR_LEVEL, false);
      Factor(P, u, c, a, false, NATURAL);
      SettlesClosed(a, FACTOR_LEVEL, |P| - e, u + Units(a) > 0);
    } else if NeedsParens(a, FACTOR_LEVEL, false) {
      ParenForm(a, FACTOR_LEVEL);
      EdgeParens(P, u, c, a, FACTOR_LEVEL, e);
    } else {
      BareForm(a, FACTOR_LEVEL);
      EdgeFactor(P, u, c, a, e);
    }
  }

  lemma {:induction false} EdgeExpression(P: seq<Token>, u: nat, c: nat, a: Ast, e: nat)
    requires Parseable(a) && !a.UnitNode? && OnEdge(a)
    requires Has(P, c, Print(a, 0, false, NATURAL)) && e == c + |Print(a, 0, false, NATURAL)| && Tail(P, e)
    ensures ParseExpression(P, u, c) == EdgeResult(P, u, a, e, Settles(a, 0, |P| - e, u + Units(a) > 0))
    decreases a, 3
  {
    hide ParseBinary, Print, Parseable, Has, Settles, Opens, EdgeIfs;
    EdgeLevel(P, u, c, a, 0, e);
  }

  lemma BinaryEdge(a: Ast)
    requires Parseable(a) && a.Binary? && OnEdge(a)
    ensures Printable(a.left, false) && Parseable(a.right) && OnEdge(a.right) && IsTerm(a.left) && IsTerm(a.right)
    ensures a == Binary(a.op, a.left, a.right, TError) && Units(a) == Units(a.left) + Units(a.right)
    ensures EdgeIfs(a) == EdgeIfs(a.right)
  {
    hide OpLevel;
    OpensAtLeast(a.right);
    ClosedIff(a.left);
  }

  lemma {:induction false} EdgeBinary(P: seq<Token>, u: nat, c: nat, a: Ast, p: nat, e: nat)
    requires p <= LAST_LEVEL && Parseable(a) && a.Binary? && OpLevel(a.op) == Some(p) && OnEdge(a)
    requires Has(P, c, Bare(a, false, [], false)) && e == c + |Bare(a, false, [], false)| && Tail(P, e)
    ensures ParseBinary(P, u, c, p) == EdgeResult(P, u, a, e, SettlesBare(a, |P| - e, u + Units(a) > 0))
    decreases a, 0
  {
    hide ParseBinary, ParseRest, ParseFactor, Print, Bare, Has, Follow, Parseable, EveryIfHasElse, Units, Opens, EdgeIfs, Settles, Tail;
    TailFollows(P, e, p, false);
    BinaryLayout(P, c, a, p, false, [], false);
    BinaryEdge(a);
    var left := Print(a.left, p, true, NATURAL);
    var m := c + |left|;
    var v := u + Units(a.left);
    Chain(P, u, c, a.left, p, true, NATURAL);
    EdgeNext(P, v + Units(a.right), e, EdgeIfs(a.right));
    if p == LAST_LEVEL {
      EdgeTight(P, v, m + 1, a.right, e);
    } else {
      EdgeLevel(P, v, m + 1, a.right, p + 1, e);
    }
    EdgeRest(P, v, m - 1, p, a.left, a.right);
    assert LevelOf(a.op) == p;
  }

  /** The last turn of the loop. */
  lemma EdgeRest(P: seq<Token>, u: nat, q: nat, p: nat, left: Ast, right: Ast)
    requires p <= LAST_LEVEL && q + 2 < |P| && P[q + 1].kind == OperatorKind && OpLevel(P[q + 1].data) == Some(p)
    requires IsTerm(left) && IsTerm(right)
    requires var r := if p == LAST_LEVEL then ParseFactor(P, u, q + 2) else ParseBinary(P, u, q + 2, p + 1);
             r.Ok? ==> r.a == right && (r.cursor + 1 < |P| ==> P[r.cursor + 1] == Punct(")"))
    ensures var r := if p == LAST_LEVEL then ParseFactor(P, u, q + 2) else ParseBinary(P, u, q + 2, p + 1);
            ParseRest(P, u, q, p, left) == if r.Ok? then Ok(Binary(P[q + 1].data, left, right, TError), r.cursor, r.units) else Fail
  {
    hide ParseFactor, ParseBinary, OpLevel;
    var r := if p == LAST_LEVEL then ParseFactor(P, u, q + 2) else ParseBinary(P, u, q + 2, p + 1);
    if r.Ok? {
      RestStops(P, r.units, r.cursor, p, Binary(P[q + 1].data, left, right, TError));
    }
  }

  /** The forms read in one piece that have an `if` on their edge. */
  lemma {:induction false} EdgeFactor(P: seq<Token>, u: nat, c: nat, a: Ast, e: nat)
    requires Parseable(a) && !a.Binary? && OnEdge(a) && EdgeIfs(a) > 0
    requires Has(P, c, Bare(a, false, [], false)) && e == c + |Bare(a, false, [], false)| && Tail(P, e)
    ensures ParseFactor(P, u, c) == EdgeResult(P, u, a, e, SettlesBare(a, |P| - e, u + Units(a) > 0))
    decreases a, 0, 1
  {
    hide ParseFactor, Bare, Parseable, Has, SettlesBare, Opens, Units, Tail;
    match a
    case Unary(_, _, _) => EdgeUnary(P, u, c, a, e);
    case Call(_, _, _) => EdgeCall(P, u, c, a, e);
    case IfThen(_, _, _) => EdgeIfThen(P, u, c, a, e);
    case IfElse(_, _, _, _) => EdgeIfElse(P, u, c, a, e);
    case While(_, _, _) => EdgeWhile(P, u, c, a, e);
    case VarExpr(_, _, _, _) => EdgeVar(P, u, c, a, e);
  }

  lemma {:induction false} EdgeUnary(P: seq<Token>, u: nat, c: nat, a: Ast, e: nat)
    requires Parseable(a) && a.Unary? && OnEdge(a)
    requires Has(P, c, Bare(a, false, [], false)) && e == c + |Bare(a, false, [], false)| && Tail(P, e)
    ensures ParseFactor(P, u, c) == EdgeResult(P, u, a, e, SettlesBare(a, |P| - e, u + Units(a) > 0))
    decreases a, 0, 0
  {
    hide Print, Settles;
    var arg := Print(a.arg, FACTOR_LEVEL, false, NATURAL);
    HasOne(P, c, Op(a.op), arg);
    PrintNonEmpty(a.arg, FACTOR_LEVEL, false, NATURAL);
    EdgeTight(P, u, c + 1, a.arg, e);
  }

  lemma {:induction false} EdgeIfThen(P: seq<Token>, u: nat, c: nat, a: Ast, e: nat)
    requires Parseable(a) && a.IfThen? && OnEdge(a)
    requires Has(P, c, Bare(a, false, [], false)) && e == c + |Bare(a, false, [], false)| && Tail(P, e)
    ensures ParseFactor(P, u, c) == EdgeResult(P, u, a, e, SettlesBare(a, |P| - e, u + Units(a) > 0))
    decreases a, 0, 0
  {
    hide Print, ParseExpression, ParseFactor, Bare, Has, Follow, Settles, EveryIfHasElse;
    var x := Print(a.cond, 0, false, NATURAL);
    IfThenLayout(P, c, a, false, [], false);
    var t := c + 1 + |x|;
    OpensAtLeast(a.thn);
    ClosedIff(a.cond);
    Expression(P, u, c + 1, a.cond, NATURAL);
    var v := u + Units(a.cond);
    EdgeExpression(P, v, t + 1, a.thn, e);
    EdgeIfThenStep(P, u, c, a, t, v, e, u + Units(a), EdgeIfs(a.thn), Settles(a.thn, 0, |P| - e, u + Units(a) > 0));
  }

  lemma EdgeIfThenStep(P: seq<Token>, u: nat, c: nat, a: Ast, t: nat, v: nat, e: nat, w: nat, n: nat, ok: bool)
    requires a.IfThen? && a.ty == TError && c + 1 < t && t + 1 < e && Tail(P, e)
    requires P[c] == Keyword("if") && P[t] == Keyword("then")
    requires ParseExpression(P, u, c + 1) == Ok(a.cond, t - 1, v)
    requires ParseExpression(P, v, t + 1) == if ok then Ok(a.thn, EndAt(P, w, e, n), w) else Fail
    ensures ParseFactor(P, u, c) == if ok then Ok(a, EndAt(P, w, e, n + 1), w) else Fail
  {
    hide ParseExpression;
    if ok {
      assert ParseElse(P, w, EndAt(P, w, e, n), a.cond, a.thn) == Ok(a, EndAt(P, w, e, n + 1), w);
    }
    assert ParseIf(P, u, c) == if ok then Ok(a, EndAt(P, w, e, n + 1), w) else Fail;
  }

  lemma {:induction false} EdgeIfElse(P: seq<Token>, u: nat, c: nat, a: Ast, e: nat)
    requires Parseable(a) && a.IfElse? && OnEdge(a)
    requires Has(P, c, Bare(a, false, [], false)) && e == c + |Bare(a, false, [], false)| && Tail(P, e)
    ensures ParseFactor(P, u, c) == EdgeResult(P, u, a, e, SettlesBare(a, |P| - e, u + Units(a) > 0))
    decreases a, 0, 0
  {
    hide Print, ParseExpression, ParseFactor, Bare, Has, Follow, Settles, EveryIfHasElse;
    var x, y := Print(a.cond, 0, false, NATURAL), Print(a.thn, 0, false, NATURAL);
    TailFollows(P, e, LAST_LEVEL, false);
    IfLayout(P, c, a, [], false);
    var t := c + 1 + |x|;
    var l := t + 1 + |y|;
    OpensAtLeast(a.els);
    ClosedIff(a.cond);
    ClosedIff(a.thn);
    Expression(P, u, c + 1, a.cond, NATURAL);
    var v := u + Units(a.cond);
    Expression(P, v, t + 1, a.thn, NATURAL);
    var w := v + Units(a.thn);
    EdgeExpression(P, w, l + 1, a.els, e);
    EdgeIfElseStep(P, u, c, a, t, v, l, w);
  }

  lemma EdgeIfElseStep(P: seq<Token>, u: nat, c: nat, a: Ast, t: nat, v: nat, l: nat, w: nat)
    requires a.IfElse? && a.ty == TError && c + 1 < t && t + 1 < l && l + 1 < |P|
    requires P[c] == Keyword("if") && P[t] == Keyword("then") && P[l] == Keyword("else")
    requires ParseExpression(P, u, c + 1) == Ok(a.cond, t - 1, v)
    requires ParseExpression(P, v, t + 1) == Ok(a.thn, l - 1, w)
    requires var r := ParseExpression(P, w, l + 1); r.Ok? ==> r.a == a.els
    ensures var r := ParseExpression(P, w, l + 1);
            ParseFactor(P, u, c) == if r.Ok? then Ok(a, r.cursor, r.units) else Fail
  {
    hide ParseExpression;
    var r := ParseExpression(P, w, l + 1);
    assert ParseElse(P, w, l - 1, a.cond, a.thn) == if r.Ok? then Ok(a, r.cursor, r.units) else Fail;
    assert ParseIf(P, u, c) == if r.Ok? then Ok(a, r.cursor, r.units) else Fail;
  }

  lemma {:induction false} EdgeWhile(P: seq<Token>, u: nat, c: nat, a: Ast, e: nat)
    requires Parseable(a) && a.While? && OnEdge(a)
    requires Has(P, c, Bare(a, false, [], false)) && e == c + |Bare(a, false, [], false)| && Tail(P, e)
    ensures ParseFactor(P, u, c) == EdgeResult(P, u, a, e, SettlesBare(a, |P| - e, u + Units(a) > 0))
    decreases a, 0, 0
  {
    hide Print, ParseExpression, ParseFactor, Bare, Has, Follow, Settles, EveryIfHasElse;
    var x := Print(a.cond, 0, false, NATURAL);
    TailFollows(P, e, LAST_LEVEL, false);
    WhileLayout(P, c, a, [], false);
    var t := c + 1 + |x|;
    OpensAtLeast(a.body);
    ClosedIff(a.cond);
    Expression(P, u, c + 1, a.cond, NATURAL);
    var v := u + Units(a.cond);
    EdgeExpression(P, v, t + 1, a.body, e);
    EdgeWhileStep(P, u, c, a, t, v);
  }

  lemma EdgeWhileStep(P: seq<Token>, u: nat, c: nat, a: Ast, t: nat, v: nat)
    requires a.While? && a.ty == TError && c + 1 < t && t + 1 < |P| && P[c] == Keyword("while") && P[t] == Keyword("do")
    requires ParseExpression(P, u, c + 1) == Ok(a.cond, t - 1, v)
    requires var r := ParseExpression(P, v, t + 1); r.Ok? ==> r.a == a.body
    ensures var r := ParseExpression(P, v, t + 1);
            ParseFactor(P, u, c) == if r.Ok? then Ok(a, r.cursor, r.units) else Fail
  {
    hide ParseExpression;
  }

  lemma {:induction false} EdgeVar(P: seq<Token>, u: nat, c: nat, a: Ast, e: nat)
    requires Parseable(a) && a.VarExpr? && OnEdge(a)
    requires Has(P, c, Bare(a, false, [], false)) && e == c + |Bare(a, false, [], false)| && Tail(P, e)
    ensures ParseFactor(P, u, c) == EdgeResult(P, u, a, e, SettlesBare(a, |P| - e, u + Units(a) > 0))
    decreases a, 0, 0
  {
    hide Print, ParseExpression, ParseFactor, Has, Bare, Follow, Settles;
    var t := c + 2 + |TypeDecl(a.decl)|;
    TailFollows(P, e, LAST_LEVEL, false);
    VarLayout(P, c, a, [], false);
    EdgeExpression(P, u, t + 1, a.init, e);
    EdgeVarStep(P, u, c, a, t);
  }

  lemma EdgeVarStep(P: seq<Token>, u: nat, c: nat, a: Ast, t: nat)
    requires a.VarExpr? && a.ty == TError && t == c + 2 + |TypeDecl(a.decl)| && t + 1 < |P|
    requires P[c] == Keyword("var") && P[c + 1] == Ident(a.name) && P[t] == Op("=")
    requires a.decl != "" ==> P[c + 2] == Punct(":") && P[c + 3] == Ident(a.decl)
    requires var r := ParseExpression(P, u, t + 1); r.Ok? ==> r.a == a.init
    ensures var r := ParseExpression(P, u, t + 1);
            ParseFactor(P, u, c) == if r.Ok? then Ok(a, r.cursor, r.units) else Fail
  {
    hide ParseExpression;
  }

  lemma {:induction false} EdgeCall(P: seq<Token>, u: nat, c: nat, a: Ast, e: nat)
    requires Parseable(a) && a.Call? && OnEdge(a) && EdgeIfs(a) > 0
    requires Has(P, c, Bare(a, false, [], false)) && e == c + |Bare(a, false, [], false)| && Tail(P, e)
    ensures ParseFactor(P, u, c) == EdgeResult(P, u, a, e, SettlesBare(a, |P| - e, u + Units(a) > 0))
    decreases a, 0, 0
  {
    hide PrintArgs, ParseArgs, ParseFactor, LastSettles, Has;
    var args := PrintArgs(a.args, [], 0, false);
    assert Bare(a, false, [], false) == [Ident(a.callee)] + ([Punct("(")] + args);
    HasOne(P, c, Ident(a.callee), [Punct("(")] + args);
    HasOne(P, c + 1, Punct("("), args);
    ArgsNonEmpty(a.args, 0);
    EdgeArgs(P, u, c + 2, a.args, 0, e);
    EdgeCallStep(P, u, c, a);
    var room := |P| - e;
    assert LastSettles(a.args[|a.args| - 1], room, u + Units(a) > 0) ==> EdgeIfs(a) <= room by {
      LastFits(a.args[|a.args| - 1], room, u + Units(a) > 0);
    }
  }

  lemma LastFits(a: Ast, room: nat, units: bool)
    ensures LastSettles(a, room, units) ==> EdgeIfs(a) <= room
  {
  }

  lemma ArgsNonEmpty(es: seq<Ast>, i: nat)
    ensures |PrintArgs(es, [], i, false)| >= 1
  {
    hide Print;
  }

  lemma EdgeCallStep(P: seq<Token>, u: nat, c: nat, a: Ast)
    requires a.Call? && a.ty == TError && |a.args| <= MAX_EDGES && c + 2 < |P|
    requires P[c] == Ident(a.callee) && P[c + 1] == Punct("(")
    requires var r := ParseArgs(P, u, c + 2); r.OkList? ==> r.es == a.args
    ensures var r := ParseArgs(P, u, c + 2);
            ParseFactor(P, u, c) == if r.OkList? then Ok(a, r.cursor, r.units) else Fail
  {
    hide ParseArgs;
  }

  /** The arguments before the last are closed; after the last, a closing parenthesis must be left for the call. */
  lemma {:induction false} EdgeArgs(P: seq<Token>, u: nat, c: nat, es: seq<Ast>, i: nat, e: nat)
    requires es != [] && ParseableArgs(es) && OpensIn(es) == EdgeIfs(es[|es| - 1])
    requires Has(P, c, PrintArgs(es, [], i, false)) && e == c + |PrintArgs(es, [], i, false)| && Tail(P, e)
    ensures ParseArgs(P, u, c) == ArgsResult(P, u, es, e)
    decreases es, 102
  {
    hide Print, ParseExpression, ParseArgs, SkipToSeparator, Has, Follow, Parseable, EveryIfHasElse, Units, LastSettles, EdgeIfs, Opens, Tail;
    if |es| == 1 {
      EdgeLastArg(P, u, c, es, i, e);
    } else {
      EdgeFirstArg(P, u, c, es, i, e);
      var w := u + Units(es[0]);
      EdgeArgs(P, w, c + |Print(es[0], 0, false, NATURAL)| + 1, es[1..], i + 1, e);
      ArgsUnits(es);
      assert [es[0]] + es[1..] == es;
    }
  }

  lemma EdgeFirstArg(P: seq<Token>, u: nat, c: nat, es: seq<Ast>, i: nat, e: nat)
    requires |es| > 1 && ParseableArgs(es) && OpensIn(es) == EdgeIfs(es[|es| - 1])
    requires Has(P, c, PrintArgs(es, [], i, false)) && e == c + |PrintArgs(es, [], i, false)|
    ensures var t, w := c + |Print(es[0], 0, false, NATURAL)|, u + Units(es[0]);
            && ParseArgs(P, u, c) == After([es[0]], ParseArgs(P, w, t + 1))
            && Has(P, t + 1, PrintArgs(es[1..], [], i + 1, false)) && e == t + 1 + |PrintArgs(es[1..], [], i + 1, false)|
            && ParseableArgs(es[1..]) && OpensIn(es[1..]) == EdgeIfs(es[|es| - 1])
  {
    hide Print, ParseExpression, ParseArgs, SkipToSeparator, Has, Follow, Parseable, EveryIfHasElse, Units, EdgeIfs, Opens;
    ArgsUnfold(P, u, c);
    ArgumentLayout(P, c, es, [], i, false);
    ArgsUnits(es);
    OpensOfLast(es[1..]);
    OpensAtLeast(es[|es| - 1]);
    ClosedIff(es[0]);
    Expression(P, u, c, es[0], NATURAL);
    SkipHere(P, c + |Print(es[0], 0, false, NATURAL)|);
  }

  function ArgsResult(P: seq<Token>, u: nat, es: seq<Ast>, e: nat): ParseList
    requires es != [] && 1 <= e <= |P|
  {
    var last, v := es[|es| - 1], u + UnitsIn(es);
    if LastSettles(last, |P| - e, v > 0) then OkList(es, e - 1 + EdgeIfs(last), v) else FailList
  }

  lemma {:induction false} EdgeLastArg(P: seq<Token>, u: nat, c: nat, es: seq<Ast>, i: nat, e: nat)
    requires |es| == 1 && ParseableArgs(es) && OpensIn(es) == EdgeIfs(es[0])
    requires Has(P, c, PrintArgs(es, [], i, false)) && e == c + |PrintArgs(es, [], i, false)| && Tail(P, e)
    ensures ParseArgs(P, u, c) == ArgsResult(P, u, es, e)
    decreases es, 101
  {
    hide Print, ParseExpression, ParseArgs, SkipToSeparator, Has, Follow, Parseable, EveryIfHasElse, Units, Settles, EdgeIfs, Opens;
    ArgsUnfold(P, u, c);
    ArgumentLayout(P, c, es, [], i, false);
    ArgsUnits(es);
    assert es == [es[0]];
    EdgeExpression(P, u, c, es[0], e - 1);
    LastSkip(P, u + Units(es[0]), e, EdgeIfs(es[0]));
  }

  lemma ArgsUnits(es: seq<Ast>)
    requires es != []
    ensures UnitsIn(es) == Units(es[0]) + UnitsIn(es[1..]) && (|es| == 1 ==> UnitsIn(es[1..]) == 0)
    ensures OpensIn(es) == Opens(es[0]) + OpensIn(es[1..]) && (|es| == 1 ==> OpensIn(es[1..]) == 0)
  {
  }

  /** Where the call finds its closing parenthesis, if one is left. */
  lemma LastSkip(P: seq<Token>, v: nat, e: nat, n: nat)
    requires 2 <= e && Tail(P, e - 1) && Tail(P, e)
    ensures var k := SkipToSeparator(P, EndAt(P, v, e - 1, n) + 1);
            k == (if n <= |P| - e then Some(e - 1 + n) else None) && (k.Some? ==> P[k.value] == Punct(")"))
  {
  }

  /**
   Which programs are read back from their natural text: with the parentheses precedence requires and nothing else,
   exactly those whose ifs without `else` are on the right edge, and leave parentheses enough.
  */
  lemma NaturalIff(a: Ast)
    requires Parseable(a) && !a.UnitNode?
    ensures var r := ParseProgram(Print(a, 0, false, NATURAL));
            (r.Ok? && r.a == a) <==> OnEdge(a) && Settles(a, 0, 0, Units(a) > 0)
  {
    hide Print, ParseExpression, Parseable, Opens, EdgeIfs, Settles, Units;
    var P := Print(a, 0, false, NATURAL);
    PrintNonEmpty(a, 0, false, NATURAL);
    if OnEdge(a) {
      assert Has(P, 0, P);
      EdgeExpression(P, 0, 0, a, |P|);
    } else if ParseProgram(P).Ok? && ParseProgram(P).a == a {
      OffEdgeLost(a);
    }
  }

  /** The plain way a node is printed where nothing needs parentheses. */
  lemma TopText(a: Ast)
    ensures Print(a, 0, false, NATURAL) == Bare(a, false, [], false)
  {
    hide Bare;
    BareForm(a, 0);
  }

  lemma DanglingTexts(a: Ast, b: Ast, c: Ast, d: Ast)
    ensures Print(IfThen(a, IfElse(b, c, d, TError), TError), 0, false, NATURAL)
            == Print(IfElse(a, IfThen(b, c, TError), d, TError), 0, false, NATURAL)
  {
    hide Print, Bare;
    var A, B, C, D := Print(a, 0, false, NATURAL), Print(b, 0, false, NATURAL), Print(c, 0, false, NATURAL), Print(d, 0, false, NATURAL);
    var inner := [Keyword("if")] + (B + ([Keyword("then")] + C));
    TextOfIfElse(b, c, d);
    TextOfIfThen(b, c);
    TextOfIfThen(a, IfElse(b, c, d, TError));
    TextOfIfElse(a, IfThen(b, c, TError), d);
    assert [Keyword("if")] + (B + ([Keyword("then")] + (C + ([Keyword("else")] + D)))) == inner + ([Keyword("else")] + D);
  }

  lemma TextOfIfThen(a: Ast, b: Ast)
    ensures Print(IfThen(a, b, TError), 0, false, NATURAL)
            == [Keyword("if")] + (Print(a, 0, false, NATURAL) + ([Keyword("then")] + Print(b, 0, false, NATURAL)))
  {
    hide Print;
    TopText(IfThen(a, b, TError));
    assert Print(b, 0, false, NATURAL) + [] == Print(b, 0, false, NATURAL);
  }

  lemma TextOfIfElse(a: Ast, b: Ast, c: Ast)
    ensures Print(IfElse(a, b, c, TError), 0, false, NATURAL)
            == [Keyword("if")] + (Print(a, 0, false, NATURAL) + ([Keyword("then")] + (Print(b, 0, false, NATURAL)
               + ([Keyword("else")] + Print(c, 0, false, NATURAL)))))
  {
    hide Print;
    TopText(IfElse(a, b, c, TError));
  }

  /** `if a then if b then c else d` is the text of two trees, and read as the one whose `else` is with the nearer `if`. */
  lemma DanglingElse(a: Ast, b: Ast, c: Ast, d: Ast)
    requires Parseable(a) && Parseable(b) && Parseable(c) && Parseable(d)
    requires !a.UnitNode? && !b.UnitNode? && !c.UnitNode? && !d.UnitNode?
    requires EveryIfHasElse(a) && EveryIfHasElse(b) && EveryIfHasElse(c) && EveryIfHasElse(d)
    ensures var near, far := IfThen(a, IfElse(b, c, d, TError), TError), IfElse(a, IfThen(b, c, TError), d, TError);
            && Print(near, 0, false, NATURAL) == Print(far, 0, false, NATURAL)
            && var r := ParseProgram(Print(far, 0, false, NATURAL)); r.Ok? && r.a == near
  {
    hide Print, Parseable, Opens, EdgeIfs, ParseExpression, Settles, EveryIfHasElse;
    var near := IfThen(a, IfElse(b, c, d, TError), TError);
    DanglingEdge(a, b, c, d);
    DanglingTexts(a, b, c, d);
    DanglingSettles(a, b, c, d);
    NaturalIff(near);
  }

  lemma DanglingEdge(a: Ast, b: Ast, c: Ast, d: Ast)
    requires Parseable(a) && Parseable(b) && Parseable(c) && Parseable(d)
    requires !a.UnitNode? && !b.UnitNode? && !c.UnitNode? && !d.UnitNode?
    requires EveryIfHasElse(a) && EveryIfHasElse(b) && EveryIfHasElse(c) && EveryIfHasElse(d)
    ensures var near := IfThen(a, IfElse(b, c, d, TError), TError); Parseable(near) && OnEdge(near) && EdgeIfs(d) == 0
  {
    hide Parseable, EveryIfHasElse, Opens, EdgeIfs;
    ClosedIff(a);
    ClosedIff(b);
    ClosedIff(c);
    ClosedIff(d);
    OpensAtLeast(d);
    NearOpens(a, b, c, d);
    NearParseable(a, b, c, d);
  }

  lemma NearParseable(a: Ast, b: Ast, c: Ast, d: Ast)
    requires Parseable(a) && Parseable(b) && Parseable(c) && Parseable(d)
    requires !a.UnitNode? && !b.UnitNode? && !c.UnitNode? && !d.UnitNode?
    ensures Parseable(IfThen(a, IfElse(b, c, d, TError), TError))
  {
    assert Parseable(IfElse(b, c, d, TError));
  }

  lemma NearOpens(a: Ast, b: Ast, c: Ast, d: Ast)
    ensures var inner := IfElse(b, c, d, TError);
            && Opens(IfThen(a, inner, TError)) == 1 + Opens(a) + Opens(b) + Opens(c) + Opens(d)
            && EdgeIfs(IfThen(a, inner, TError)) == 1 + EdgeIfs(d)
  {
    var inner := IfElse(b, c, d, TError);
    assert Opens(inner) == Opens(b) + Opens(c) + Opens(d) && EdgeIfs(inner) == EdgeIfs(d);
  }

  lemma DanglingSettles(a: Ast, b: Ast, c: Ast, d: Ast)
    requires EdgeIfs(d) == 0
    ensures forall units: bool :: Settles(IfThen(a, IfElse(b, c, d, TError), TError), 0, 0, units)
  {
    hide EdgeIfs, OpLevel;
    forall units: bool ensures Settles(IfThen(a, IfElse(b, c, d, TError), TError), 0, 0, units) {
      SettlesClosed(d, 0, 0, units);
      assert Settles(IfElse(b, c, d, TError), 0, 0, units);
    }
  }

  /** An `if` without `else` that ends the program is read back, as in the source's own test (parser_test.c:587). */
  lemma BranchEndsProgram(a: Ast, b: Ast)
    requires Parseable(a) && Parseable(b) && !a.UnitNode? && !b.UnitNode? && EveryIfHasElse(a) && EveryIfHasElse(b)
    ensures var branch := IfThen(a, b, TError);
            var r := ParseProgram(Print(branch, 0, false, NATURAL)); r.Ok? && r.a == branch
  {
    hide Print, ParseExpression, EveryIfHasElse;
    var branch := IfThen(a, b, TError);
    ClosedIff(a);
    ClosedIff(b);
    OpensAtLeast(b);
    SettlesClosed(b, 0, 0, Units(branch) > 0);
    NaturalIff(branch);
  }

  /** A program that is not read at all: in `{ if a then b ; c }` the `;` is stepped over, and no statement follows. */
  lemma SwallowedSemicolon()
    ensures Print(SwallowingProgram(), 0, false, NATURAL) == SwallowingText()
    ensures Parseable(SwallowingProgram()) && ParseProgram(SwallowingText()).Fail?
  {
    hide ParseExpression, ParseStatements, SwallowingProgram, Print, Parseable;
    SwallowingTree();
    SwallowingPrinted();
    SwallowingIf();
    var P := SwallowingText();
    StatementsUnfold(P, 0, 0);
    NoStatements(P);
  }

  lemma NoStatements(P: seq<Token>)
    requires P != [] && P[0] == Punct("{") && ParseStatements(P, 0, 0).FailList?
    ensures ParseProgram(P).Fail?
  {
    assert ParseFactor(P, 0, 0) == ParseBlock(P, 0, 0);
    UpStops(P, 0, 0, 0);
  }

  /** The `if` ends on the `;`. */
  lemma SwallowingIf()
    ensures ParseExpression(SwallowingText(), 0, 1) == Ok(SwallowingProgram().stmts[0], 5, 0)
  {
    hide ParseExpression;
    var P := SwallowingText();
    LeafHere(P, 2);
    LeafHere(P, 4);
    assert ParseFactor(P, 0, 1) == ParseIf(P, 0, 1);
    FromFactor(P, 1);
  }

  lemma FromFactor(P: seq<Token>, c: nat)
    requires var r := ParseFactor(P, 0, c); r.Ok? && r.cursor + 1 < |P| ==> P[r.cursor + 1].kind != OperatorKind
    ensures ParseExpression(P, 0, c) == ParseFactor(P, 0, c)
  {
    hide ParseFactor;
    UpStops(P, 0, c, 0);
  }

  function SwallowingProgram(): Ast {
    var a, b, c := Identifier("a", TError), Identifier("b", TError), Identifier("c", TError);
    Block([IfThen(a, b, TError), c], TError)
  }

  function SwallowingText(): seq<Token> {
    [Punct("{"), Keyword("if"), Ident("a"), Keyword("then"), Ident("b"), Punct(";"), Ident("c"), Punct("}")]
  }

  lemma SwallowingTree()
    ensures Parseable(SwallowingProgram())
  {
    var es := SwallowingProgram().stmts;
    assert Parseable(es[0]) && Parseable(es[1]);
    assert es[1..][1..] == [];
    assert ParseableStatements(es[1..]);
  }

  lemma LeafHere(P: seq<Token>, c: nat)
    requires c + 1 < |P| && P[c].kind == IdentifierKind && P[c].data != "true" && P[c].data != "false"
    requires P[c + 1].kind != OperatorKind && P[c + 1] != Punct("(")
    ensures ParseExpression(P, 0, c) == Ok(Identifier(P[c].data, TError), c, 0)
  {
    UpStops(P, 0, c, 0);
  }

  lemma SwallowingPrinted()
    ensures Print(SwallowingProgram(), 0, false, NATURAL) == SwallowingText()
  {
    hide Print;
    var es := SwallowingProgram().stmts;
    TopText(SwallowingProgram());
    TopText(es[0].cond);
    TopText(es[0].thn);
    TextOfIfThen(es[0].cond, es[0].thn);
    TopText(es[1]);
    assert es[1..] == [es[1]];
  }
}
