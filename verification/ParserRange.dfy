/**
 What the parser can build (parser.c:180-710).  From tokens classified as the tokenizer does, every tree it returns has
 one shape, and `ParserInverse` reads every tree of that shape back; so reading a program, printing it and reading that
 again gives the same program.
*/
module ParserRange {
  import opened Syntax
  import opened Ir
  import opened Tokens
  import opened ParserSpec
  import opened Printer
  import opened Parser
  import ParserInverse

  predicate ParsedNode(r: Parse) {
    r.Ok? ==> Parseable(r.a) && !r.a.UnitNode?
  }

  lemma {:induction false} ExpressionParsed(P: seq<Token>, u: nat, c: nat)
    requires Lexed(P)
    ensures ParsedNode(ParseExpression(P, u, c))
    decreases Unread(P, c), 30
  {
    hide ParseBinary;
    BinaryParsed(P, u, c, 0);
  }

  lemma {:induction false} BinaryParsed(P: seq<Token>, u: nat, c: nat, level: nat)
    requires Lexed(P) && level <= LAST_LEVEL
    ensures ParsedNode(ParseBinary(P, u, c, level))
    decreases Unread(P, c), 20 - level
  {
    hide ParseFactor, ParseRest, Parseable, Lexed;
    if level == LAST_LEVEL {
      FactorParsed(P, u, c);
      var x := ParseFactor(P, u, c);
      if x.Ok? {
        RestParsed(P, x.units, x.cursor, level, x.a);
      }
    } else {
      BinaryParsed(P, u, c, level + 1);
      var x := ParseBinary(P, u, c, level + 1);
      if x.Ok? {
        RestParsed(P, x.units, x.cursor, level, x.a);
      }
    }
  }

  lemma {:induction false} RestParsed(P: seq<Token>, u: nat, c: nat, level: nat, left: Ast)
    requires Lexed(P) && level <= LAST_LEVEL && Parseable(left) && !left.UnitNode?
    ensures ParsedNode(ParseRest(P, u, c, level, left))
    decreases Unread(P, c), 4
  {
    hide ParseFactor, ParseBinary, ParseRest, Lexed;
    RestUnfolds(P, u, c, level, left);
    if IsBinaryOpAt(At(P, u, c + 1), level) && At(P, u, c + 2).Some? {
      var right := if level == LAST_LEVEL then ParseFactor(P, u, c + 2) else ParseBinary(P, u, c + 2, level + 1);
      if level == LAST_LEVEL {
        FactorParsed(P, u, c + 2);
      } else {
        BinaryParsed(P, u, c + 2, level + 1);
      }
      if right.Ok? && IsTerm(left) && IsTerm(right.a) {
        RestParsed(P, right.units, right.cursor, level, Binary(At(P, u, c + 1).value.data, left, right.a, TError));
      }
    }
  }

  lemma {:induction false} FactorParsed(P: seq<Token>, u: nat, c: nat)
    requires Lexed(P)
    ensures ParsedNode(ParseFactor(P, u, c))
    decreases Unread(P, c), 10
  {
    hide Parseable, ParseFunction, ParseUnary, ParseParenthesized, ParseBlock, ParseIf, ParseWhile, ParseVar, IdentifierNode;
    if c < |P| {
      LeafParsed(P[c]);
      match P[c].kind
      case IdentifierKind => FunctionParsed(P, u, c);
      case OperatorKind =>
        if P[c].data == "-" || P[c].data == "not" {
          UnaryParsed(P, u, c);
        }
      case PunctuationKind =>
        ParenthesizedParsed(P, u, c);
        BlockParsed(P, u, c);
      case KeywordKind =>
        IfParsed(P, u, c);
        WhileParsed(P, u, c);
        VarParsed(P, u, c);
      case _ =>
    }
  }

  lemma LeafParsed(t: Token)
    requires LexedToken(t)
    ensures t.kind == IdentifierKind ==> Parseable(IdentifierNode(t.data)) && !IdentifierNode(t.data).UnitNode?
    ensures t.kind == IntegerKind ==> Parseable(Literal(t.data, TError))
  {
  }

  lemma {:induction false} UnaryParsed(P: seq<Token>, u: nat, c: nat)
    requires Lexed(P) && c < |P| && (P[c].data == "-" || P[c].data == "not")
    ensures ParsedNode(ParseUnary(P, u, c))
    decreases Unread(P, c), 5
  {
    hide ParseFactor;
    FactorParsed(P, u, c + 1);
  }

  lemma {:induction false} ParenthesizedParsed(P: seq<Token>, u: nat, c: nat)
    requires Lexed(P) && c < |P|
    ensures ParsedNode(ParseParenthesized(P, u, c))
    decreases Unread(P, c), 5
  {
    hide ParseBinary;
    BinaryParsed(P, u, c + 1, 0);
  }

  lemma {:induction false} BlockParsed(P: seq<Token>, u: nat, c: nat)
    requires Lexed(P) && c < |P|
    ensures ParsedNode(ParseBlock(P, u, c))
    decreases Unread(P, c), 5
  {
    hide ParseStatements;
    StatementsParsed(P, u, c);
  }

  lemma {:induction false} StatementsParsed(P: seq<Token>, u: nat, c: nat)
    requires Lexed(P) && c < |P|
    ensures var r := ParseStatements(P, u, c);
            r.OkList? ==> |r.es| >= 1 && !r.es[0].UnitNode? && ParseableStatements(r.es)
    decreases Unread(P, c), 4
  {
    hide ParseExpression, Parseable, Lexed;
    ExpressionParsed(P, u, c + 1);
    var e := ParseExpression(P, u, c + 1);
    if e.Ok? {
      assert [e.a, UnitNode][1..] == [UnitNode] && [e.a][1..] == [];
      if At(P, e.units, e.cursor + 1) == Some(Punct(";")) && e.cursor + 1 < |P| {
        StatementsParsed(P, e.units, e.cursor + 1);
        var rest := ParseStatements(P, e.units, e.cursor + 1);
        if rest.OkList? {
          assert ([e.a] + rest.es)[1..] == rest.es;
        }
      }
    }
  }

  lemma {:induction false} IfParsed(P: seq<Token>, u: nat, c: nat)
    requires Lexed(P) && c < |P|
    ensures ParsedNode(ParseIf(P, u, c))
    decreases Unread(P, c), 5
  {
    hide ParseExpression, Lexed;
    ExpressionParsed(P, u, c + 1);
    var x := ParseExpression(P, u, c + 1);
    if x.Ok? {
      ExpressionParsed(P, x.units, x.cursor + 2);
      var y := ParseExpression(P, x.units, x.cursor + 2);
      if y.Ok? {
        ExpressionParsed(P, y.units, y.cursor + 2);
      }
    }
  }

  lemma {:induction false} WhileParsed(P: seq<Token>, u: nat, c: nat)
    requires Lexed(P) && c < |P|
    ensures ParsedNode(ParseWhile(P, u, c))
    decreases Unread(P, c), 5
  {
    hide ParseExpression, Lexed;
    ExpressionParsed(P, u, c + 1);
    var x := ParseExpression(P, u, c + 1);
    if x.Ok? {
      ExpressionParsed(P, x.units, x.cursor + 2);
    }
  }

  lemma {:induction false} VarParsed(P: seq<Token>, u: nat, c: nat)
    requires Lexed(P) && c < |P|
    ensures ParsedNode(ParseVar(P, u, c))
    decreases Unread(P, c), 5
  {
    hide ParseExpression;
    ExpressionParsed(P, u, c + 3);
    ExpressionParsed(P, u, c + 5);
  }

  lemma {:induction false} FunctionParsed(P: seq<Token>, u: nat, c: nat)
    requires Lexed(P) && c < |P| && P[c].kind == IdentifierKind
    ensures ParsedNode(ParseFunction(P, u, c))
    decreases Unread(P, c), 5
  {
    hide ParseArgs;
    ArgsParsed(P, u, c + 2);
  }

  lemma {:induction false} ArgsParsed(P: seq<Token>, u: nat, c: nat)
    requires Lexed(P)
    ensures var r := ParseArgs(P, u, c); r.OkList? ==> ParseableArgs(r.es)
    decreases Unread(P, c), 40
  {
    hide ParseExpression, Parseable, Lexed;
    ExpressionParsed(P, u, c);
    var x := ParseExpression(P, u, c);
    if x.Ok? {
      assert [x.a][1..] == [];
      var s := SkipToSeparator(P, x.cursor + 1);
      if s.Some? {
        ArgsParsed(P, x.units, s.value + 1);
        var rest := ParseArgs(P, x.units, s.value + 1);
        if rest.OkList? {
          assert ([x.a] + rest.es)[1..] == rest.es;
        }
      }
    }
  }

  lemma {:induction false} ParseableNamed(a: Ast)
    requires Parseable(a)
    ensures WellNamed(a)
    decreases a
  {
    match a
    case Unary(_, arg, _) => ParseableNamed(arg);
    case Binary(_, left, right, _) =>
      ParseableNamed(left);
      ParseableNamed(right);
    case Call(_, args, _) => ArgsNamed(args);
    case Block(stmts, _) => StatementsNamed(stmts);
    case IfThen(cond, thn, _) =>
      ParseableNamed(cond);
      ParseableNamed(thn);
    case IfElse(cond, thn, els, _) =>
      ParseableNamed(cond);
      ParseableNamed(thn);
      ParseableNamed(els);
    case While(cond, body, _) =>
      ParseableNamed(cond);
      ParseableNamed(body);
    case VarExpr(_, init, _, _) => ParseableNamed(init);
    case _ =>
  }

  lemma {:induction false} ArgsNamed(es: seq<Ast>)
    requires ParseableArgs(es)
    ensures WellNamedIn(es)
    decreases es
  {
    if es != [] {
      ParseableNamed(es[0]);
      ArgsNamed(es[1..]);
    }
  }

  lemma {:induction false} StatementsNamed(es: seq<Ast>)
    requires ParseableStatements(es)
    ensures WellNamedIn(es)
    decreases es
  {
    if es == [UnitNode] {
      assert es[1..] == [];
    } else if es != [] {
      ParseableNamed(es[0]);
      StatementsNamed(es[1..]);
    }
  }

  /** The trees of whole programs have the shape the printer is for. */
  lemma ProgramParsed(P: seq<Token>)
    requires Lexed(P) && ParseProgram(P).Ok?
    ensures Parseable(ParseProgram(P).a) && !ParseProgram(P).a.UnitNode?
  {
    hide ParseExpression;
    ExpressionParsed(P, 0, 0);
  }

  /**
   A program read, printed with no parentheses but those it needs and a `;` behind every `if` without `else`, and read
   again is the same program.
  */
  lemma Reparsed(P: seq<Token>)
    requires Lexed(P) && ParseProgram(P).Ok?
    ensures var a := ParseProgram(P).a;
            ParseProgram(Print(a, 0, false, PLAIN)).Ok? && ParseProgram(Print(a, 0, false, PLAIN)).a == a
  {
    hide ParseProgram, Print, Parseable;
    ProgramParsed(P);
    ParserInverse.ProgramRoundTrip(ParseProgram(P).a);
  }
}
