/**
 What the parser accepts (parser.c:180-710).  Parentheses aside, the tokens read for a tree spell the tree: every keyword,
 operator, separator and name of it stands where the language wants it, and there is nothing else, but for the token an
 `if` without `else` steps over, and what may stand between an argument and the separator behind it.
*/
module ParserSpells {
  import opened Words
  import opened Syntax
  import opened Ir
  import opened Tokens
  import opened ParserSpec
  import opened Parser
  import opened NaturalText

  predicate Paren(t: Token) {
    Starts(t, '(') || Starts(t, ')')
  }

  /** The tokens that are no parentheses. */
  function Core(ts: seq<Token>): seq<Token> {
    if ts == [] then [] else (if Paren(ts[0]) then [] else [ts[0]]) + Core(ts[1..])
  }

  lemma {:induction false} CoreJoin(s: seq<Token>, t: seq<Token>)
    ensures Core(s + t) == Core(s) + Core(t)
  {
    hide Paren, Core;
    if s == [] {
      CoreNone();
      assert s + t == t;
    } else {
      var first := if Paren(s[0]) then [] else [s[0]];
      CoreJoin(s[1..], t);
      CoreStep(s);
      CoreStep(s + t);
      assert (s + t)[1..] == s[1..] + t;
      assert first + (Core(s[1..]) + Core(t)) == (first + Core(s[1..])) + Core(t);
    }
  }

  lemma CoreNone()
    ensures Core([]) == []
  {
  }

  lemma CoreStep(ts: seq<Token>)
    requires ts != []
    ensures Core(ts) == (if Paren(ts[0]) then [] else [ts[0]]) + Core(ts[1..])
  {
    hide Paren;
  }

  /** Core tokens that spell a tree. */
  ghost predicate Spells(a: Ast, ts: seq<Token>)
    decreases a, 1
  {
    match a
    case Literal(text, _) => ts == [Token(IntegerKind, text)] || (ts == [Ident(text)] && (text == "true" || text == "false"))
    case Identifier(name, _) => ts == [Ident(name)]
    case Unary(op, arg, _) => ts != [] && ts[0] == Op(op) && Spells(arg, ts[1..])
    case Binary(op, left, right, _) =>
      && !left.Block? && !right.Block?
      && exists k :: 0 <= k < |ts| && Spells(left, ts[..k]) && ts[k] == Op(op) && Spells(right, ts[k + 1..])
    case Call(callee, args, _) => ts != [] && ts[0] == Ident(callee) && SpellsArgs(args, ts[1..])
    case UnitNode => false
    case Block(stmts, _) => ts != [] && ts[0].data == "{" && SpellsStatements(stmts, ts[1..])
    case IfThen(_, _, _) => exists k, j :: IfThenAt(a, ts, k, j)
    case IfElse(_, _, _, _) => exists k, j :: IfElseAt(a, ts, k, j)
    case While(cond, body, _) =>
      exists k :: 0 < k < |ts| && ts[0] == Keyword("while") && Spells(cond, ts[1..k])
                  && ts[k] == Keyword("do") && Spells(body, ts[k + 1..])
    case VarExpr(name, init, decl, _) =>
      var n := DeclEnd(decl);
      n < |ts| && ts[0] == Keyword("var") && ts[1] == Ident(name) && DeclRead(decl, ts) && ts[n] == Op("=") && Spells(init, ts[n + 1..])
  }

  /** The `then` is at k, and the branch ends before j: there is at most one token more. */
  ghost predicate IfThenAt(a: Ast, ts: seq<Token>, k: nat, j: nat)
    requires a.IfThen?
    decreases a, 0
  {
    && 0 < k < j <= |ts| <= j + 1 && ts[0] == Keyword("if") && Spells(a.cond, ts[1..k])
    && ts[k] == Keyword("then") && Spells(a.thn, ts[k + 1..j])
  }

  ghost predicate IfElseAt(a: Ast, ts: seq<Token>, k: nat, j: nat)
    requires a.IfElse?
    decreases a, 0
  {
    && 0 < k < j < |ts| && ts[0] == Keyword("if") && Spells(a.cond, ts[1..k])
    && ts[k] == Keyword("then") && Spells(a.thn, ts[k + 1..j]) && ts[j] == Keyword("else") && Spells(a.els, ts[j + 1..])
  }

  /** Where the `=` of a declaration is; any token at all is taken for a type, even a parenthesis. */
  function DeclEnd(decl: string): nat {
    if decl == "" then 2 else if Paren(Punct(decl)) then 3 else 4
  }

  predicate DeclRead(decl: string, ts: seq<Token>)
    requires DeclEnd(decl) < |ts|
  {
    decl == "" || (ts[2].data == ":" && (Paren(Punct(decl)) || ts[3].data == decl))
  }

  /** Arguments with commas between them, and perhaps other tokens before a comma or the end. */
  ghost predicate SpellsArgs(es: seq<Ast>, ts: seq<Token>)
    decreases es, 1
  {
    if es == [] then ts == [] else exists k, j :: ArgAt(es, ts, k, j)
  }

  /** The first argument ends before k, and the comma is at j. */
  ghost predicate ArgAt(es: seq<Ast>, ts: seq<Token>, k: nat, j: nat)
    requires es != []
    decreases es, 0
  {
    && k <= j <= |ts| && Spells(es[0], ts[..k]) && NoComma(ts[k..j])
    && if j == |ts| then |es| == 1 else Starts(ts[j], ',') && SpellsArgs(es[1..], ts[j + 1..])
  }

  predicate NoComma(ts: seq<Token>) {
    forall i :: 0 <= i < |ts| ==> !Starts(ts[i], ',')
  }

  /** Statements with semicolons between them, and the closing brace; a final UNIT is an empty statement. */
  ghost predicate SpellsStatements(es: seq<Ast>, ts: seq<Token>)
    decreases es
  {
    if es == [] then false
    else if es == [UnitNode] then ts == [Punct("}")]
    else if |es| == 1 then |ts| > 0 && Spells(es[0], ts[..|ts| - 1]) && ts[|ts| - 1] == Punct("}")
    else exists k :: 0 <= k < |ts| && Spells(es[0], ts[..k]) && ts[k] == Punct(";") && SpellsStatements(es[1..], ts[k + 1..])
  }

  function Cut(P: seq<Token>, i: nat): (k: nat)
    ensures k <= |P|
  {
    if i <= |P| then i else |P|
  }

  /** The core of the tokens from c to q; those the parser appended are not the program's. */
  function Read(P: seq<Token>, c: nat, q: nat): seq<Token>
    requires c <= q + 1
  {
    Core(P[Cut(P, c)..Cut(P, q + 1)])
  }

  lemma ReadJoin(P: seq<Token>, c: nat, m: nat, q: nat)
    requires c <= m + 1 && m <= q
    ensures Read(P, c, q) == Read(P, c, m) + Read(P, m + 1, q)
  {
    hide Core;
    var i, k, j := Cut(P, c), Cut(P, m + 1), Cut(P, q + 1);
    CoreJoin(P[i..k], P[k..j]);
    assert P[i..j] == P[i..k] + P[k..j];
  }

  lemma ReadOne(P: seq<Token>, c: nat)
    requires c < |P|
    ensures Read(P, c, c) == if Paren(P[c]) then [] else [P[c]]
  {
    hide Paren;
    assert P[c..c + 1] == [P[c]];
    CoreOne(P[c]);
  }

  lemma CoreOne(t: Token)
    ensures Core([t]) == if Paren(t) then [] else [t]
  {
    hide Paren;
    assert [t][1..] == [] && Core([t][1..]) == [];
  }

  /** A token that is no parenthesis, and what follows it. */
  lemma ReadFirst(P: seq<Token>, c: nat, q: nat)
    requires c < |P| && c <= q
    ensures Read(P, c, q) == (if Paren(P[c]) then [] else [P[c]]) + Read(P, c + 1, q)
  {
    hide Paren, Read;
    ReadOne(P, c);
    ReadJoin(P, c, c, q);
  }

  /** What a parse owes its tokens. */
  ghost predicate Spelled(P: seq<Token>, c: nat, r: Parse) {
    r.Ok? ==> c <= r.cursor && Spells(r.a, Read(P, c, r.cursor))
  }

  lemma {:induction false} ExpressionSpelled(P: seq<Token>, u: nat, c: nat)
    requires Lexed(P)
    ensures Spelled(P, c, ParseExpression(P, u, c))
    decreases Unread(P, c), 30
  {
    hide ParseBinary, Spells, Read;
    BinarySpelled(P, u, c, 0);
  }

  lemma {:induction false} BinarySpelled(P: seq<Token>, u: nat, c: nat, level: nat)
    requires Lexed(P) && level <= LAST_LEVEL
    ensures Spelled(P, c, ParseBinary(P, u, c, level))
    decreases Unread(P, c), 20 - level
  {
    hide ParseFactor, ParseRest, Spells, Read, Lexed;
    if level == LAST_LEVEL {
      FactorSpelled(P, u, c);
      var x := ParseFactor(P, u, c);
      if x.Ok? {
        RestSpelled(P, x.units, c, x.cursor, level, x.a);
      }
    } else {
      BinarySpelled(P, u, c, level + 1);
      var x := ParseBinary(P, u, c, level + 1);
      if x.Ok? {
        RestSpelled(P, x.units, c, x.cursor, level, x.a);
      }
    }
  }

  lemma {:induction false} RestSpelled(P: seq<Token>, u: nat, c: nat, q: nat, level: nat, left: Ast)
    requires Lexed(P) && level <= LAST_LEVEL && c <= q && Spells(left, Read(P, c, q))
    ensures Spelled(P, c, ParseRest(P, u, q, level, left))
    decreases Unread(P, q), 4
  {
    hide ParseFactor, ParseBinary, Spells, Read, Lexed;
    if IsBinaryOpAt(At(P, u, q + 1), level) && At(P, u, q + 2).Some? {
      var right := if level == LAST_LEVEL then ParseFactor(P, u, q + 2) else ParseBinary(P, u, q + 2, level + 1);
      if level == LAST_LEVEL {
        FactorSpelled(P, u, q + 2);
      } else {
        BinarySpelled(P, u, q + 2, level + 1);
      }
      if right.Ok? && IsTerm(left) && IsTerm(right.a) {
        JoinSpelled(P, c, q, right.cursor, left, right.a);
        RestSpelled(P, right.units, c, right.cursor, level, Binary(P[q + 1].data, left, right.a, TError));
      }
    }
  }

  lemma JoinSpelled(P: seq<Token>, c: nat, q: nat, e: nat, left: Ast, right: Ast)
    requires q + 1 < |P| && P[q + 1].kind == OperatorKind && OpLevel(P[q + 1].data).Some?
    requires c <= q && q + 2 <= e && Spells(left, Read(P, c, q)) && Spells(right, Read(P, q + 2, e)) && IsTerm(left) && IsTerm(right)
    ensures Spells(Binary(P[q + 1].data, left, right, TError), Read(P, c, e))
  {
    hide Read;
    var x, y := Read(P, c, q), Read(P, q + 2, e);
    var ts := Read(P, c, e);
    ReadJoin(P, c, q, e);
    ReadFirst(P, q + 1, e);
    NoParen(P[q + 1]);
    assert ts == x + [P[q + 1]] + y;
    assert ts[..|x|] == x && ts[|x|] == Op(P[q + 1].data) && ts[|x| + 1..] == y;
  }

  lemma NoParen(t: Token)
    requires (t.kind == OperatorKind && OpLevel(t.data).Some?) || t.data == "-" || t.data == "not"
    ensures !Paren(t)
  {
  }

  lemma {:induction false} FactorSpelled(P: seq<Token>, u: nat, c: nat)
    requires Lexed(P)
    ensures Spelled(P, c, ParseFactor(P, u, c))
    decreases Unread(P, c), 10
  {
    hide Spells, Read, ParseFunction, ParseUnary, ParseParenthesized, ParseBlock, ParseIf, ParseWhile, ParseVar, IdentifierNode;
    if c < |P| {
      assert LexedToken(P[c]);
      match P[c].kind
      case IdentifierKind =>
        LeafSpelled(P, c);
        if At(P, u, c + 1) == Some(Punct("(")) {
          FunctionSpelled(P, u, c);
        }
      case IntegerKind => LeafSpelled(P, c);
      case OperatorKind =>
        if P[c].data == "-" || P[c].data == "not" {
          UnarySpelled(P, u, c);
        }
      case PunctuationKind =>
        if Starts(P[c], '(') {
          ParenthesizedSpelled(P, u, c);
        }
        BlockSpelled(P, u, c);
      case KeywordKind =>
        IfSpelled(P, u, c);
        WhileSpelled(P, u, c);
        VarSpelled(P, u, c);
      case UnitKind =>
    }
  }

  lemma LeafSpelled(P: seq<Token>, c: nat)
    requires c < |P| && LexedToken(P[c])
    ensures P[c].kind == IdentifierKind ==> Spells(IdentifierNode(P[c].data), Read(P, c, c))
    ensures P[c].kind == IntegerKind ==> Spells(Literal(P[c].data, TError), Read(P, c, c))
  {
    hide Read;
    ReadOne(P, c);
  }

  lemma {:induction false} UnarySpelled(P: seq<Token>, u: nat, c: nat)
    requires Lexed(P) && c < |P| && P[c].kind == OperatorKind && (P[c].data == "-" || P[c].data == "not")
    ensures Spelled(P, c, ParseUnary(P, u, c))
    decreases Unread(P, c), 5
  {
    hide ParseFactor, Read;
    FactorSpelled(P, u, c + 1);
    var x := ParseFactor(P, u, c + 1);
    if x.Ok? {
      NoParen(P[c]);
      ReadFirst(P, c, x.cursor);
      assert Read(P, c, x.cursor)[1..] == Read(P, c + 1, x.cursor);
    }
  }

  lemma {:induction false} ParenthesizedSpelled(P: seq<Token>, u: nat, c: nat)
    requires Lexed(P) && c < |P| && Starts(P[c], '(')
    ensures Spelled(P, c, ParseParenthesized(P, u, c))
    decreases Unread(P, c), 5
  {
    hide ParseBinary, Read, Spells;
    BinarySpelled(P, u, c + 1, 0);
    var x, r := ParseBinary(P, u, c + 1, 0), ParseParenthesized(P, u, c);
    if r.Ok? {
      ReadFirst(P, c, x.cursor);
      if r.cursor > x.cursor {
        ReadJoin(P, c, x.cursor, r.cursor);
        ReadLast(P, r);
      }
      assert [] + Read(P, c + 1, x.cursor) == Read(P, c + 1, x.cursor);
      assert Read(P, c + 1, x.cursor) + [] == Read(P, c + 1, x.cursor);
    }
  }

  lemma ReadLast(P: seq<Token>, r: Parse)
    requires r.Ok? && At(P, r.units, r.cursor).Some? && Starts(At(P, r.units, r.cursor).value, ')')
    ensures Read(P, r.cursor, r.cursor) == []
  {
    if r.cursor < |P| {
      ReadOne(P, r.cursor);
    }
  }

  /** A text in two parts with a keyword between. */
  lemma Parted(P: seq<Token>, c: nat, q: nat, t: Token, e: nat)
    requires c <= q + 1 && q + 1 < |P| && P[q + 1] == t && !Paren(t) && q + 1 <= e
    ensures var ts, x := Read(P, c, e), Read(P, c, q);
            ts == x + [t] + Read(P, q + 2, e) && |x| < |ts| && ts[|x|] == t && ts[..|x|] == x && ts[|x| + 1..] == Read(P, q + 2, e)
  {
    hide Read, Paren;
    ReadJoin(P, c, q, e);
    ReadFirst(P, q + 1, e);
  }

  lemma {:induction false} IfSpelled(P: seq<Token>, u: nat, c: nat)
    requires Lexed(P) && c < |P| && P[c].kind == KeywordKind
    ensures P[c].data == "if" ==> Spelled(P, c, ParseIf(P, u, c))
    decreases Unread(P, c), 5
  {
    hide ParseExpression, ParseElse, Read, Spells, Lexed;
    ExpressionSpelled(P, u, c + 1);
    var x := ParseExpression(P, u, c + 1);
    if x.Ok? && At(P, x.units, x.cursor + 1) == Some(Keyword("then")) {
      ExpressionSpelled(P, x.units, x.cursor + 2);
      var y := ParseExpression(P, x.units, x.cursor + 2);
      if y.Ok? && P[c].data == "if" {
        ElseSpelled(P, y.units, c, x.cursor, y.cursor, x.a, y.a);
      }
    }
  }

  lemma {:induction false} ElseSpelled(P: seq<Token>, u: nat, c: nat, q: nat, e: nat, cond: Ast, thn: Ast)
    requires Lexed(P) && c < q && q + 1 < |P| && q + 2 <= e && P[c] == Keyword("if") && P[q + 1] == Keyword("then")
    requires Spells(cond, Read(P, c + 1, q)) && Spells(thn, Read(P, q + 2, e))
    ensures Spelled(P, c, ParseElse(P, u, e, cond, thn))
    decreases Unread(P, e), 4
  {
    hide ParseExpression, Read, Spells, Lexed;
    var r := ParseElse(P, u, e, cond, thn);
    if r.Ok? {
      if r.a.IfThen? {
        IfThenSpelled(P, c, q, e, r.cursor, cond, thn);
      } else {
        ExpressionSpelled(P, u, e + 2);
        IfElseSpelled(P, c, q, e, r.cursor, cond, thn, r.a.els);
      }
    }
  }

  /** The head of an `if`. */
  lemma IfHead(P: seq<Token>, c: nat, q: nat, e: nat)
    requires c < q && q + 1 < |P| && q + 2 <= e + 1 && P[c] == Keyword("if") && P[q + 1] == Keyword("then")
    ensures var ts, k := Read(P, c, e), 1 + |Read(P, c + 1, q)|;
            && 0 < k < |ts| && ts[0] == Keyword("if") && ts[1..k] == Read(P, c + 1, q) && ts[k] == Keyword("then")
            && ts[k + 1..] == Read(P, q + 2, e)
  {
    hide Read;
    ReadFirst(P, c, e);
    Parted(P, c + 1, q, Keyword("then"), e);
    var ts, x := Read(P, c, e), Read(P, c + 1, q);
    assert ts == [Keyword("if")] + (x + [Keyword("then")] + Read(P, q + 2, e));
  }

  lemma IfThenSpelled(P: seq<Token>, c: nat, q: nat, e: nat, e': nat, cond: Ast, thn: Ast)
    requires c < q && q + 1 < |P| && q + 2 <= e <= e' <= e + 1 && P[c] == Keyword("if") && P[q + 1] == Keyword("then")
    requires Spells(cond, Read(P, c + 1, q)) && Spells(thn, Read(P, q + 2, e))
    ensures Spells(IfThen(cond, thn, TError), Read(P, c, e'))
  {
    hide Read;
    IfHead(P, c, q, e');
    var ts, k, y := Read(P, c, e'), 1 + |Read(P, c + 1, q)|, Read(P, q + 2, e);
    ReadJoin(P, q + 2, e, e');
    AtMostOne(P, e, e');
    var j := k + 1 + |y|;
    assert ts[k + 1..] == y + Read(P, e + 1, e');
    assert ts[k + 1..j] == y;
    SpellsPositive(thn, y);
    assert IfThenAt(IfThen(cond, thn, TError), ts, k, j);
  }

  lemma AtMostOne(P: seq<Token>, e: nat, e': nat)
    requires e <= e' <= e + 1
    ensures |Read(P, e + 1, e')| <= 1
  {
    if e' == e + 1 && e' < |P| {
      ReadOne(P, e');
    }
  }

  lemma SpellsPositive(a: Ast, ts: seq<Token>)
    requires Spells(a, ts)
    ensures ts != []
  {
  }

  lemma IfElseSpelled(P: seq<Token>, c: nat, q: nat, e: nat, e': nat, cond: Ast, thn: Ast, els: Ast)
    requires c < q && q + 1 < |P| && q + 2 <= e && e + 1 < |P| && e + 2 <= e'
    requires P[c] == Keyword("if") && P[q + 1] == Keyword("then") && P[e + 1] == Keyword("else")
    requires Spells(cond, Read(P, c + 1, q)) && Spells(thn, Read(P, q + 2, e)) && Spells(els, Read(P, e + 2, e'))
    ensures Spells(IfElse(cond, thn, els, TError), Read(P, c, e'))
  {
    hide Read, Spells;
    IfHead(P, c, q, e');
    Parted(P, q + 2, e, Keyword("else"), e');
    var ts, k, n := Read(P, c, e'), 1 + |Read(P, c + 1, q)|, |Read(P, q + 2, e)|;
    Behind(ts, k + 1, n);
    IfElseFrom(IfElse(cond, thn, els, TError), ts, k, k + 1 + n);
  }

  lemma Behind(ts: seq<Token>, k: nat, n: nat)
    requires k + n < |ts|
    ensures ts[k..][..n] == ts[k..k + n] && ts[k..][n] == ts[k + n] && ts[k..][n + 1..] == ts[k + n + 1..]
  {
  }

  lemma IfElseFrom(a: Ast, ts: seq<Token>, k: nat, j: nat)
    requires a.IfElse? && IfElseAt(a, ts, k, j)
    ensures Spells(a, ts)
  {
    hide IfElseAt;
  }

  lemma {:induction false} WhileSpelled(P: seq<Token>, u: nat, c: nat)
    requires Lexed(P) && c < |P| && P[c].kind == KeywordKind
    ensures P[c].data == "while" ==> Spelled(P, c, ParseWhile(P, u, c))
    decreases Unread(P, c), 5
  {
    hide ParseExpression, Read, Lexed;
    ExpressionSpelled(P, u, c + 1);
    var x := ParseExpression(P, u, c + 1);
    if x.Ok? && At(P, x.units, x.cursor + 1) == Some(Keyword("do")) {
      ExpressionSpelled(P, x.units, x.cursor + 2);
      var y := ParseExpression(P, x.units, x.cursor + 2);
      if y.Ok? && P[c].data == "while" {
        ReadFirst(P, c, y.cursor);
        Parted(P, c + 1, x.cursor, Keyword("do"), y.cursor);
        var ts, k := Read(P, c, y.cursor), 1 + |Read(P, c + 1, x.cursor)|;
        assert ts[1..k] == Read(P, c + 1, x.cursor) && ts[k + 1..] == Read(P, x.cursor + 2, y.cursor);
      }
    }
  }

  lemma {:induction false} VarSpelled(P: seq<Token>, u: nat, c: nat)
    requires Lexed(P) && c < |P| && P[c].kind == KeywordKind
    ensures P[c].data == "var" ==> Spelled(P, c, ParseVar(P, u, c))
    decreases Unread(P, c), 5
  {
    hide ParseExpression, Read, Spells, Paren;
    ExpressionSpelled(P, u, c + 3);
    ExpressionSpelled(P, u, c + 5);
    var r := ParseVar(P, u, c);
    if r.Ok? && P[c].data == "var" {
      assert LexedToken(P[c + 1]);
      if P[c + 2].data == ":" {
        assert LexedToken(P[c + 3]);
        TypedSpelled(P, c, r.cursor, r.a);
      } else {
        UntypedSpelled(P, c, r.cursor, r.a);
      }
    }
  }

  lemma UntypedSpelled(P: seq<Token>, c: nat, e: nat, a: Ast)
    requires c + 3 <= e && c + 2 < |P| && P[c] == Keyword("var") && a.VarExpr? && P[c + 1] == Ident(a.name) && P[c + 2] == Op("=")
    requires a.decl == "" && LexedToken(P[c + 1]) && Spells(a.init, Read(P, c + 3, e))
    ensures Spells(a, Read(P, c, e))
  {
    hide Read;
    ReadFirst(P, c, e);
    ReadFirst(P, c + 1, e);
    ReadFirst(P, c + 2, e);
    var ts := Read(P, c, e);
    assert ts == [P[c], P[c + 1], P[c + 2]] + Read(P, c + 3, e);
    assert ts[3..] == Read(P, c + 3, e);
  }

  lemma TypedSpelled(P: seq<Token>, c: nat, e: nat, a: Ast)
    requires c + 5 <= e && c + 4 < |P| && P[c] == Keyword("var") && a.VarExpr? && P[c + 1] == Ident(a.name) && P[c + 2].data == ":"
    requires P[c + 3].data == a.decl && P[c + 4] == Op("=") && Spells(a.init, Read(P, c + 5, e))
    requires LexedToken(P[c + 1]) && LexedToken(P[c + 3])
    ensures Spells(a, Read(P, c, e))
  {
    hide Read;
    ReadFirst(P, c, e);
    ReadFirst(P, c + 1, e);
    ReadFirst(P, c + 2, e);
    ReadFirst(P, c + 3, e);
    ReadFirst(P, c + 4, e);
    var ts, rest := Read(P, c, e), Read(P, c + 5, e);
    if Paren(P[c + 3]) {
      assert ts == [P[c], P[c + 1], P[c + 2], P[c + 4]] + rest;
      assert ts[4..] == rest;
    } else {
      assert ts == [P[c], P[c + 1], P[c + 2], P[c + 3], P[c + 4]] + rest;
      assert ts[5..] == rest;
    }
  }

  lemma {:induction false} BlockSpelled(P: seq<Token>, u: nat, c: nat)
    requires Lexed(P) && c < |P|
    ensures Spelled(P, c, ParseBlock(P, u, c))
    decreases Unread(P, c), 5
  {
    hide ParseStatements, Read, SpellsStatements;
    StatementsSpelled(P, u, c);
    var r := ParseStatements(P, u, c);
    if r.OkList? && P[c].data == "{" {
      ReadFirst(P, c, r.cursor);
      assert Read(P, c, r.cursor)[1..] == Read(P, c + 1, r.cursor);
    }
  }

  lemma {:induction false} StatementsSpelled(P: seq<Token>, u: nat, c: nat)
    requires Lexed(P) && c < |P|
    ensures var r := ParseStatements(P, u, c);
            r.OkList? ==> c < r.cursor && SpellsStatements(r.es, Read(P, c + 1, r.cursor)) && r.es != [] && !r.es[0].UnitNode?
    decreases Unread(P, c), 4
  {
    hide ParseExpression, ParseStatements, Spells, SpellsStatements, Read, Lexed;
    StatementsUnfold(P, u, c);
    ExpressionSpelled(P, u, c + 1);
    var x := ParseExpression(P, u, c + 1);
    if x.Ok? {
      NotUnit(x.a, Read(P, c + 1, x.cursor));
      var next := At(P, x.units, x.cursor + 1);
      if next == Some(Punct("}")) {
        LastStatement(P, c + 1, x.cursor, x.a);
      } else if next == Some(Punct(";")) {
        if At(P, x.units, x.cursor + 2) == Some(Punct("}")) {
          ReadOne(P, x.cursor + 2);
          UnitStatement(P[x.cursor + 2..x.cursor + 3]);
          MoreStatements(P, c + 1, x.cursor, x.cursor + 2, x.a, [UnitNode]);
          assert [x.a] + [UnitNode] == [x.a, UnitNode];
        } else {
          StatementsSpelled(P, x.units, x.cursor + 1);
          var rest := ParseStatements(P, x.units, x.cursor + 1);
          if rest.OkList? {
            MoreStatements(P, c + 1, x.cursor, rest.cursor, x.a, rest.es);
          }
        }
      }
    }
  }

  lemma NotUnit(a: Ast, ts: seq<Token>)
    requires Spells(a, ts)
    ensures !a.UnitNode?
  {
  }

  lemma UnitStatement(ts: seq<Token>)
    ensures SpellsStatements([UnitNode], [Punct("}")])
  {
  }

  lemma LastStatement(P: seq<Token>, c: nat, q: nat, a: Ast)
    requires c <= q && q + 1 < |P| && P[q + 1] == Punct("}") && Spells(a, Read(P, c, q)) && !a.UnitNode?
    ensures SpellsStatements([a], Read(P, c, q + 1))
  {
    hide Read, Spells;
    Parted(P, c, q, Punct("}"), q + 1);
    ReadNone(P, q + 2);
    var ts := Read(P, c, q + 1);
    assert ts == Read(P, c, q) + [Punct("}")];
  }

  lemma ReadNone(P: seq<Token>, c: nat)
    requires c > 0
    ensures Read(P, c, c - 1) == []
  {
    assert c <= |P| ==> P[c..c] == [];
  }

  lemma MoreStatements(P: seq<Token>, c: nat, q: nat, e: nat, a: Ast, es: seq<Ast>)
    requires c <= q && q + 1 < |P| && q + 2 <= e && P[q + 1] == Punct(";") && Spells(a, Read(P, c, q)) && es != []
    requires SpellsStatements(es, Read(P, q + 2, e))
    ensures SpellsStatements([a] + es, Read(P, c, e))
  {
    hide Read, Spells;
    Parted(P, c, q, Punct(";"), e);
    assert ([a] + es)[1..] == es;
  }

  lemma {:induction false} FunctionSpelled(P: seq<Token>, u: nat, c: nat)
    requires Lexed(P) && c < |P| && P[c].kind == IdentifierKind && At(P, u, c + 1) == Some(Punct("("))
    ensures Spelled(P, c, ParseFunction(P, u, c))
    decreases Unread(P, c), 5
  {
    hide ParseArgs, SpellsArgs, Read;
    ArgsSpelled(P, u, c + 2);
    var r := ParseArgs(P, u, c + 2);
    if r.OkList? && At(P, u, c + 2).Some? {
      assert LexedToken(P[c]);
      ReadFirst(P, c, r.cursor);
      ReadFirst(P, c + 1, r.cursor);
      assert Read(P, c, r.cursor)[1..] == Read(P, c + 2, r.cursor);
    }
  }

  lemma {:induction false} ArgsSpelled(P: seq<Token>, u: nat, c: nat)
    requires Lexed(P)
    ensures var r := ParseArgs(P, u, c); r.OkList? ==> c <= r.cursor && SpellsArgs(r.es, Read(P, c, r.cursor))
    decreases Unread(P, c), 40
  {
    hide ParseExpression, ParseArgs, Spells, SpellsArgs, Read, Lexed, SkipToSeparator;
    ArgsUnfold(P, u, c);
    ExpressionSpelled(P, u, c);
    var x, r := ParseExpression(P, u, c), ParseArgs(P, u, c);
    if r.OkList? {
      if Starts(At(P, u, c).value, ')') {
        NoArgsSpelled(P, u, c);
      } else {
        var s := SkipToSeparator(P, x.cursor + 1).value;
        SkippedPlain(P, x.cursor + 1);
        if Starts(P[s], ')') {
          LastArg(P, c, x.cursor, s, x.a);
        } else {
          ArgsSpelled(P, x.units, s + 1);
          MoreArgs(P, c, x.cursor, s, r.cursor, x.a, ParseArgs(P, x.units, s + 1).es);
        }
      }
    }
  }

  lemma NoArgsSpelled(P: seq<Token>, u: nat, c: nat)
    requires At(P, u, c).Some? && Starts(At(P, u, c).value, ')')
    ensures SpellsArgs([], Read(P, c, c))
  {
    if c < |P| {
      ReadOne(P, c);
    }
  }

  /** The walk to the separator passes none. */
  lemma {:induction false} SkippedPlain(P: seq<Token>, c: nat)
    requires SkipToSeparator(P, c).Some?
    ensures var s := SkipToSeparator(P, c).value; forall i :: c <= i < s ==> !Starts(P[i], ',')
    decreases Unread(P, c)
  {
    if !(Starts(P[c], ',') || Starts(P[c], ')')) {
      SkippedPlain(P, c + 1);
    }
  }

  lemma {:induction false} CorePlain(ts: seq<Token>)
    requires NoComma(ts)
    ensures NoComma(Core(ts))
  {
    if ts != [] {
      CorePlain(ts[1..]);
    }
  }

  lemma JunkPlain(P: seq<Token>, q: nat, s: nat)
    requires q < s < |P| && forall i :: q + 1 <= i < s ==> !Starts(P[i], ',')
    ensures NoComma(Read(P, q + 1, s - 1))
  {
    var junk := P[q + 1..s];
    assert NoComma(junk);
    CorePlain(junk);
  }

  lemma LastArg(P: seq<Token>, c: nat, q: nat, s: nat, a: Ast)
    requires c <= q < s < |P| && Starts(P[s], ')') && Spells(a, Read(P, c, q))
    requires forall i :: q + 1 <= i < s ==> !Starts(P[i], ',')
    ensures SpellsArgs([a], Read(P, c, s))
  {
    hide Read, Spells, NoComma;
    var ts, x, junk := Read(P, c, s), Read(P, c, q), Read(P, q + 1, s - 1);
    ReadJoin(P, c, q, s);
    ReadJoin(P, q + 1, s - 1, s);
    ReadOne(P, s);
    JunkPlain(P, q, s);
    assert ts == x + (junk + []);
    assert ts[..|x|] == x && ts[|x|..|ts|] == junk;
    assert ArgAt([a], ts, |x|, |ts|);
  }

  lemma MoreArgs(P: seq<Token>, c: nat, q: nat, s: nat, e: nat, a: Ast, es: seq<Ast>)
    requires c <= q < s < |P| && s + 1 <= e && Starts(P[s], ',') && Spells(a, Read(P, c, q))
    requires forall i :: q + 1 <= i < s ==> !Starts(P[i], ',')
    requires SpellsArgs(es, Read(P, s + 1, e))
    ensures SpellsArgs([a] + es, Read(P, c, e))
  {
    hide Read, Spells, NoComma, SpellsArgs;
    var ts, x, junk, y := Read(P, c, e), Read(P, c, q), Read(P, q + 1, s - 1), Read(P, s + 1, e);
    ReadJoin(P, c, q, e);
    ReadJoin(P, q + 1, s - 1, e);
    ReadFirst(P, s, e);
    JunkPlain(P, q, s);
    assert ts == x + (junk + ([P[s]] + y));
    FourParts(x, junk, P[s], y);
    ArgsFrom([a] + es, ts, |x|, |x| + |junk|) by {
      assert ([a] + es)[1..] == es;
    }
  }

  lemma FourParts(x: seq<Token>, junk: seq<Token>, t: Token, y: seq<Token>)
    ensures var ts, j := x + (junk + ([t] + y)), |x| + |junk|;
            j < |ts| && ts[..|x|] == x && ts[|x|..j] == junk && ts[j] == t && ts[j + 1..] == y
  {
  }

  lemma ArgsFrom(es: seq<Ast>, ts: seq<Token>, k: nat, j: nat)
    requires es != [] && ArgAt(es, ts, k, j)
    ensures SpellsArgs(es, ts)
  {
    hide ArgAt;
  }

  /** Whatever program the parser accepts, the tokens it has read spell it. */
  lemma ProgramSpelled(P: seq<Token>)
    requires Lexed(P) && ParseProgram(P).Ok?
    ensures var r := ParseProgram(P); Spells(r.a, Core(if r.cursor < |P| then P[..r.cursor + 1] else P))
  {
    hide ParseExpression, Spells, Core, Lexed;
    ExpressionSpelled(P, 0, 0);
    var r := ParseProgram(P);
    assert P[0..] == P && (r.cursor < |P| ==> P[0..r.cursor + 1] == P[..r.cursor + 1]);
    assert P[0..|P|] == P;
  }

  /** The walk to the separator at work: a token behind an argument is passed over, and so is a comma before the end. */
  lemma CallQuirks(f: string, x: string, junk: Token)
    requires Name(f) && Name(x) && x != "true" && x != "false"
    requires junk.kind != OperatorKind && !Starts(junk, ',') && !Starts(junk, ')') && junk != Punct("(")
    ensures var call := Call(f, [Identifier(x, TError)], TError);
            && ParseProgram([Ident(f), Punct("("), Ident(x), junk, Punct(")")]) == Ok(call, 4, 0)
            && ParseProgram([Ident(f), Punct("("), Ident(x), Punct(","), Punct(")")]) == Ok(call, 4, 0)
  {
    hide ParseExpression;
    var P, Q := [Ident(f), Punct("("), Ident(x), junk, Punct(")")], [Ident(f), Punct("("), Ident(x), Punct(","), Punct(")")];
    LeafHere(P, 2);
    LeafHere(Q, 2);
    SkipOver(P);
    OneArgument(P, f, x, 4);
    OneArgument(Q, f, x, 3);
  }

  lemma SkipOver(P: seq<Token>)
    requires |P| == 5 && !Starts(P[3], ',') && !Starts(P[3], ')') && Starts(P[4], ')')
    ensures SkipToSeparator(P, 3) == Some(4)
  {
    assert SkipToSeparator(P, 4) == Some(4);
  }

  lemma OneArgument(P: seq<Token>, f: string, x: string, s: nat)
    requires |P| == 5 && P[0] == Ident(f) && P[1] == Punct("(") && P[2] == Ident(x) && P[4] == Punct(")")
    requires ParseExpression(P, 0, 2) == Ok(Identifier(x, TError), 2, 0) && SkipToSeparator(P, 3) == Some(s)
    requires Name(x) && (s == 4 || (s == 3 && P[3] == Punct(",")))
    ensures ParseProgram(P) == Ok(Call(f, [Identifier(x, TError)], TError), 4, 0)
  {
    hide ParseExpression, SkipToSeparator;
    ArgsUnfold(P, 0, 2);
    ArgsUnfold(P, 0, 4);
    assert ParseFactor(P, 0, 0) == ParseFunction(P, 0, 0);
    assert ParseArgs(P, 0, 2) == OkList([Identifier(x, TError)], 4, 0);
    FromFactor(P, 0);
  }

  /** An `else` at the very end is taken, and there is no branch for it. */
  lemma ElseAtEnd(x: string, y: string)
    requires Name(x) && Name(y) && x != "true" && x != "false" && y != "true" && y != "false"
    ensures ParseProgram([Keyword("if"), Ident(x), Keyword("then"), Ident(y), Keyword("else")])
            == Ok(IfThen(Identifier(x, TError), Identifier(y, TError), TError), 4, 0)
  {
    hide ParseExpression;
    var P := [Keyword("if"), Ident(x), Keyword("then"), Ident(y), Keyword("else")];
    LeafHere(P, 1);
    LeafHere(P, 3);
    assert ParseFactor(P, 0, 0) == ParseIf(P, 0, 0);
    FromFactor(P, 0);
  }

  /** A block needs a first statement. */
  lemma EmptyBlockRefused()
    ensures ParseProgram([Punct("{"), Punct("}")]).Fail?
  {
    hide ParseStatements;
    var P := [Punct("{"), Punct("}")];
    StatementsUnfold(P, 0, 0);
    assert ParseFactor(P, 0, 1).Fail?;
    FromFactor(P, 1);
    assert ParseFactor(P, 0, 0) == ParseBlock(P, 0, 0);
    FromFactor(P, 0);
  }
}
