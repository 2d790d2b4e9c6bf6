/**
 The parser as the source writes it (parser.c:38-48, 180-637): a token vector that grows while it is read, and
 a cursor moved in place.  Every method is proved against the function of the same name in ParserSpec, in all
 outcomes; None stands for every way the code gives up.
*/
module Parser {
  import opened Words
  import opened Syntax
  import opened Ir
  import opened Tokens
  import opened ParserSpec
  import opened NodeList
  import opened Allocation

  lemma AfterAfter(es: seq<Ast>, e: Ast, rest: ParseList)
    ensures After(es + [e], rest) == After(es, After([e], rest))
  {
    if rest.OkList? {
      assert es + [e] + rest.es == es + ([e] + rest.es);
    }
  }

  /** Tokens as the tokenizer makes them: only punctuation starts with a comma; names start with a letter, numbers with a digit. */
  predicate LexedToken(t: Token) {
    && t.data != "" && (t.kind != PunctuationKind ==> !Starts(t, ','))
    && (t.kind == IdentifierKind ==> Name(t.data)) && (t.kind == IntegerKind ==> IsDigit(t.data[0]))
  }

  predicate Lexed(prog: seq<Token>) {
    forall i :: 0 <= i < |prog| ==> LexedToken(prog[i])
  }

  lemma BinaryUnfolds(P: seq<Token>, u: nat, c: nat, level: nat)
    requires level <= LAST_LEVEL
    ensures var left := if level == LAST_LEVEL then ParseFactor(P, u, c) else ParseBinary(P, u, c, level + 1);
            ParseBinary(P, u, c, level) == if left.Fail? then Fail else ParseRest(P, left.units, left.cursor, level, left.a)
  {
    hide ParseFactor, ParseRest;
  }

  /** The end of the precedence loop, and one turn of it. */
  lemma RestUnfolds(P: seq<Token>, u: nat, c: nat, level: nat, left: Ast)
    requires level <= LAST_LEVEL
    ensures !IsBinaryOpAt(At(P, u, c + 1), level) ==> ParseRest(P, u, c, level, left) == Ok(left, c, u)
    ensures IsBinaryOpAt(At(P, u, c + 1), level) && At(P, u, c + 2).None? ==> ParseRest(P, u, c, level, left) == Fail
    ensures IsBinaryOpAt(At(P, u, c + 1), level) && At(P, u, c + 2).Some? ==>
              var right := if level == LAST_LEVEL then ParseFactor(P, u, c + 2) else ParseBinary(P, u, c + 2, level + 1);
              ParseRest(P, u, c, level, left)
              == if right.Fail? || !IsTerm(left) || !IsTerm(right.a) then Fail
                 else ParseRest(P, right.units, right.cursor, level, Binary(At(P, u, c + 1).value.data, left, right.a, TError))
  {
    hide ParseFactor, ParseBinary, OpLevel;
  }

  /** No expression starts with a comma. */
  lemma {:induction false} CommaFails(P: seq<Token>, u: nat, c: nat, level: nat)
    requires c < |P| && P[c].kind == PunctuationKind && Starts(P[c], ',') && level <= LAST_LEVEL
    ensures ParseBinary(P, u, c, level).Fail?
    decreases LAST_LEVEL - level
  {
    hide ParseRest, ParseFunction;
    if level < LAST_LEVEL {
      CommaFails(P, u, c, level + 1);
    }
  }

  lemma ArgumentStart(P: seq<Token>, u: nat, c: nat)
    requires Lexed(P) && ParseExpression(P, u, c).Ok?
    ensures At(P, u, c).Some? ==> !Starts(At(P, u, c).value, ',')
  {
    if c < |P| && P[c].kind == PunctuationKind && Starts(P[c], ',') {
      CommaFails(P, u, c, 0);
    }
  }

  /** Every token but UNIT is the program's own. */
  lemma OwnToken(P: seq<Token>, u: nat, i: nat)
    requires At(P, u, i).Some? && At(P, u, i).value.kind != UnitKind
    ensures i < |P| && P[i] == At(P, u, i).value
  {
  }

  lemma OwnIndex(P: seq<Token>, u: nat, i: nat)
    requires i < |P|
    ensures At(P, u, i) == Some(P[i])
  {
  }

  /** A vector holding the program's tokens and after them UNIT tokens only. */
  predicate Extends(tokens: seq<Token>, prog: seq<Token>) {
    forall i :: 0 <= i < |tokens| ==> tokens[i] == if i < |prog| then prog[i] else UNIT_TOKEN
  }

  class Parser {
    ghost const prog: seq<Token>  // the program's own tokens
    var tokens: seq<Token>        // the same, then the UNIT tokens appended so far
    var cursor: nat
    var created: nat              // nodes allocated so far (cabor_allocate_ast_node)

    ghost predicate Valid()
      reads this
    {
      |prog| <= |tokens| && Extends(tokens, prog) && Lexed(prog)
    }

    ghost function Units(): nat
      reads this
    {
      if |tokens| < |prog| then 0 else |tokens| - |prog|
    }

    /** The call gave what the specification gives from the old cursor and the old vector. */
    ghost predicate Agrees(r: Option<Parsed>, spec: Parse)
      reads this
    {
      && Valid()
      && match r
         case Some(p) => spec == Ok(p.a, cursor, Units())
         case None => spec == Fail
    }

    ghost predicate AgreesList(r: Option<ParsedList>, spec: ParseList)
      reads this
    {
      && Valid()
      && match r
         case Some(ps) => spec == OkList(ps.es, cursor, Units())
         case None => spec == FailList
    }

    constructor (tokens: seq<Token>)
      requires Lexed(tokens)
      ensures Valid() && prog == tokens && Units() == 0 && cursor == 0 && created == 0
    {
      prog, this.tokens, cursor, created := tokens, tokens, 0, 0;
    }

    /** cabor_allocate_ast_node: a node at a new address, its edges allocated before. */
    method Allocate(edges: seq<Node>) returns (n: Node)
      modifies this`created
      ensures n == Node(old(created), edges) && created == old(created) + 1
    {
      n := Node(created, edges);
      created := created + 1;
    }

    method Here() returns (t: Token)
      requires Valid() && cursor < |prog|
      ensures t == prog[cursor]
    {
      t := tokens[cursor];
    }

    /** The token after the cursor, without moving. */
    method Peek(ahead: nat) returns (t: Option<Token>)
      requires Valid()
      ensures t == At(prog, Units(), cursor + ahead)
    {
      t := if cursor + ahead < |tokens| then Some(tokens[cursor + ahead]) else None;
    }

    /** Moves to the next token; at the end of the vector the cursor stays. */
    method Next() returns (t: Option<Token>)
      requires Valid()
      modifies this`cursor
      ensures t == At(prog, Units(), old(cursor) + 1)
      ensures cursor == if t.Some? then old(cursor) + 1 else old(cursor)
    {
      t := None;
      if cursor + 1 < |tokens| {
        cursor := cursor + 1;
        t := Some(tokens[cursor]);
      }
    }

    method PushUnit()
      requires Valid()
      modifies this`tokens
      ensures Valid() && tokens == old(tokens) + [UNIT_TOKEN]
    {
      tokens := tokens + [UNIT_TOKEN];
    }

    method Expression() returns (r: Option<Parsed>)
      requires Valid()
      modifies this
      ensures Agrees(r, ParseExpression(prog, old(Units()), old(cursor)))
      ensures r.Some? ==> Built(r.value, old(created), created)
      decreases Unread(prog, cursor), 50
    {
      r := BinaryExpression(0);
    }

    /** The precedence climber: operands of the next level, joined from the left. */
    method BinaryExpression(level: nat) returns (r: Option<Parsed>)
      requires Valid() && level <= LAST_LEVEL
      modifies this
      ensures Agrees(r, ParseBinary(prog, old(Units()), old(cursor), level))
      ensures r.Some? ==> Built(r.value, old(created), created)
      decreases Unread(prog, cursor), 40 - 2 * level
    {
      hide OpLevel, ParseFactor, ParseBinary, ParseRest, Extends, Lexed, Built, At;
      ghost var spec := ParseBinary(prog, Units(), cursor, level);
      BinaryUnfolds(prog, Units(), cursor, level);
      r := Operand(level);
      if r.None? {
        return;
      }
      var left := r.value;
      var ahead := Peek(1);
      while IsBinaryOpAt(ahead, level)
        invariant Valid() && cursor >= old(cursor) && ahead == At(prog, Units(), cursor + 1)
        invariant spec == ParseRest(prog, Units(), cursor, level, left.a)
        invariant Built(left, old(created), created)
        decreases Unread(prog, cursor)
      {
        RestUnfolds(prog, Units(), cursor, level, left.a);
        OwnToken(prog, Units(), cursor + 1);
        var op := Next();
        var more := Next();
        if more.None? {
          return None;
        }
        ghost var mid := created;
        var right := Operand(level);
        if right.None? || !IsTerm(left.a) || !IsTerm(right.value.a) {
          return None;
        }
        BuiltBinary(op.value.data, left, right.value, old(created), mid, created);
        var n := Allocate([left.n, right.value.n]);
        left := Parsed(Binary(op.value.data, left.a, right.value.a, TError), n);
        ahead := Peek(1);
      }
      RestUnfolds(prog, Units(), cursor, level, left.a);
      r := Some(left);
    }

    /** An operand of the operators of this level. */
    method Operand(level: nat) returns (r: Option<Parsed>)
      requires Valid() && level <= LAST_LEVEL
      modifies this
      ensures Agrees(r, if level == LAST_LEVEL then ParseFactor(prog, old(Units()), old(cursor))
                        else ParseBinary(prog, old(Units()), old(cursor), level + 1))
      ensures r.Some? ==> Built(r.value, old(created), created)
      decreases Unread(prog, cursor), 39 - 2 * level
    {
      if level == LAST_LEVEL {
        r := Factor();
      } else {
        r := BinaryExpression(level + 1);
      }
    }

    method Factor() returns (r: Option<Parsed>)
      requires Valid()
      modifies this
      ensures Agrees(r, ParseFactor(prog, old(Units()), old(cursor)))
      ensures r.Some? ==> Built(r.value, old(created), created)
      decreases Unread(prog, cursor), 10
    {
      hide Extends, Lexed, ParseFunction, ParseUnary, ParseParenthesized, ParseBlock, ParseIf, ParseWhile, ParseVar;
      r := None;
      var here := Peek(0);
      if here.Some? {
        var token := here.value;
        match token.kind
        case IdentifierKind =>
          var next := Peek(1);
          if next == Some(Punct("(")) {
            r := Function();
          } else {
            BuiltLeaf(IdentifierNode(token.data), created);
            var n := Allocate([]);
            r := Some(Parsed(IdentifierNode(token.data), n));
          }
        case IntegerKind =>
          BuiltLeaf(Literal(token.data, TError), created);
          var n := Allocate([]);
          r := Some(Parsed(Literal(token.data, TError), n));
        case OperatorKind =>
          if token.data == "-" || token.data == "not" {
            r := UnaryExpression();
          }
        case PunctuationKind =>
          if Starts(token, '(') {
            r := Parenthesized();
          } else if Starts(token, '{') {
            r := BlockExpression();
          }
        case KeywordKind =>
          if token.data == "if" {
            r := IfThenElse();
          } else if token.data == "while" {
            r := WhileExpression();
          } else if token.data == "var" {
            r := VarExpression();
          }
        case UnitKind =>
      }
    }

    method UnaryExpression() returns (r: Option<Parsed>)
      requires Valid() && cursor < |prog|
      modifies this
      ensures Agrees(r, ParseUnary(prog, old(Units()), old(cursor)))
      ensures r.Some? ==> Built(r.value, old(created), created)
      decreases Unread(prog, cursor), 5
    {
      hide Extends, Lexed, ParseFactor;
      var op := Here();
      var more := Next();
      if more.None? {
        return None;
      }
      r := Factor();
      if r.Some? {
        BuiltUnary(op.data, r.value, old(created), created);
        var n := Allocate([r.value.n]);
        r := Some(Parsed(Unary(op.data, r.value.a, TError), n));
      }
    }

    method Parenthesized() returns (r: Option<Parsed>)
      requires Valid() && cursor < |prog|
      modifies this
      ensures Agrees(r, ParseParenthesized(prog, old(Units()), old(cursor)))
      ensures r.Some? ==> Built(r.value, old(created), created)
      decreases Unread(prog, cursor), 5
    {
      hide Extends, Lexed, ParseBinary;
      var more := Next();
      if more.None? {
        return None;
      }
      r := BinaryExpression(0);
      if r.Some? {
        var _ := Next();
        var close := Peek(0);
        if close.None? || !Starts(close.value, ')') {
          r := None;
        }
      }
    }

    method BlockExpression() returns (r: Option<Parsed>)
      requires Valid() && cursor < |prog|
      modifies this
      ensures Agrees(r, ParseBlock(prog, old(Units()), old(cursor)))
      ensures r.Some? ==> Built(r.value, old(created), created)
      decreases Unread(prog, cursor), 5
    {
      hide Extends, Lexed, ParseStatements, At;
      var open := Here();
      if open.data != "{" {
        return None;
      }
      var edges := Statements();
      if edges.None? || |edges.value.es| > MAX_EDGES {
        return None;
      }
      BuiltBlock(edges.value, old(created), created);
      var n := Allocate(edges.value.ns);
      r := Some(Parsed(Block(edges.value.es, TError), n));
    }

    /** The loop of the block: from its brace to the closing one. */
    method Statements() returns (edges: Option<ParsedList>)
      requires Valid() && cursor < |prog|
      modifies this
      ensures AgreesList(edges, ParseStatements(prog, old(Units()), old(cursor)))
      ensures edges.Some? ==> BuiltAll(edges.value, old(created), created)
      decreases Unread(prog, cursor), 4
    {
      hide Built, BuiltAll, Extends, Lexed, ParseExpression, ParseStatements, At;
      ghost var spec := ParseStatements(prog, Units(), cursor);
      var done := ParsedList([], []);
      assert After([], spec) == spec;
      BuiltNone(created);
      while true
        invariant Valid() && old(cursor) <= cursor < |prog|
        invariant spec == After(done.es, ParseStatements(prog, Units(), cursor))
        invariant BuiltAll(done, old(created), created)
        decreases Unread(prog, cursor)
      {
        StatementsUnfold(prog, Units(), cursor);
        var token := Next();
        if token.None? {
          return None;
        }
        ghost var mid := created;
        var expr := Expression();
        if expr.None? {
          return None;
        }
        token := Next();
        BuiltMore(done, expr.value, old(created), mid, created);
        ghost var before := done.es;
        done := ParsedList(done.es + [expr.value.a], done.ns + [expr.value.n]);
        if token == Some(Punct("}")) {
          return Some(done);
        }
        if token != Some(Punct(";")) {
          return None;
        }
        OwnToken(prog, Units(), cursor);
        var next := Peek(1);
        if next == Some(Punct("}")) {
          // `;}` makes the block UNIT: a UNIT token is appended for its last edge
          OwnToken(prog, Units(), cursor + 1);
          done := EndInUnit(done, old(created));
          assert before + [expr.value.a] + [UnitNode] == before + [expr.value.a, UnitNode];
          return Some(done);
        }
        AfterAfter(before, expr.value.a, ParseStatements(prog, Units(), cursor));
      }
    }

    /** The UNIT statement of a block that ends in `;}`, and the closing brace. */
    method EndInUnit(done: ParsedList, ghost lo: nat) returns (all: ParsedList)
      requires Valid() && cursor + 1 < |prog| && BuiltAll(done, lo, created)
      modifies this
      ensures Valid() && Units() == old(Units()) + 1 && cursor == old(cursor) + 1
      ensures all.es == done.es + [UnitNode] && BuiltAll(all, lo, created)
    {
      hide BuiltAll, Built;
      PushUnit();
      OwnIndex(prog, Units(), cursor + 1);
      var _ := Next();
      BuiltLeaf(UnitNode, created);
      BuiltMore(done, Parsed(UnitNode, Node(created, [])), lo, created, created + 1);
      var unit := Allocate([]);
      all := ParsedList(done.es + [UnitNode], done.ns + [unit]);
    }

    method IfThenElse() returns (r: Option<Parsed>)
      requires Valid() && cursor < |prog|
      modifies this
      ensures Agrees(r, ParseIf(prog, old(Units()), old(cursor)))
      ensures r.Some? ==> Built(r.value, old(created), created)
      decreases Unread(prog, cursor), 5
    {
      hide Built, Extends, Lexed, ParseExpression, At;
      var token := Next();
      if token.None? {
        return None;
      }
      var cond := Expression();
      if cond.None? {
        return None;
      }
      token := Next();
      if token != Some(Keyword("then")) {
        return None;
      }
      token := Next();
      if token.None? {
        return None;
      }
      ghost var l := created;
      var thn := Expression();
      if thn.None? {
        return None;
      }
      r := ElseBranch(cond.value, thn.value, old(created), l);
    }

    /** What follows the branch of an `if`: its else-branch, or one step too far. */
    method ElseBranch(cond: Parsed, thn: Parsed, ghost lo: nat, ghost l: nat) returns (r: Option<Parsed>)
      requires Valid() && Built(cond, lo, l) && Built(thn, l, created)
      modifies this
      ensures Agrees(r, ParseElse(prog, old(Units()), old(cursor), cond.a, thn.a))
      ensures r.Some? ==> Built(r.value, lo, created)
      decreases Unread(prog, cursor), 31
    {
      hide Built, Extends, Lexed, ParseExpression, At;
      ghost var m := created;
      var token := Next();
      if token == Some(Keyword("else")) {
        OwnToken(prog, Units(), cursor);
        token := Next();
        if token.Some? {
          var els := Expression();
          if els.None? {
            return None;
          }
          BuiltIfElse(cond, thn, els.value, lo, l, m, created);
          var n := Allocate([cond.n, thn.n, els.value.n]);
          return Some(Parsed(IfElse(cond.a, thn.a, els.value.a, TError), n));
        }
      }
      BuiltIfThen(cond, thn, lo, l, created);
      var n := Allocate([cond.n, thn.n]);
      r := Some(Parsed(IfThen(cond.a, thn.a, TError), n));
    }

    method WhileExpression() returns (r: Option<Parsed>)
      requires Valid() && cursor < |prog|
      modifies this
      ensures Agrees(r, ParseWhile(prog, old(Units()), old(cursor)))
      ensures r.Some? ==> Built(r.value, old(created), created)
      decreases Unread(prog, cursor), 5
    {
      hide Built, Extends, Lexed, ParseExpression, At;
      var token := Next();
      if token.None? {
        return None;
      }
      var cond := Expression();
      if cond.None? {
        return None;
      }
      token := Next();
      if token != Some(Keyword("do")) {
        return None;
      }
      token := Next();
      if token.None? {
        return None;
      }
      ghost var mid := created;
      var body := Expression();
      if body.None? {
        return None;
      }
      BuiltWhile(cond.value, body.value, old(created), mid, created);
      var n := Allocate([cond.value.n, body.value.n]);
      r := Some(Parsed(While(cond.value.a, body.value.a, TError), n));
    }

    /** An optional colon and type after a variable's name; then the token that should be `=`. */
    method TypeDeclaration(first: Token) returns (declared: bool, decl: string, next: Option<Token>)
      requires Valid() && At(prog, Units(), cursor) == Some(first)
      modifies this`cursor
      ensures declared == (first.data == ":") && (!declared ==> decl == "")
      ensures next == At(prog, Units(), if declared then old(cursor) + 2 else old(cursor))
      ensures next.Some? ==> cursor == if declared then old(cursor) + 2 else old(cursor)
      ensures declared && next == Some(Op("=")) ==> old(cursor) + 1 < |prog| && decl == prog[old(cursor) + 1].data != ""
    {
      declared, decl, next := first.data == ":", "", Some(first);
      if declared {
        next := Next();
        decl := if next.Some? then next.value.data else "";
        next := Next();
      }
    }

    method VarExpression() returns (r: Option<Parsed>)
      requires Valid() && cursor < |prog|
      modifies this
      ensures Agrees(r, ParseVar(prog, old(Units()), old(cursor)))
      ensures r.Some? ==> Built(r.value, old(created), created)
      decreases Unread(prog, cursor), 5
    {
      hide Built, Extends, Lexed, ParseExpression, At;
      var name := Next();
      if name.None? || name.value.kind != IdentifierKind {
        return None;
      }
      var token := Next();
      if token.None? {
        return None;
      }
      var declared, decl;
      declared, decl, token := TypeDeclaration(token.value);
      if token != Some(Op("=")) {
        return None;
      }
      token := Next();
      if token.None? {
        return None;
      }
      var init := Expression();
      if init.None? {
        return None;
      }
      BuiltVar(name.value.data, init.value, decl, old(created), created);
      var id := Allocate([]);
      var edges := [id, init.value.n];
      if declared {
        var ty := Allocate([]);
        edges := [id, init.value.n, ty];
      }
      var n := Allocate(edges);
      r := Some(Parsed(VarExpr(name.value.data, init.value.a, decl, TError), n));
    }

    /**
     Skips to the comma or parenthesis after an argument.  The token looked at first is the argument's first,
     which the caller still holds although the cursor is already on its last; from there the walk goes on behind it.
    */
    method Separator(first: Token) returns (t: Option<Token>)
      requires Valid() && !Starts(first, ',') && !Starts(first, ')')
      modifies this`cursor
      ensures match SkipToSeparator(prog, old(cursor) + 1)
              case Some(k) => cursor == k && t == Some(prog[k])
              case None => t.None?
    {
      ghost var spec := SkipToSeparator(prog, cursor + 1);
      t := Some(first);
      while t.Some? && !Starts(t.value, ',') && !Starts(t.value, ')')
        invariant cursor >= old(cursor)
        invariant match t
                  case None => spec.None?
                  case Some(token) =>
                    if Starts(token, ',') || Starts(token, ')')
                      then spec == Some(cursor) && cursor < |prog| && token == prog[cursor]
                      else spec == SkipToSeparator(prog, cursor + 1)
        decreases |tokens| - cursor, t.Some?
      {
        t := Next();
      }
    }

    method Function() returns (r: Option<Parsed>)
      requires Valid() && cursor < |prog|
      requires At(prog, Units(), cursor + 1) == Some(Punct("("))
      modifies this
      ensures Agrees(r, ParseFunction(prog, old(Units()), old(cursor)))
      ensures r.Some? ==> Built(r.value, old(created), created)
      decreases Unread(prog, cursor), 5
    {
      hide Extends, Lexed, ParseArgs, At;
      var callee := Here();
      var token := Next();
      token := Next();
      if token.None? {
        return None;
      }
      var args := Arguments(token.value);
      if args.None? || |args.value.es| > MAX_EDGES {
        return None;
      }
      BuiltCall(callee.data, args.value, old(created), created);
      var n := Allocate(args.value.ns);
      r := Some(Parsed(Call(callee.data, args.value.es, TError), n));
    }

    /** The loop of the call: from the token after its parenthesis to the closing one. */
    method Arguments(first: Token) returns (args: Option<ParsedList>)
      requires Valid() && At(prog, Units(), cursor) == Some(first)
      modifies this
      ensures AgreesList(args, ParseArgs(prog, old(Units()), old(cursor)))
      ensures args.Some? ==> BuiltAll(args.value, old(created), created)
      decreases Unread(prog, cursor), 60
    {
      hide Built, BuiltAll, Extends, Lexed, ParseExpression, ParseArgs, SkipToSeparator, At;
      ghost var spec := ParseArgs(prog, Units(), cursor);
      var done, token := ParsedList([], []), Some(first);
      assert After([], spec) == spec;
      BuiltNone(created);
      while !Starts(token.value, ')')
        invariant Valid() && old(cursor) <= cursor && token == At(prog, Units(), cursor) && token.Some?
        invariant spec == After(done.es, ParseArgs(prog, Units(), cursor))
        invariant BuiltAll(done, old(created), created)
        decreases Unread(prog, cursor)
      {
        ghost var start, units, mid := cursor, Units(), created;
        ArgsUnfold(prog, units, start);
        var arg := Expression();
        if arg.None? {
          return None;
        }
        ArgumentStart(prog, units, start);
        BuiltMore(done, arg.value, old(created), mid, created);
        ghost var before := done.es;
        done := ParsedList(done.es + [arg.value.a], done.ns + [arg.value.n]);
        token := Separator(token.value);
        if token.None? {
          return None;
        }
        if Starts(token.value, ')') {
          return Some(done);
        }
        AfterAfter(before, arg.value.a, ParseArgs(prog, Units(), cursor + 1));
        ArgsUnfold(prog, Units(), cursor + 1);
        token := Next();
        if token.None? {
          return None;
        }
      }
      ArgsUnfold(prog, Units(), cursor);
      assert done.es + [] == done.es;
      args := Some(done);
    }
  }

  /** cabor_parse: the tree of the whole token vector, and how many nodes were allocated for it. */
  method Parse(tokens: seq<Token>) returns (r: Option<Parsed>, nodes: nat)
    requires Lexed(tokens)
    ensures match ParseProgram(tokens)
            case Ok(a, _, _) => r.Some? && r.value.a == a && Built(r.value, 0, nodes)
            case Fail => r == None
  {
    hide ParseExpression, Built;
    if tokens == [] {
      return None, 0;
    }
    var parser := new Parser(tokens);
    r := parser.Expression();
    nodes := parser.created;
  }

  /**
   Parsing a program and destroying its tree (parser.c:147-164): what is left of the nodes allocated.  Nothing
   is, unless the tree is too deep for the stack that lists it; then all of it is.
  */
  method ParseAndDestroy(tokens: seq<Token>, nodeSize: nat) returns (parsed: bool, ok: bool, live: set<nat>, bytes: int)
    requires Lexed(tokens)
    ensures parsed == ParseProgram(tokens).Ok?
    ensures parsed ==> ok == (Peak(Alloc(ParseProgram(tokens).a, 0)) <= 100)
    ensures parsed ==> if ok then live == {} && bytes == 0
                       else var nodes := NodeCount(ParseProgram(tokens).a); live == Addresses(nodes) && bytes == nodes * nodeSize
  {
    hide ParseProgram, Represents, Peak, Preorder, Exactly, Alloc, NodeCount;
    var tree, nodes := Parse(tokens);
    if tree.None? {
      return false, false, {}, 0;
    }
    var n := tree.value.n;
    BuiltExactly(tree.value, 0, nodes);
    AllFreed(n, nodes);
    var heap := new Allocator(Addresses(nodes), nodes * nodeSize);
    ok := heap.FreeAst(n, nodeSize);
    parsed, live, bytes := true, heap.live, heap.bytes;
  }

  /** The first n addresses. */
  function Addresses(n: nat): (s: set<nat>)
    ensures forall x: nat :: x in s <==> x < n
  {
    if n == 0 then {} else Addresses(n - 1) + {n - 1}
  }

  /** The addresses of the tree are all those given out. */
  lemma AllFreed(n: Node, nodes: nat)
    requires Exactly(Preorder(n), 0, nodes)
    ensures NoSharing(Preorder(n)) && Addrs(Preorder(n)) == Addresses(nodes)
  {
  }
}
