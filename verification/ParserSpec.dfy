/**
 The parser (parser.c:180-710) as functions from the tokens and a cursor to a tree, the cursor on the last
 token read, and the number of UNIT tokens appended.  Fail stands for every way the code gives up: a null
 node, a failed assertion, an exit, or endless recursion when the input ends after `(`, `-`, `{`, `while`.
 Recursion is on the unread program tokens, then on the precedence levels left; appended UNIT tokens are
 never read as program text.
*/
module ParserSpec {
  import opened Syntax
  import opened Ir
  import opened Tokens

  datatype Parse = Ok(a: Ast, cursor: nat, units: nat) | Fail

  datatype ParseList = OkList(es: seq<Ast>, cursor: nat, units: nat) | FailList

  const MAX_EDGES: nat := 10  // parser.h:8

  /** Program tokens not yet read. */
  function Unread(prog: seq<Token>, c: nat): nat {
    if c < |prog| then |prog| - c else 0
  }

  /** Blocks may not be operands: their first token is not a term (parser.c:51-54, 339-340). */
  predicate IsTerm(a: Ast) {
    !a.Block? && !a.UnitNode?
  }

  function ParseExpression(prog: seq<Token>, u: nat, c: nat): (r: Parse)
    ensures r.Ok? ==> r.cursor >= c && r.units >= u
    decreases Unread(prog, c), 30
  {
    ParseBinary(prog, u, c, 0)
  }

  function ParseBinary(prog: seq<Token>, u: nat, c: nat, level: nat): (r: Parse)
    requires level <= LAST_LEVEL
    ensures r.Ok? ==> r.cursor >= c && r.units >= u
    decreases Unread(prog, c), 20 - level
  {
    var left := if level == LAST_LEVEL then ParseFactor(prog, u, c) else ParseBinary(prog, u, c, level + 1);
    if left.Fail? then Fail else ParseRest(prog, left.units, left.cursor, level, left.a)
  }

  /** The loop of cabor_parse_binary_expression, with the operand parsed so far. */
  function ParseRest(prog: seq<Token>, u: nat, c: nat, level: nat, left: Ast): (r: Parse)
    requires level <= LAST_LEVEL
    ensures r.Ok? ==> r.cursor >= c && r.units >= u
    decreases Unread(prog, c), 4
  {
    if !IsBinaryOpAt(At(prog, u, c + 1), level) then Ok(left, c, u)
    else if At(prog, u, c + 2).None? then Fail
    else
      var right := if level == LAST_LEVEL then ParseFactor(prog, u, c + 2) else ParseBinary(prog, u, c + 2, level + 1);
      if right.Fail? || !IsTerm(left) || !IsTerm(right.a) then Fail
      else ParseRest(prog, right.units, right.cursor, level, Binary(prog[c + 1].data, left, right.a, TError))
  }

  function ParseFactor(prog: seq<Token>, u: nat, c: nat): (r: Parse)
    ensures r.Ok? ==> r.cursor >= c && r.units >= u && c < |prog|
    decreases Unread(prog, c), 10
  {
    if c >= |prog| then Fail
    else match prog[c].kind
      case IdentifierKind =>
        var next := At(prog, u, c + 1);
        if next == Some(Punct("(")) then ParseFunction(prog, u, c) else Ok(IdentifierNode(prog[c].data), c, u)
      case IntegerKind => Ok(Literal(prog[c].data, TError), c, u)
      case OperatorKind => if prog[c].data == "-" || prog[c].data == "not" then ParseUnary(prog, u, c) else Fail
      case PunctuationKind =>
        if Starts(prog[c], '(') then ParseParenthesized(prog, u, c)
        else if Starts(prog[c], '{') then ParseBlock(prog, u, c)
        else Fail
      case KeywordKind =>
        if prog[c].data == "if" then ParseIf(prog, u, c)
        else if prog[c].data == "while" then ParseWhile(prog, u, c)
        else if prog[c].data == "var" then ParseVar(prog, u, c)
        else Fail
      case UnitKind => Fail
  }

  /** `true` and `false` arrive as identifiers (parser.c:297-305). */
  function IdentifierNode(name: string): Ast {
    if name == "true" || name == "false" then Literal(name, TError) else Identifier(name, TError)
  }

  function ParseUnary(prog: seq<Token>, u: nat, c: nat): (r: Parse)
    requires c < |prog|
    ensures r.Ok? ==> r.cursor >= c && r.units >= u
    decreases Unread(prog, c), 5
  {
    if At(prog, u, c + 1).None? then Fail else
    var operand := ParseFactor(prog, u, c + 1);
    if operand.Fail? then Fail else operand.(a := Unary(prog[c].data, operand.a, TError))
  }

  function ParseParenthesized(prog: seq<Token>, u: nat, c: nat): (r: Parse)
    requires c < |prog|
    ensures r.Ok? ==> r.cursor >= c && r.units >= u
    decreases Unread(prog, c), 5
  {
    if At(prog, u, c + 1).None? then Fail else
    var e := ParseBinary(prog, u, c + 1, 0);
    if e.Fail? then Fail else
    // at the end of input the cursor stays on the expression's last token
    var close := if At(prog, e.units, e.cursor + 1).Some? then e.cursor + 1 else e.cursor;
    match At(prog, e.units, close)
    case Some(t) => if Starts(t, ')') then e.(cursor := close) else Fail
    case None => Fail
  }

  function ParseBlock(prog: seq<Token>, u: nat, c: nat): (r: Parse)
    requires c < |prog|
    ensures r.Ok? ==> r.cursor >= c && r.units >= u
    decreases Unread(prog, c), 5
  {
    if prog[c].data != "{" then Fail else
    match ParseStatements(prog, u, c)
    case FailList => Fail
    case OkList(es, cursor, units) => if |es| > MAX_EDGES then Fail else Ok(Block(es, TError), cursor, units)
  }

  /** The statements after the `{` or `;` at c; the cursor ends on the closing `}`. */
  function ParseStatements(prog: seq<Token>, u: nat, c: nat): (r: ParseList)
    requires c < |prog|
    ensures r.OkList? ==> r.cursor >= c && r.units >= u
    decreases Unread(prog, c), 4
  {
    if At(prog, u, c + 1).None? then FailList else
    var e := ParseExpression(prog, u, c + 1);
    if e.Fail? then FailList else
    var next := At(prog, e.units, e.cursor + 1);
    if next == Some(Punct("}")) then OkList([e.a], e.cursor + 1, e.units)
    else if next != Some(Punct(";")) then FailList
    else if At(prog, e.units, e.cursor + 2) == Some(Punct("}")) then
      OkList([e.a, UnitNode], e.cursor + 2, e.units + 1)
    else match ParseStatements(prog, e.units, e.cursor + 1)
      case FailList => FailList
      case OkList(es, cursor, units) => OkList([e.a] + es, cursor, units)
  }

  function ParseIf(prog: seq<Token>, u: nat, c: nat): (r: Parse)
    requires c < |prog|
    ensures r.Ok? ==> r.cursor >= c && r.units >= u
    decreases Unread(prog, c), 5
  {
    if At(prog, u, c + 1).None? then Fail else
    var x := ParseExpression(prog, u, c + 1);
    if x.Fail? || At(prog, x.units, x.cursor + 1) != Some(Keyword("then")) then Fail else
    if At(prog, x.units, x.cursor + 2).None? then Fail else
    var y := ParseExpression(prog, x.units, x.cursor + 2);
    if y.Fail? then Fail else ParseElse(prog, y.units, y.cursor, x.a, y.a)
  }

  /** What follows the branch of an `if`, whose last token is at c. */
  function ParseElse(prog: seq<Token>, u: nat, c: nat, cond: Ast, thn: Ast): (r: Parse)
    ensures r.Ok? ==> r.cursor >= c && r.units >= u
    decreases Unread(prog, c), 4
  {
    var next := At(prog, u, c + 1);
    if next != Some(Keyword("else")) then
      // the cursor has already moved past the branch
      Ok(IfThen(cond, thn, TError), if next.Some? then c + 1 else c, u)
    else if At(prog, u, c + 2).None? then
      Ok(IfThen(cond, thn, TError), c + 1, u)
    else
      var z := ParseExpression(prog, u, c + 2);
      if z.Fail? then Fail else z.(a := IfElse(cond, thn, z.a, TError))
  }

  function ParseWhile(prog: seq<Token>, u: nat, c: nat): (r: Parse)
    requires c < |prog|
    ensures r.Ok? ==> r.cursor >= c && r.units >= u
    decreases Unread(prog, c), 5
  {
    if At(prog, u, c + 1).None? then Fail else
    var x := ParseExpression(prog, u, c + 1);
    if x.Fail? || At(prog, x.units, x.cursor + 1) != Some(Keyword("do")) then Fail else
    if At(prog, x.units, x.cursor + 2).None? then Fail else
    var y := ParseExpression(prog, x.units, x.cursor + 2);
    if y.Fail? then Fail else y.(a := While(x.a, y.a, TError))
  }

  function ParseVar(prog: seq<Token>, u: nat, c: nat): (r: Parse)
    requires c < |prog|
    ensures r.Ok? ==> r.cursor >= c && r.units >= u
    decreases Unread(prog, c), 5
  {
    var name := At(prog, u, c + 1);
    if name.None? || name.value.kind != IdentifierKind then Fail else
    var colon := At(prog, u, c + 2);
    if colon.None? then Fail else
    var declared := colon.value.data == ":";
    var eq := if declared then c + 4 else c + 2;
    if At(prog, u, eq) != Some(Op("=")) || At(prog, u, eq + 1).None? then Fail else
    var x := ParseExpression(prog, u, eq + 1);
    if x.Fail? then Fail
    else x.(a := VarExpr(name.value.data, x.a, if declared then prog[c + 3].data else "", TError))
  }

  function ParseFunction(prog: seq<Token>, u: nat, c: nat): (r: Parse)
    requires c < |prog|
    ensures r.Ok? ==> r.cursor >= c && r.units >= u
    decreases Unread(prog, c), 5
  {
    if At(prog, u, c + 2).None? then Fail else
    match ParseArgs(prog, u, c + 2)
    case FailList => Fail
    case OkList(es, cursor, units) =>
      if |es| > MAX_EDGES then Fail else Ok(Call(prog[c].data, es, TError), cursor, units)
  }

  /** The arguments from the token at c on; the cursor ends on the closing `)`. */
  function ParseArgs(prog: seq<Token>, u: nat, c: nat): (r: ParseList)
    ensures r.OkList? ==> r.cursor >= c && r.units >= u
    decreases Unread(prog, c), 40
  {
    match At(prog, u, c)
    case None => FailList
    case Some(t) =>
      if Starts(t, ')') then OkList([], c, u) else
      var x := ParseExpression(prog, u, c);
      if x.Fail? then FailList else
      match SkipToSeparator(prog, x.cursor + 1)
      case None => FailList
      case Some(s) =>
        if Starts(prog[s], ')') then OkList([x.a], s, x.units)
        else match ParseArgs(prog, x.units, s + 1)
          case FailList => FailList
          case OkList(es, cursor, units) => OkList([x.a] + es, cursor, units)
  }

  /** The next token at or after c that starts with `,` or `)`. */
  function SkipToSeparator(prog: seq<Token>, c: nat): (k: Option<nat>)
    ensures k.Some? ==> c <= k.value < |prog| && (Starts(prog[k.value], ',') || Starts(prog[k.value], ')'))
    decreases Unread(prog, c)
  {
    if c >= |prog| then None
    else if Starts(prog[c], ',') || Starts(prog[c], ')') then Some(c)
    else SkipToSeparator(prog, c + 1)
  }

  /** The arguments or statements read so far, in front of those still to be read. */
  function After(es: seq<Ast>, rest: ParseList): ParseList {
    if rest.FailList? then FailList else rest.(es := es + rest.es)
  }

  /** One turn of the loop over statements. */
  lemma StatementsUnfold(P: seq<Token>, u: nat, c: nat)
    requires c < |P|
    ensures var e := ParseExpression(P, u, c + 1);
            var next := if e.Ok? then At(P, e.units, e.cursor + 1) else None;
            ParseStatements(P, u, c)
            == if At(P, u, c + 1).None? || e.Fail? then FailList
               else if next == Some(Punct("}")) then OkList([e.a], e.cursor + 1, e.units)
               else if next != Some(Punct(";")) then FailList
               else if At(P, e.units, e.cursor + 2) == Some(Punct("}")) then OkList([e.a, UnitNode], e.cursor + 2, e.units + 1)
               else After([e.a], ParseStatements(P, e.units, e.cursor + 1))
  {
    hide ParseExpression;
  }

  /** One turn of the loop over arguments. */
  lemma ArgsUnfold(P: seq<Token>, u: nat, c: nat)
    ensures var x := ParseExpression(P, u, c);
            var s := if x.Ok? then SkipToSeparator(P, x.cursor + 1) else None;
            ParseArgs(P, u, c)
            == if At(P, u, c).None? then FailList
               else if Starts(At(P, u, c).value, ')') then OkList([], c, u)
               else if x.Fail? || s.None? then FailList
               else if Starts(P[s.value], ')') then OkList([x.a], s.value, x.units)
               else After([x.a], ParseArgs(P, x.units, s.value + 1))
  {
    hide ParseExpression, SkipToSeparator;
  }

  /** cabor_parse: the whole vector from the first token. */
  function ParseProgram(prog: seq<Token>): Parse {
    if prog == [] then Fail else ParseExpression(prog, 0, 0)
  }
}
