/** Tokens (tokenizer.h:9-24) and the token vector while it is being parsed. */
module Tokens {
  import opened Ir

  datatype Kind = IdentifierKind | IntegerKind | OperatorKind | PunctuationKind | KeywordKind | UnitKind

  datatype Token = Token(kind: Kind, data: string)

  /** Appended by the parser for a block that ends in `;}` (parser.c:239-240). */
  const UNIT_TOKEN: Token := Token(UnitKind, "<UNIT>")

  function Ident(s: string): Token { Token(IdentifierKind, s) }
  function Op(s: string): Token { Token(OperatorKind, s) }
  function Punct(s: string): Token { Token(PunctuationKind, s) }
  function Keyword(s: string): Token { Token(KeywordKind, s) }

  /** The token at index i when `units` UNIT tokens have been appended to the program's tokens. */
  function At(prog: seq<Token>, units: nat, i: nat): Option<Token> {
    if i < |prog| then Some(prog[i]) else if i < |prog| + units then Some(UNIT_TOKEN) else None
  }

  predicate Starts(t: Token, c: char) {
    t.data != "" && t.data[0] == c
  }

  /** The seven precedence levels of binary operators (parser.c:27-36); None for any other text. */
  function OpLevel(op: string): Option<nat> {
    if op == "=" then Some(0)
    else if op == "or" then Some(1)
    else if op == "and" then Some(2)
    else if op == "==" || op == "!=" then Some(3)
    else if op == "<" || op == "<=" || op == ">" || op == ">=" then Some(4)
    else if op == "+" || op == "-" then Some(5)
    else if op == "*" || op == "/" || op == "%" then Some(6)
    else None
  }

  const LAST_LEVEL: nat := 6

  predicate IsBinaryOpAt(t: Option<Token>, level: nat) {
    t.Some? && t.value.kind == OperatorKind && OpLevel(t.value.data) == Some(level)
  }
}
