/**
 How tightly the binary operators bind (parser.c:27-36, 349-397), in terms of texts alone: which of two operators in a
 row takes the operand between them.
*/
module Precedence {
  import opened Words
  import opened Syntax
  import opened Ir
  import opened Tokens
  import opened ParserSpec
  import opened Printer
  import opened ParserInverse

  /** Loosest first. */
  const GROUPS: seq<set<string>> :=
    [{"="}, {"or"}, {"and"}, {"==", "!="}, {"<", "<=", ">", ">="}, {"+", "-"}, {"*", "/", "%"}]

  /** A token that is an operand on its own. */
  predicate IsOperand(t: Token) {
    || (t.kind == IdentifierKind && Name(t.data))
    || (t.kind == IntegerKind && t.data != "" && IsDigit(t.data[0]))
  }

  function Operand(t: Token): Ast {
    if t.kind == IntegerKind || t.data == "true" || t.data == "false" then Literal(t.data, TError) else Identifier(t.data, TError)
  }

  lemma LevelIs(op: string, i: nat)
    requires i < |GROUPS| && op in GROUPS[i]
    ensures OpLevel(op) == Some(i) && i <= LAST_LEVEL
  {
  }

  lemma NoLevel(op: string)
    requires forall i :: 0 <= i < |GROUPS| ==> op !in GROUPS[i]
    ensures OpLevel(op) == None
  {
    assert op !in GROUPS[0] && op !in GROUPS[1] && op !in GROUPS[2] && op !in GROUPS[3];
    assert op !in GROUPS[4] && op !in GROUPS[5] && op !in GROUPS[6];
  }

  lemma OperandText(t: Token, level: nat, guarded: bool)
    requires IsOperand(t)
    ensures Parseable(Operand(t)) && IsTerm(Operand(t)) && Print(Operand(t), level, guarded, PLAIN) == [t] && Units(Operand(t)) == 0
  {
  }

  /** Two operands and an operator, where no parentheses are needed. */
  lemma PairText(left: Ast, op: string, i: nat, right: Ast, level: nat, guarded: bool)
    requires OpLevel(op) == Some(i) && i >= level
    ensures Print(Binary(op, left, right, TError), level, guarded, PLAIN)
            == Print(left, i, true, PLAIN) + [Op(op)] + Print(right, i + 1, guarded, PLAIN)
  {
    hide Print, OpLevel;
    var a := Binary(op, left, right, TError);
    Unwrapped(a, level, guarded);
  }

  lemma Unwrapped(a: Ast, level: nat, guarded: bool)
    requires !NeedsParens(a, level, guarded)
    ensures Print(a, level, guarded, PLAIN) == Bare(a, guarded, [], true)
  {
    hide Bare;
  }

  lemma PairParseable(left: Ast, op: string, right: Ast)
    requires OpLevel(op).Some? && Parseable(left) && Parseable(right) && IsTerm(left) && IsTerm(right)
    ensures Parseable(Binary(op, left, right, TError)) && IsTerm(Binary(op, left, right, TError))
    ensures Units(Binary(op, left, right, TError)) == Units(left) + Units(right)
  {
    hide OpLevel;
  }

  /** The operator of the later group takes the operand between two; of one group, the first does. */
  lemma OperatorsGroup(x: Token, p: string, y: Token, q: string, z: Token, i: nat, j: nat)
    requires IsOperand(x) && IsOperand(y) && IsOperand(z)
    requires i < |GROUPS| && p in GROUPS[i] && j < |GROUPS| && q in GROUPS[j]
    ensures var a, b, c := Operand(x), Operand(y), Operand(z);
            ParseProgram([x, Op(p), y, Op(q), z])
            == Ok(if j > i then Binary(p, a, Binary(q, b, c, TError), TError) else Binary(q, Binary(p, a, b, TError), c, TError), 4, 0)
  {
    hide OpLevel, Print, Parseable, ParseProgram, Operand, IsTerm;
    LevelIs(p, i);
    LevelIs(q, j);
    var a, b, c := Operand(x), Operand(y), Operand(z);
    OperandText(x, i, true);
    if j > i {
      var inner := Binary(q, b, c, TError);
      OperandText(y, j, true);
      OperandText(z, j + 1, false);
      PairText(b, q, j, c, i + 1, false);
      PairText(a, p, i, inner, 0, false);
      PairParseable(b, q, c);
      PairParseable(a, p, inner);
      ProgramRoundTrip(Binary(p, a, inner, TError));
      assert [x] + [Op(p)] + ([y] + [Op(q)] + [z]) == [x, Op(p), y, Op(q), z];
    } else {
      var inner := Binary(p, a, b, TError);
      OperandText(y, i + 1, true);
      OperandText(z, j + 1, false);
      PairText(a, p, i, b, j, true);
      PairText(inner, q, j, c, 0, false);
      PairParseable(a, p, b);
      PairParseable(inner, q, c);
      ProgramRoundTrip(Binary(q, inner, c, TError));
      assert [x] + [Op(p)] + [y] + [Op(q)] + [z] == [x, Op(p), y, Op(q), z];
    }
  }

  /** An operator of no group joins nothing: the program ends before it. */
  lemma NoOperatorJoins(x: Token, op: Token, z: Token)
    requires IsOperand(x) && (op.kind != OperatorKind || forall i :: 0 <= i < |GROUPS| ==> op.data !in GROUPS[i])
    requires op != Punct("(")
    ensures ParseProgram([x, op, z]) == Ok(Operand(x), 0, 0)
  {
    hide OpLevel, Print, Parseable, ParseExpression;
    if op.kind == OperatorKind {
      NoLevel(op.data);
    }
    OperandText(x, 0, false);
    NotAnyOp(op);
    ParserInvertsPrinter([], Operand(x), PLAIN, [op, z], 0);
    assert [] + [x] + [op, z] == [x, op, z];
  }

  lemma NotAnyOp(op: Token)
    requires op.kind != OperatorKind || OpLevel(op.data) == None
    ensures !AnyOp(op)
  {
  }

  /** A prefix operator takes the operand behind it, whatever operator follows; only `-` and `not` are prefix operators. */
  lemma PrefixFirst(u: string, x: Token, p: string, y: Token, i: nat)
    requires IsOperand(x) && IsOperand(y) && i < |GROUPS| && p in GROUPS[i]
    ensures ParseProgram([Op(u), x, Op(p), y])
            == if u == "-" || u == "not" then Ok(Binary(p, Unary(u, Operand(x), TError), Operand(y), TError), 3, 0) else Fail
  {
    hide OpLevel, Print, Parseable, ParseBinary, Operand, IsTerm;
    LevelIs(p, i);
    var P := [Op(u), x, Op(p), y];
    if u == "-" || u == "not" {
      var minus := Unary(u, Operand(x), TError);
      OperandText(x, FACTOR_LEVEL, true);
      OperandText(y, i + 1, false);
      PrefixText(u, Operand(x), i);
      PairText(minus, p, i, Operand(y), 0, false);
      PairParseable(minus, p, Operand(y));
      ProgramRoundTrip(Binary(p, minus, Operand(y), TError));
      assert [Op(u)] + [x] + [Op(p)] + [y] == P;
    } else {
      NoPrefix(P, 0);
    }
  }

  lemma PrefixText(u: string, a: Ast, level: nat)
    requires (u == "-" || u == "not") && Parseable(a) && !a.UnitNode?
    ensures var minus := Unary(u, a, TError);
            && Print(minus, level, true, PLAIN) == [Op(u)] + Print(a, FACTOR_LEVEL, true, PLAIN)
            && Parseable(minus) && IsTerm(minus) && Units(minus) == Units(a)
  {
    hide Print;
    Unwrapped(Unary(u, a, TError), level, true);
  }

  lemma {:induction false} NoPrefix(P: seq<Token>, level: nat)
    requires P != [] && P[0].kind == OperatorKind && P[0].data != "-" && P[0].data != "not" && level <= LAST_LEVEL
    ensures ParseBinary(P, 0, 0, level).Fail?
    decreases LAST_LEVEL - level
  {
    hide ParseFactor, ParseRest;
    if level < LAST_LEVEL {
      NoPrefix(P, level + 1);
    } else {
      NoPrefixFactor(P);
    }
  }

  lemma NoPrefixFactor(P: seq<Token>)
    requires P != [] && P[0].kind == OperatorKind && P[0].data != "-" && P[0].data != "not"
    ensures ParseFactor(P, 0, 0).Fail?
  {
  }
}
