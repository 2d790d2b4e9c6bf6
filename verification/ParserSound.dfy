/**
 Precedence parsing is sound (parser.c:280-397): whatever token sequence of operators, operands and
 parentheses the parser accepts, it is a printed form of the tree it returns, so parentheses aside the
 tokens are the tree's in order, an unparenthesised left operand binds at least as tightly as its operator
 and a right one strictly tighter.  One exception: at the very end of the input, missing closing
 parentheses are forgiven, so the text read is a printed form exactly when it has none too few.
*/
module ParserSound {
  import opened Words
  import opened Syntax
  import opened Tokens
  import opened Ir
  import opened ParserSpec
  import opened Printer
  import ParserInverse

  /** Trees of operators over names and literals. */
  predicate OpTree(a: Ast) {
    match a
    case Literal(_, _) => true
    case Identifier(_, _) => true
    case Unary(_, arg, _) => OpTree(arg)
    case Binary(_, left, right, _) => OpTree(left) && OpTree(right)
    case _ => false
  }

  /** Tokens as the tokenizer classifies them. */
  predicate OpToken(t: Token) {
    match t.kind
    case IdentifierKind => Name(t.data)
    case IntegerKind => t.data != "" && IsDigit(t.data[0])
    case OperatorKind => t.data == "not" || OpLevel(t.data).Some?
    case PunctuationKind => t.data == "(" || t.data == ")"
    case _ => false
  }

  /** The tokens from c to q are operators, operands and parentheses, and none of them starts a call. */
  predicate OpTokens(P: seq<Token>, c: nat, q: nat) {
    && (forall i :: c <= i <= q && i < |P| ==> OpToken(P[i]))
    && (forall i :: c <= i < q && i + 1 < |P| ==> !(P[i].kind == IdentifierKind && P[i + 1] == Punct("(")))
  }

  function Closers(m: nat): seq<Token> {
    seq(m, _ => Punct(")"))
  }

  /** Reading from c to q gave a printed form of a, up to m closing parentheses missing at the end of input. */
  predicate Reads(P: seq<Token>, c: nat, q: nat, a: Ast, level: nat, st: Style, m: nat) {
    && c <= q < |P| && OpTree(a) && st.stop
    && Print(a, level, false, st) == P[c..q + 1] + Closers(m)
    && (q + 1 < |P| ==> m == 0)
  }

  /** For operator trees it does not matter whether an operator follows. */
  lemma {:induction false} GuardIrrelevant(a: Ast, level: nat, st: Style)
    requires OpTree(a)
    ensures Print(a, level, true, st) == Print(a, level, false, st)
    decreases a, 1
  {
    BareGuardIrrelevant(a, st.kids, st.stop);
  }

  lemma {:induction false} BareGuardIrrelevant(a: Ast, kids: seq<Style>, stop: bool)
    requires OpTree(a)
    ensures Bare(a, true, kids, stop) == Bare(a, false, kids, stop)
    decreases a, 0
  {
    hide Print;
    match a
    case Unary(_, arg, _) => GuardIrrelevant(arg, FACTOR_LEVEL, Kid(kids, 0, stop));
    case Binary(op, _, right, _) =>
      GuardIrrelevant(right, (if OpLevel(op).Some? then OpLevel(op).value else 0) + 1, Kid(kids, 1, stop));
    case _ =>
  }

  /** The same text fits a looser position. */
  lemma Relevel(a: Ast, level: nat, level': nat, st: Style) returns (st': Style)
    requires level' <= level
    ensures Print(a, level', false, st') == Print(a, level, false, st) && st'.stop == st.stop
  {
    st' := Style(Pairs(a, level, false, st), st.kids, st.stop);
  }

  lemma LooserReads(P: seq<Token>, c: nat, q: nat, a: Ast, level: nat, level': nat, st: Style, m: nat) returns (st': Style)
    requires Reads(P, c, q, a, level, st, m) && level' <= level
    ensures Reads(P, c, q, a, level', st', m)
  {
    hide Print;
    st' := Relevel(a, level, level', st);
  }

  lemma {:induction false} BinarySound(P: seq<Token>, u: nat, c: nat, level: nat) returns (st: Style, m: nat)
    requires level <= LAST_LEVEL && ParseBinary(P, u, c, level).Ok?
    requires var r := ParseBinary(P, u, c, level); OpTokens(P, c, r.cursor)
    ensures var r := ParseBinary(P, u, c, level); Reads(P, c, r.cursor, r.a, level, st, m) && r.units == u
    decreases Unread(P, c), 20 - level
  {
    hide ParseFactor, ParseRest, Reads;
    var r := ParseBinary(P, u, c, level);
    if level == LAST_LEVEL {
      var x := ParseFactor(P, u, c);
      OpTokensPart(P, c, x.cursor, r.cursor);
      st, m := FactorSound(P, u, c);
      st := LooserReads(P, c, x.cursor, x.a, FACTOR_LEVEL, level, st, m);
      st, m := RestSound(P, x.units, c, x.cursor, level, x.a, st, m);
    } else {
      var x := ParseBinary(P, u, c, level + 1);
      OpTokensPart(P, c, x.cursor, r.cursor);
      st, m := BinarySound(P, u, c, level + 1);
      st := LooserReads(P, c, x.cursor, x.a, level + 1, level, st, m);
      st, m := RestSound(P, x.units, c, x.cursor, level, x.a, st, m);
    }
  }

  lemma OpTokensPart(P: seq<Token>, c: nat, q: nat, q': nat)
    requires OpTokens(P, c, q') && q <= q'
    ensures OpTokens(P, c, q)
  {
  }

  lemma {:induction false} RestSound(P: seq<Token>, u: nat, c: nat, q: nat, level: nat, left: Ast, stl: Style, ml: nat)
    returns (st: Style, m: nat)
    requires level <= LAST_LEVEL && ParseRest(P, u, q, level, left).Ok?
    requires Reads(P, c, q, left, level, stl, ml)
    requires var r := ParseRest(P, u, q, level, left); OpTokens(P, c, r.cursor)
    ensures var r := ParseRest(P, u, q, level, left); Reads(P, c, r.cursor, r.a, level, st, m) && r.units == u
    decreases Unread(P, q), 4
  {
    hide ParseFactor, ParseBinary, OpLevel, Print, OpTree;
    st, m := stl, ml;
    var r := ParseRest(P, u, q, level, left);
    if IsBinaryOpAt(At(P, u, q + 1), level) {
      var right := if level == LAST_LEVEL then ParseFactor(P, u, q + 2) else ParseBinary(P, u, q + 2, level + 1);
      OpTokensFrom(P, c, q + 2, right.cursor, r.cursor);
      var str, mr;
      if level == LAST_LEVEL {
        str, mr := FactorSound(P, u, q + 2);
      } else {
        str, mr := BinarySound(P, u, q + 2, level + 1);
      }
      var a := Binary(P[q + 1].data, left, right.a, TError);
      st := Style(0, [stl, str], true);
      JoinOperands(P, c, q, right.cursor, left, right.a, level, stl, str, mr);
      st, m := RestSound(P, right.units, c, right.cursor, level, a, st, mr);
    }
  }

  lemma OpTokensFrom(P: seq<Token>, c: nat, d: nat, q: nat, q': nat)
    requires OpTokens(P, c, q') && c <= d && q <= q'
    ensures OpTokens(P, d, q)
  {
  }

  /** Two printed operands with an operator of this level between them. */
  lemma JoinOperands(P: seq<Token>, c: nat, q: nat, e: nat, left: Ast, right: Ast, level: nat, stl: Style, str: Style, mr: nat)
    requires q + 1 < |P| && P[q + 1].kind == OperatorKind && OpLevel(P[q + 1].data) == Some(level)
    requires Reads(P, c, q, left, level, stl, 0) && Reads(P, q + 2, e, right, level + 1, str, mr)
    ensures Reads(P, c, e, Binary(P[q + 1].data, left, right, TError), level, Style(0, [stl, str], true), mr)
  {
    var a, st := Binary(P[q + 1].data, left, right, TError), Style(0, [stl, str], true);
    var l, r := Print(left, level, false, stl), Print(right, level + 1, false, str);
    GuardIrrelevant(left, level, stl);
    assert Kid(st.kids, 0, st.stop) == stl && Kid(st.kids, 1, st.stop) == str;
    assert Print(a, level, false, st) == l + [Op(a.op)] + r by {
      hide Print;
      PrintBinary(a, level, st);
    }
    assert l == P[c..q + 1] + Closers(0) == P[c..q + 1];
    assert P[q + 1] == Op(a.op);
    assert P[c..e + 1] == P[c..q + 1] + [P[q + 1]] + P[q + 2..e + 1];
  }

  lemma PrintBinary(a: Ast, level: nat, st: Style)
    requires a.Binary? && OpLevel(a.op) == Some(level) && st.extra == 0
    ensures Print(a, level, false, st)
         == Print(a.left, level, true, Kid(st.kids, 0, st.stop)) + [Op(a.op)] + Print(a.right, level + 1, false, Kid(st.kids, 1, st.stop))
  {
  }

  lemma {:induction false} FactorSound(P: seq<Token>, u: nat, c: nat) returns (st: Style, m: nat)
    requires ParseFactor(P, u, c).Ok?
    requires var r := ParseFactor(P, u, c); OpTokens(P, c, r.cursor)
    ensures var r := ParseFactor(P, u, c); Reads(P, c, r.cursor, r.a, FACTOR_LEVEL, st, m) && r.units == u
    decreases Unread(P, c), 10
  {
    hide Reads, Print, ParseFunction, ParseBlock, ParseIf, ParseWhile, ParseVar;
    assert OpToken(P[c]);
    match P[c].kind
    case IdentifierKind => st, m := LeafSound(P, u, c);
    case IntegerKind => st, m := LeafSound(P, u, c);
    case OperatorKind => st, m := UnarySound(P, u, c);
    case PunctuationKind => st, m := ParenSound(P, u, c);
  }

  lemma LeafSound(P: seq<Token>, u: nat, c: nat) returns (st: Style, m: nat)
    requires ParseFactor(P, u, c).Ok? && (P[c].kind == IdentifierKind || P[c].kind == IntegerKind)
    requires var r := ParseFactor(P, u, c); OpTokens(P, c, r.cursor)
    ensures var r := ParseFactor(P, u, c); Reads(P, c, r.cursor, r.a, FACTOR_LEVEL, st, m) && r.units == u
  {
    hide ParseArgs, ParseBinary;
    st, m := PLAIN, 0;
    assert OpToken(P[c]);
    var r := ParseFactor(P, u, c);
    if P[c].kind == IdentifierKind && At(P, u, c + 1) == Some(Punct("(")) {
      CallIsLong(P, u, c);
    } else {
      assert P[c..c + 1] == [P[c]];
      assert Print(r.a, FACTOR_LEVEL, false, PLAIN) == Bare(r.a, false, [], true);
    }
  }

  /** A call reads at least its name and its parenthesis. */
  lemma CallIsLong(P: seq<Token>, u: nat, c: nat)
    requires c < |P| && P[c].kind == IdentifierKind && At(P, u, c + 1) == Some(Punct("("))
    ensures ParseFactor(P, u, c).Ok? ==> ParseFactor(P, u, c).cursor >= c + 2
  {
    hide ParseArgs;
  }

  lemma {:induction false} UnarySound(P: seq<Token>, u: nat, c: nat) returns (st: Style, m: nat)
    requires ParseFactor(P, u, c).Ok? && P[c].kind == OperatorKind
    requires var r := ParseFactor(P, u, c); OpTokens(P, c, r.cursor)
    ensures var r := ParseFactor(P, u, c); Reads(P, c, r.cursor, r.a, FACTOR_LEVEL, st, m) && r.units == u
    decreases Unread(P, c), 5
  {
    hide ParseBinary, ParseArgs, ParseStatements, ParseExpression;
    var x := ParseFactor(P, u, c + 1);
    var r := ParseFactor(P, u, c);
    OpTokensFrom(P, c, c + 1, r.cursor, r.cursor);
    st, m := FactorSound(P, u, c + 1);
    PrefixOperator(P, c, x.cursor, x.a, st, m);
    st := Style(0, [st], true);
  }

  lemma PrefixOperator(P: seq<Token>, c: nat, q: nat, arg: Ast, st: Style, m: nat)
    requires c < |P| && P[c].kind == OperatorKind && Reads(P, c + 1, q, arg, FACTOR_LEVEL, st, m)
    ensures Reads(P, c, q, Unary(P[c].data, arg, TError), FACTOR_LEVEL, Style(0, [st], true), m)
  {
    var a := Unary(P[c].data, arg, TError);
    assert Kid([st], 0, true) == st;
    assert Print(a, FACTOR_LEVEL, false, Style(0, [st], true)) == [Op(a.op)] + Print(arg, FACTOR_LEVEL, false, st);
    assert P[c] == Op(a.op) && P[c..q + 1] == [P[c]] + P[c + 1..q + 1];
  }

  lemma {:induction false} ParenSound(P: seq<Token>, u: nat, c: nat) returns (st: Style, m: nat)
    requires ParseFactor(P, u, c).Ok? && P[c].kind == PunctuationKind
    requires var r := ParseFactor(P, u, c); OpTokens(P, c, r.cursor)
    ensures var r := ParseFactor(P, u, c); Reads(P, c, r.cursor, r.a, FACTOR_LEVEL, st, m) && r.units == u
    decreases Unread(P, c), 5
  {
    hide ParseBinary, ParseFactor, Print, Reads;
    ParenParts(P, u, c);
    var x := ParseBinary(P, u, c + 1, 0);
    var r := ParseFactor(P, u, c);
    OpTokensFrom(P, c, c + 1, x.cursor, r.cursor);
    st, m := BinarySound(P, u, c + 1, 0);
    ReadsInside(P, c + 1, x.cursor, x.a, 0, st, m);
    if x.cursor + 1 < |P| {
      OnlyParenCloses(P[x.cursor + 1]);
    }
    Parenthesize(P, c, x.cursor, r.cursor, x.a, st, m);
    st, m := Style(Pairs(x.a, 0, false, st) + 1, st.kids, st.stop), if x.cursor + 1 < |P| then m else m + 1;
  }

  lemma ParenParts(P: seq<Token>, u: nat, c: nat)
    requires ParseFactor(P, u, c).Ok? && P[c].kind == PunctuationKind && OpToken(P[c])
    ensures var x, r := ParseBinary(P, u, c + 1, 0), ParseFactor(P, u, c);
            && P[c] == Punct("(") && x.Ok? && r.a == x.a && r.units == x.units
            && if x.cursor + 1 < |P| then r.cursor == x.cursor + 1 && Starts(P[r.cursor], ')') else r.cursor == x.cursor
  {
    hide ParseBinary;
  }

  lemma OnlyParenCloses(t: Token)
    requires OpToken(t) && Starts(t, ')')
    ensures t == Punct(")")
  {
  }

  lemma ReadsInside(P: seq<Token>, c: nat, q: nat, a: Ast, level: nat, st: Style, m: nat)
    requires Reads(P, c, q, a, level, st, m)
    ensures c <= q < |P| && (q + 1 < |P| ==> m == 0)
  {
  }

  /** One more pair around a printed form: its closing parenthesis is the next token, or missing at the end. */
  lemma Parenthesize(P: seq<Token>, c: nat, q: nat, e: nat, a: Ast, st: Style, m: nat)
    requires c < |P| && P[c] == Punct("(") && Reads(P, c + 1, q, a, 0, st, m)
    requires if q + 1 < |P| then e == q + 1 && P[e] == Punct(")") else e == q
    ensures var st' := Style(Pairs(a, 0, false, st) + 1, st.kids, st.stop);
            Reads(P, c, e, a, FACTOR_LEVEL, st', if q + 1 < |P| then m else m + 1)
  {
    var k := Pairs(a, 0, false, st);
    assert Print(a, FACTOR_LEVEL, false, Style(k + 1, st.kids, st.stop)) == [Punct("(")] + Print(a, 0, false, st) + [Punct(")")] by {
      WrapMore(a, st);
    }
    assert P[c..q + 1] == [P[c]] + P[c + 1..q + 1];
    if q + 1 < |P| {
      assert P[c..e + 1] == P[c..q + 1] + [P[e]];
    }
    assert Closers(m) + [Punct(")")] == Closers(m + 1);
  }

  lemma WrapMore(a: Ast, st: Style)
    requires OpTree(a)
    ensures var k := Pairs(a, 0, false, st);
            Print(a, FACTOR_LEVEL, false, Style(k + 1, st.kids, st.stop)) == [Punct("(")] + Print(a, 0, false, st) + [Punct(")")]
  {
    hide Bare, OpTree, OpLevel;
    var k := Pairs(a, 0, false, st);
    assert Pairs(a, FACTOR_LEVEL, false, Style(k + 1, st.kids, st.stop)) == k + 1;
    assert Wrap(k + 1, Bare(a, false, st.kids, st.stop)) == [Punct("(")] + Wrap(k, Bare(a, false, st.kids, st.stop)) + [Punct(")")];
  }

  /** How many more opening than closing parentheses there are. */
  function Balance(ts: seq<Token>): int {
    multiset(ts)[Punct("(")] as int - multiset(ts)[Punct(")")]
  }

  lemma BalanceJoin(s: seq<Token>, t: seq<Token>)
    ensures Balance(s + t) == Balance(s) + Balance(t)
  {
  }

  lemma BalanceOne(t: Token)
    requires t.kind != PunctuationKind
    ensures Balance([t]) == 0
  {
  }

  lemma {:induction false} BalanceClosers(m: nat)
    ensures Balance(Closers(m)) + m == 0
  {
    if m > 0 {
      BalanceClosers(m - 1);
      assert Closers(m) == Closers(m - 1) + [Punct(")")];
    }
  }

  lemma {:induction false} BalanceWrap(k: nat, ts: seq<Token>)
    ensures Balance(Wrap(k, ts)) == Balance(ts)
  {
    hide Balance;
    if k > 0 {
      BalanceWrap(k - 1, ts);
      BalanceJoin([Punct("(")], Wrap(k - 1, ts));
      BalanceJoin([Punct("(")] + Wrap(k - 1, ts), [Punct(")")]);
      BalancePair();
    }
  }

  lemma BalancePair()
    ensures Balance([Punct("(")]) == 1 && Balance([Punct(")")]) == -1
  {
  }

  lemma {:induction false} BalancePrint(a: Ast, level: nat, guarded: bool, st: Style)
    requires OpTree(a)
    ensures Balance(Print(a, level, guarded, st)) == 0
    decreases a, 1
  {
    hide Bare, Balance;
    var k := Pairs(a, level, guarded, st);
    BalanceBare(a, guarded && k == 0, st.kids, st.stop);
    BalanceWrap(k, Bare(a, guarded && k == 0, st.kids, st.stop));
  }

  lemma {:induction false} BalanceBare(a: Ast, guarded: bool, kids: seq<Style>, stop: bool)
    requires OpTree(a)
    ensures Balance(Bare(a, guarded, kids, stop)) == 0
    decreases a, 0
  {
    hide Print, OpLevel, Balance;
    match a
    case Unary(op, arg, _) =>
      BalanceOne(Op(op));
      BalancePrint(arg, FACTOR_LEVEL, guarded, Kid(kids, 0, stop));
      BalanceJoin([Op(op)], Print(arg, FACTOR_LEVEL, guarded, Kid(kids, 0, stop)));
    case Binary(op, left, right, _) =>
      var p := if OpLevel(op).Some? then OpLevel(op).value else 0;
      var l, r := Print(left, p, true, Kid(kids, 0, stop)), Print(right, p + 1, guarded, Kid(kids, 1, stop));
      BalancePrint(left, p, true, Kid(kids, 0, stop));
      BalancePrint(right, p + 1, guarded, Kid(kids, 1, stop));
      BalanceJoin(l + [Op(op)], r);
      BalanceJoin(l, [Op(op)]);
      BalanceOne(Op(op));
    case Literal(_, _) => BalanceOne(Bare(a, guarded, kids, stop)[0]);
    case Identifier(name, _) => BalanceOne(Ident(name));
  }

  /**
   Whatever the parser accepts from operators, operands and parentheses is a printed form of its result,
   except that closing parentheses missing at the very end of the input are supplied: as many as the text
   read has too few.  So if anything follows, the text read is exactly a printed form.
  */
  lemma PrecedenceSound(P: seq<Token>, u: nat, c: nat) returns (st: Style, m: nat)
    requires ParseExpression(P, u, c).Ok?
    requires OpTokens(P, c, ParseExpression(P, u, c).cursor)
    ensures var r := ParseExpression(P, u, c);
            && c <= r.cursor < |P| && r.units == u
            && Print(r.a, 0, false, st) == P[c..r.cursor + 1] + Closers(m)
            && m == Balance(P[c..r.cursor + 1])
            && (r.cursor + 1 < |P| ==> m == 0)
  {
    hide Print, ParseBinary, Balance;
    st, m := BinarySound(P, u, c, 0);
    var r := ParseExpression(P, u, c);
    BalancePrint(r.a, 0, false, st);
    BalanceJoin(P[c..r.cursor + 1], Closers(m));
    BalanceClosers(m);
  }

  /** The text read is a printed form of the result exactly when it has as many closing as opening parentheses. */
  lemma PrintedIffBalanced(P: seq<Token>, u: nat, c: nat)
    requires ParseExpression(P, u, c).Ok?
    requires OpTokens(P, c, ParseExpression(P, u, c).cursor)
    ensures var r := ParseExpression(P, u, c);
            && c <= r.cursor < |P|
            && ((exists st :: Print(r.a, 0, false, st) == P[c..r.cursor + 1])
                <==> var ts := multiset(P[c..r.cursor + 1]); ts[Punct("(")] == ts[Punct(")")])
  {
    hide Print, ParseExpression, OpTokens, Balance;
    var st, m := PrecedenceSound(P, u, c);
    var r := ParseExpression(P, u, c);
    var read := P[c..r.cursor + 1];
    PrecedenceTree(P, u, c);
    BalanceIs(read);
    if st' :| Print(r.a, 0, false, st') == read {
      BalancePrint(r.a, 0, false, st');
    }
    if m == 0 {
      assert Print(r.a, 0, false, st) == read + Closers(0) == read;
    }
  }

  lemma BalanceIs(ts: seq<Token>)
    ensures Balance(ts) == 0 <==> multiset(ts)[Punct("(")] == multiset(ts)[Punct(")")]
  {
  }

  function Kept(t: Token): seq<Token> {
    if t.kind == PunctuationKind then [] else [t]
  }

  function Erase(ts: seq<Token>): seq<Token> {
    if ts == [] then [] else Kept(ts[0]) + Erase(ts[1..])
  }

  /** The operators and operands of a tree from left to right. */
  function InOrder(a: Ast): seq<Token> {
    match a
    case Unary(op, arg, _) => [Op(op)] + InOrder(arg)
    case Binary(op, left, right, _) => InOrder(left) + [Op(op)] + InOrder(right)
    case _ => Bare(a, false, [], true)
  }

  lemma {:induction false} EraseJoin(s: seq<Token>, t: seq<Token>)
    ensures Erase(s + t) == Erase(s) + Erase(t)
  {
    hide Kept, Erase;
    if s == [] {
      assert s + t == t;
      EraseNone();
    } else {
      EraseJoin(s[1..], t);
      EraseStep(s);
      EraseStep(s + t);
      assert (s + t)[1..] == s[1..] + t;
      assert Kept(s[0]) + (Erase(s[1..]) + Erase(t)) == Kept(s[0]) + Erase(s[1..]) + Erase(t);
    }
  }

  lemma EraseNone()
    ensures Erase([]) == []
  {
  }

  lemma EraseStep(s: seq<Token>)
    requires s != []
    ensures Erase(s) == Kept(s[0]) + Erase(s[1..])
  {
    hide Kept;
  }

  lemma {:induction false} EraseWrap(k: nat, ts: seq<Token>)
    ensures Erase(Wrap(k, ts)) == Erase(ts)
  {
    if k > 0 {
      EraseWrap(k - 1, ts);
      EraseJoin([Punct("(")], Wrap(k - 1, ts));
      EraseJoin([Punct("(")] + Wrap(k - 1, ts), [Punct(")")]);
    }
  }

  lemma {:induction false} EraseClosers(m: nat)
    ensures Erase(Closers(m)) == []
  {
    if m > 0 {
      EraseClosers(m - 1);
      assert Closers(m)[1..] == Closers(m - 1);
    }
  }

  lemma {:induction false} ErasePrint(a: Ast, level: nat, guarded: bool, st: Style)
    requires OpTree(a)
    ensures Erase(Print(a, level, guarded, st)) == InOrder(a)
    decreases a, 1
  {
    hide Bare, InOrder;
    var k := Pairs(a, level, guarded, st);
    EraseBare(a, guarded && k == 0, st.kids, st.stop);
    EraseWrap(k, Bare(a, guarded && k == 0, st.kids, st.stop));
  }

  lemma {:induction false} EraseBare(a: Ast, guarded: bool, kids: seq<Style>, stop: bool)
    requires OpTree(a)
    ensures Erase(Bare(a, guarded, kids, stop)) == InOrder(a)
    decreases a, 0
  {
    hide Print, OpLevel, Erase;
    match a
    case Unary(op, arg, _) =>
      EraseOne(Op(op));
      ErasePrint(arg, FACTOR_LEVEL, guarded, Kid(kids, 0, stop));
      EraseJoin([Op(op)], Print(arg, FACTOR_LEVEL, guarded, Kid(kids, 0, stop)));
    case Binary(op, left, right, _) =>
      var p := if OpLevel(op).Some? then OpLevel(op).value else 0;
      var l, r := Print(left, p, true, Kid(kids, 0, stop)), Print(right, p + 1, guarded, Kid(kids, 1, stop));
      ErasePrint(left, p, true, Kid(kids, 0, stop));
      ErasePrint(right, p + 1, guarded, Kid(kids, 1, stop));
      EraseJoin(l + [Op(op)], r);
      EraseJoin(l, [Op(op)]);
      EraseOne(Op(op));
    case Literal(_, _) => EraseOne(Bare(a, guarded, kids, stop)[0]);
    case Identifier(name, _) => EraseOne(Ident(name));
  }

  lemma EraseOne(t: Token)
    requires t.kind != PunctuationKind
    ensures Erase([t]) == [t]
  {
  }

  /** Parentheses aside, the tokens read are the tree's operators and operands in order. */
  lemma TokensInOrder(P: seq<Token>, u: nat, c: nat)
    requires ParseExpression(P, u, c).Ok?
    requires OpTokens(P, c, ParseExpression(P, u, c).cursor)
    ensures var r := ParseExpression(P, u, c); c <= r.cursor < |P| && Erase(P[c..r.cursor + 1]) == InOrder(r.a)
  {
    hide Print, ParseBinary, ParseExpression, Erase, InOrder, Closers;
    var st, m := PrecedenceSound(P, u, c);
    var r := ParseExpression(P, u, c);
    PrecedenceTree(P, u, c);
    ErasePrint(r.a, 0, false, st);
    EraseJoin(P[c..r.cursor + 1], Closers(m));
    EraseClosers(m);
  }

  lemma PrecedenceTree(P: seq<Token>, u: nat, c: nat)
    requires ParseExpression(P, u, c).Ok?
    requires OpTokens(P, c, ParseExpression(P, u, c).cursor)
    ensures OpTree(ParseExpression(P, u, c).a)
  {
    hide Print, ParseBinary;
    var _, _ := BinarySound(P, u, c, 0);
  }

  /** The unbalanced case is real: two opening and one closing parenthesis around a name are accepted. */
  lemma UnbalancedAccepted()
    ensures ParseProgram([Punct("("), Punct("("), Ident("a"), Punct(")")]) == Ok(Identifier("a", TError), 3, 0)
  {
    var P := [Punct("("), Punct("("), Ident("a"), Punct(")")];
    assert ParseFactor(P, 0, 2) == Ok(Identifier("a", TError), 2, 0);
    LeafUp(P, 2, 2);
    assert ParseFactor(P, 0, 1) == Ok(Identifier("a", TError), 3, 0);
    LeafUp(P, 1, 3);
    assert ParseFactor(P, 0, 0) == Ok(Identifier("a", TError), 3, 0);
    LeafUp(P, 0, 3);
  }

  lemma LeafUp(P: seq<Token>, c: nat, q: nat)
    requires ParseFactor(P, 0, c) == Ok(Identifier("a", TError), q, 0)
    requires q + 1 < |P| ==> P[q + 1].kind != OperatorKind
    ensures ParseBinary(P, 0, c, 0) == Ok(Identifier("a", TError), q, 0)
  {
    hide ParseFactor;
    ParserInverse.UpFromFactor(P, 0, c, 0, Identifier("a", TError), q, 0);
    ParserInverse.RestStops(P, 0, q, 0, Identifier("a", TError));
  }
}
