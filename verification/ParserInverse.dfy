/**
 The parser inverts the printer: whatever redundant parentheses are used, parsing the printed tokens gives
 back the tree, left-associative at all seven levels, with the cursor on the last printed token.
*/
module ParserInverse {
  import opened Syntax
  import opened Tokens
  import opened Ir
  import opened ParserSpec
  import opened Printer

  /** The tokens ts stand in P from index c on. */
  predicate Has(P: seq<Token>, c: nat, ts: seq<Token>) {
    c + |ts| <= |P| && P[c..c + |ts|] == ts
  }

  lemma HasSplit(P: seq<Token>, c: nat, a: seq<Token>, b: seq<Token>)
    requires Has(P, c, a + b)
    ensures Has(P, c, a) && Has(P, c + |a|, b)
  {
    assert P[c..c + |a|] == (a + b)[..|a|];
    assert P[c + |a|..c + |a| + |b|] == (a + b)[|a|..];
  }

  lemma HasHead(P: seq<Token>, c: nat, x: seq<Token>)
    requires Has(P, c, x) && |x| >= 1
    ensures c < |P| && P[c] == x[0]
  {
    assert P[c..c + |x|][0] == P[c];
  }

  lemma HasOne(P: seq<Token>, c: nat, t: Token, b: seq<Token>)
    requires Has(P, c, [t] + b)
    ensures c < |P| && P[c] == t && Has(P, c + 1, b)
  {
    HasSplit(P, c, [t], b);
    assert P[c..c + 1][0] == t;
  }

  predicate OpAbove(t: Token, level: nat) {
    t.kind == OperatorKind && OpLevel(t.data).Some? && OpLevel(t.data).value > level
  }

  predicate AnyOp(t: Token) {
    t.kind == OperatorKind && OpLevel(t.data).Some?
  }

  /** What may follow an expression printed for an operand of `level` that ends before index e. */
  predicate Follow(P: seq<Token>, e: nat, level: nat, guarded: bool) {
    e < |P| ==>
      && !OpAbove(P[e], level) && (!guarded ==> !AnyOp(P[e]))
      && !(e > 0 && P[e - 1].kind == IdentifierKind && P[e] == Punct("("))
  }

  /** After the last token of an operand, a level's loop stops unless an operator of that level follows. */
  lemma RestStops(P: seq<Token>, u: nat, q: nat, level: nat, a: Ast)
    requires level <= LAST_LEVEL
    requires q + 1 < |P| ==> !(P[q + 1].kind == OperatorKind && OpLevel(P[q + 1].data) == Some(level))
    ensures ParseRest(P, u, q, level, a) == Ok(a, q, u)
  {
    hide OpLevel;
  }

  /** A factor is an operand at every level. */
  lemma {:induction false} UpFromFactor(P: seq<Token>, u: nat, c: nat, level: nat, a: Ast, q: nat, v: nat)
    requires level <= LAST_LEVEL && ParseFactor(P, u, c) == Ok(a, q, v)
    requires q + 1 < |P| ==> !OpAbove(P[q + 1], level)
    ensures ParseBinary(P, u, c, level) == ParseRest(P, v, q, level, a)
    decreases LAST_LEVEL - level
  {
    hide ParseFactor, ParseRest, OpLevel;
    if level < LAST_LEVEL {
      UpFromFactor(P, u, c, level + 1, a, q, v);
      RestStops(P, v, q, level + 1, a);
    }
  }

  lemma {:induction false} WrapLength(k: nat, ts: seq<Token>)
    ensures |Wrap(k, ts)| == |ts| + 2 * k
  {
    if k > 0 {
      WrapLength(k - 1, ts);
    }
  }

  lemma PrintNonEmpty(a: Ast, level: nat, guarded: bool, st: Style)
    requires !a.UnitNode?
    ensures |Print(a, level, guarded, st)| >= 1
  {
    var k := Pairs(a, level, guarded, st);
    WrapLength(k, Bare(a, guarded && k == 0, st.kids, st.stop));
    BareNonEmpty(a, guarded && k == 0, st.kids, st.stop);
  }

  lemma BareNonEmpty(a: Ast, guarded: bool, kids: seq<Style>, stop: bool)
    requires !a.UnitNode?
    ensures |Bare(a, guarded, kids, stop)| >= 1
  {
  }

  /** No expression starts with a closing parenthesis. */
  lemma {:induction false} FirstToken(a: Ast, level: nat, guarded: bool, st: Style)
    requires Parseable(a) && !a.UnitNode?
    ensures var ts := Print(a, level, guarded, st); |ts| >= 1 && !Starts(ts[0], ')')
    decreases a
  {
    PrintNonEmpty(a, level, guarded, st);
    var k := Pairs(a, level, guarded, st);
    if k == 0 {
      BareFirstToken(a, guarded, st.kids, st.stop);
    }
  }

  lemma {:induction false} BareFirstToken(a: Ast, guarded: bool, kids: seq<Style>, stop: bool)
    requires Parseable(a) && !a.UnitNode?
    ensures var ts := Bare(a, guarded, kids, stop); |ts| >= 1 && !Starts(ts[0], ')')
    decreases a, 0
  {
    hide Print, OpLevel;
    if a.Binary? {
      FirstToken(a.left, if OpLevel(a.op).Some? then OpLevel(a.op).value else 0, true, Kid(kids, 0, stop));
    }
  }

  /** A node printed for an operand of `level`, where it stands, is parsed up to that level's loop. */
  lemma {:induction false} Chain(P: seq<Token>, u: nat, c: nat, a: Ast, level: nat, guarded: bool, st: Style)
    requires level <= LAST_LEVEL && Printable(a, st.stop) && !a.UnitNode?
    requires Has(P, c, Print(a, level, guarded, st))
    requires Follow(P, c + |Print(a, level, guarded, st)|, level, guarded)
    ensures |Print(a, level, guarded, st)| >= 1
    ensures ParseBinary(P, u, c, level)
         == ParseRest(P, u + Units(a), c + |Print(a, level, guarded, st)| - 1, level, a)
    decreases a, 100
  {
    hide ParseBinary, ParseRest, ParseFactor, Bare, Printable, OpLevel;
    PrintNonEmpty(a, level, guarded, st);
    var k, e := Pairs(a, level, guarded, st), c + |Print(a, level, guarded, st)|;
    if k == 0 {
      ChainBare(P, u, c, a, level, guarded, st.kids, st.stop);
    } else {
      Parens(P, u, c, a, k, st.kids, st.stop);
      UpFromFactor(P, u, c, level, a, e - 1, u + Units(a));
    }
  }

  /** The same for an operand of the tightest operators and of unary operators. */
  lemma {:induction false} Factor(P: seq<Token>, u: nat, c: nat, a: Ast, guarded: bool, st: Style)
    requires Printable(a, st.stop) && !a.UnitNode?
    requires Has(P, c, Print(a, FACTOR_LEVEL, guarded, st))
    requires Follow(P, c + |Print(a, FACTOR_LEVEL, guarded, st)|, FACTOR_LEVEL, guarded)
    ensures |Print(a, FACTOR_LEVEL, guarded, st)| >= 1
    ensures ParseFactor(P, u, c) == Ok(a, c + |Print(a, FACTOR_LEVEL, guarded, st)| - 1, u + Units(a))
    decreases a, 99
  {
    hide ParseFactor, Bare;
    PrintNonEmpty(a, FACTOR_LEVEL, guarded, st);
    var k := Pairs(a, FACTOR_LEVEL, guarded, st);
    if k == 0 {
      BareFactor(P, u, c, a, guarded, st.kids, st.stop);
    } else {
      Parens(P, u, c, a, k, st.kids, st.stop);
    }
  }

  /** A whole expression: after it comes no operator. */
  lemma {:induction false} Expression(P: seq<Token>, u: nat, c: nat, a: Ast, st: Style)
    requires Printable(a, st.stop) && !a.UnitNode?
    requires Has(P, c, Print(a, 0, false, st)) && Follow(P, c + |Print(a, 0, false, st)|, 0, false)
    ensures |Print(a, 0, false, st)| >= 1
    ensures ParseExpression(P, u, c) == Ok(a, c + |Print(a, 0, false, st)| - 1, u + Units(a))
    decreases a, 101
  {
    hide ParseBinary, ParseRest, Print;
    Chain(P, u, c, a, 0, false, st);
    RestStops(P, u + Units(a), c + |Print(a, 0, false, st)| - 1, 0, a);
  }

  lemma {:induction false} Parens(P: seq<Token>, u: nat, c: nat, a: Ast, k: nat, kids: seq<Style>, stop: bool)
    requires Printable(a, stop) && !a.UnitNode? && k >= 1 && Has(P, c, Wrap(k, Bare(a, false, kids, stop)))
    ensures |Wrap(k, Bare(a, false, kids, stop))| >= 1
    ensures ParseFactor(P, u, c) == Ok(a, c + |Wrap(k, Bare(a, false, kids, stop))| - 1, u + Units(a))
    decreases a, 50, k
  {
    hide ParseBinary, ParseRest, Bare, Printable, OpLevel, ParseFactor, Wrap, Has;
    var inner := Wrap(k - 1, Bare(a, false, kids, stop));
    BareNonEmpty(a, false, kids, stop);
    ParensLayout(P, c, k, Bare(a, false, kids, stop));
    var e := c + 1 + |inner|;
    if k == 1 {
      WrapNone(Bare(a, false, kids, stop));
      ChainBare(P, u, c + 1, a, 0, false, kids, stop);
    } else {
      Parens(P, u, c + 1, a, k - 1, kids, stop);
      UpFromFactor(P, u, c + 1, 0, a, e - 1, u + Units(a));
    }
    RestStops(P, u + Units(a), e - 1, 0, a);
    ParenthesizedStep(P, u, c, a, e, u + Units(a));
  }

  lemma WrapNone(ts: seq<Token>)
    ensures Wrap(0, ts) == ts
  {
  }

  lemma ParensLayout(P: seq<Token>, c: nat, k: nat, ts: seq<Token>)
    requires k >= 1 && |ts| >= 1 && Has(P, c, Wrap(k, ts))
    ensures var inner := Wrap(k - 1, ts);
            var e := c + 1 + |inner|;
            && |inner| >= 1 && |Wrap(k, ts)| == |inner| + 2 && e < |P|
            && P[c] == Punct("(") && P[e] == Punct(")") && Has(P, c + 1, inner) && Follow(P, e, 0, false)
  {
    var inner := Wrap(k - 1, ts);
    WrapLength(k - 1, ts);
    assert Wrap(k, ts) == [Punct("(")] + (inner + [Punct(")")]);
    HasOne(P, c, Punct("("), inner + [Punct(")")]);
    HasSplit(P, c + 1, inner, [Punct(")")]);
    var e := c + 1 + |inner|;
    assert P[e] == Punct(")") by { assert P[e..e + 1][0] == Punct(")"); }
  }

  lemma ParenthesizedStep(P: seq<Token>, u: nat, c: nat, a: Ast, e: nat, v: nat)
    requires c + 1 < e < |P| && P[c] == Punct("(") && P[e] == Punct(")")
    requires ParseBinary(P, u, c + 1, 0) == Ok(a, e - 1, v)
    ensures ParseFactor(P, u, c) == Ok(a, e, v)
  {
    hide ParseBinary;
  }

  /** A node printed without parentheses of its own. */
  lemma {:induction false} ChainBare(P: seq<Token>, u: nat, c: nat, a: Ast, level: nat, guarded: bool, kids: seq<Style>, stop: bool)
    requires level <= LAST_LEVEL && Printable(a, stop) && !a.UnitNode? && !NeedsParens(a, level, guarded)
    requires Has(P, c, Bare(a, guarded, kids, stop)) && Follow(P, c + |Bare(a, guarded, kids, stop)|, level, guarded)
    ensures |Bare(a, guarded, kids, stop)| >= 1
    ensures ParseBinary(P, u, c, level)
         == ParseRest(P, u + Units(a), c + |Bare(a, guarded, kids, stop)| - 1, level, a)
    decreases a, 10, LAST_LEVEL - level
  {
    hide ParseRest, ParseFactor, Bare, Units;
    BareNonEmpty(a, guarded, kids, stop);
    var e, v := c + |Bare(a, guarded, kids, stop)|, u + Units(a);
    if a.Binary? && OpLevel(a.op) == Some(level) {
      BinaryHere(P, u, c, a, level, guarded, kids, stop);
    } else if level < LAST_LEVEL {
      ChainBare(P, u, c, a, level + 1, guarded, kids, stop);
      RestStops(P, v, e - 1, level + 1, a);
    } else {
      BareFactor(P, u, c, a, guarded, kids, stop);
    }
  }

  /** A binary node at its own level: the loop has its left operand and picks up the right one. */
  lemma {:induction false} BinaryHere(P: seq<Token>, u: nat, c: nat, a: Ast, p: nat, guarded: bool, kids: seq<Style>, stop: bool)
    requires p <= LAST_LEVEL && Printable(a, stop) && a.Binary? && OpLevel(a.op) == Some(p)
    requires Has(P, c, Bare(a, guarded, kids, stop)) && Follow(P, c + |Bare(a, guarded, kids, stop)|, p, guarded)
    ensures |Bare(a, guarded, kids, stop)| >= 1
    ensures ParseBinary(P, u, c, p) == ParseRest(P, u + Units(a), c + |Bare(a, guarded, kids, stop)| - 1, p, a)
    decreases a, 5
  {
    hide ParseBinary, ParseRest, ParseFactor, Print, Bare, Has, Follow, Parseable, EveryIfHasElse, Units, OpLevel;
    BinaryParts(a, stop);
    var left, right := Print(a.left, p, true, Kid(kids, 0, stop)), Print(a.right, p + 1, guarded, Kid(kids, 1, stop));
    BinaryLayout(P, c, a, p, guarded, kids, stop);
    var m := c + |left|;
    var e, v := m + 1 + |right|, u + Units(a.left);
    Chain(P, u, c, a.left, p, true, Kid(kids, 0, stop));
    if p == LAST_LEVEL {
      Factor(P, v, m + 1, a.right, guarded, Kid(kids, 1, stop));
    } else {
      Chain(P, v, m + 1, a.right, p + 1, guarded, Kid(kids, 1, stop));
      RestStops(P, v + Units(a.right), e - 1, p + 1, a.right);
    }
    RestStep(P, v, m - 1, p, a.left, a.right, e - 1, v + Units(a.right));
  }

  lemma BinaryParts(a: Ast, stop: bool)
    requires Printable(a, stop) && a.Binary?
    ensures Printable(a.left, stop) && Printable(a.right, stop) && IsTerm(a.left) && IsTerm(a.right)
    ensures a == Binary(a.op, a.left, a.right, TError) && Units(a) == Units(a.left) + Units(a.right)
  {
  }

  /** Where the operands and the operator of a binary node stand, and what follows each. */
  lemma BinaryLayout(P: seq<Token>, c: nat, a: Ast, p: nat, guarded: bool, kids: seq<Style>, stop: bool)
    requires p <= LAST_LEVEL && Parseable(a) && a.Binary? && OpLevel(a.op) == Some(p)
    requires Has(P, c, Bare(a, guarded, kids, stop)) && Follow(P, c + |Bare(a, guarded, kids, stop)|, p, guarded)
    ensures var left, right := Print(a.left, p, true, Kid(kids, 0, stop)), Print(a.right, p + 1, guarded, Kid(kids, 1, stop));
            var m := c + |left|;
            var e := m + 1 + |right|;
            && |Bare(a, guarded, kids, stop)| == |left| + 1 + |right| && |left| >= 1 && |right| >= 1
            && m + 1 < |P| && P[m] == Op(a.op) && Has(P, c, left) && Has(P, m + 1, right)
            && Follow(P, m, p, true) && Follow(P, e, p + 1, guarded)
            && (e < |P| ==> !(P[e].kind == OperatorKind && OpLevel(P[e].data) == Some(p + 1)))
  {
    hide Print, OpLevel, Has, Follow, Parseable, EveryIfHasElse;
    var left, right := Print(a.left, p, true, Kid(kids, 0, stop)), Print(a.right, p + 1, guarded, Kid(kids, 1, stop));
    OperandsThere(a);
    FollowTighter(P, c + |Bare(a, guarded, kids, stop)|, p, guarded);
    PrintNonEmpty(a.left, p, true, Kid(kids, 0, stop));
    PrintNonEmpty(a.right, p + 1, guarded, Kid(kids, 1, stop));
    assert Bare(a, guarded, kids, stop) == left + ([Op(a.op)] + right);
    HasSplit(P, c, left, [Op(a.op)] + right);
    var m := c + |left|;
    HasOne(P, m, Op(a.op), right);
    OperatorFollows(P, m, p, a.op);
  }

  lemma OperandsThere(a: Ast)
    requires Parseable(a) && a.Binary?
    ensures !a.left.UnitNode? && !a.right.UnitNode?
  {
  }

  lemma FollowTighter(P: seq<Token>, e: nat, p: nat, guarded: bool)
    requires Follow(P, e, p, guarded)
    ensures Follow(P, e, p + 1, guarded)
    ensures e < |P| ==> !(P[e].kind == OperatorKind && OpLevel(P[e].data) == Some(p + 1))
  {
    hide OpLevel;
  }

  lemma OperatorFollows(P: seq<Token>, m: nat, p: nat, op: string)
    requires m < |P| && P[m] == Op(op) && OpLevel(op) == Some(p)
    ensures Follow(P, m, p, true)
  {
  }

  /** One turn of the loop. */
  lemma RestStep(P: seq<Token>, u: nat, q: nat, p: nat, left: Ast, right: Ast, e: nat, v: nat)
    requires p <= LAST_LEVEL && q + 2 < |P| && P[q + 1].kind == OperatorKind && OpLevel(P[q + 1].data) == Some(p)
    requires IsTerm(left) && IsTerm(right)
    requires (if p == LAST_LEVEL then ParseFactor(P, u, q + 2) else ParseBinary(P, u, q + 2, p + 1)) == Ok(right, e, v)
    ensures ParseRest(P, u, q, p, left) == ParseRest(P, v, e, p, Binary(P[q + 1].data, left, right, TError))
  {
    hide ParseFactor, ParseBinary, OpLevel;
  }

  /** The forms the parser reads in one piece. */
  lemma {:induction false} BareFactor(P: seq<Token>, u: nat, c: nat, a: Ast, guarded: bool, kids: seq<Style>, stop: bool)
    requires Printable(a, stop) && !a.UnitNode? && !a.Binary? && !(guarded && OpenEnded(a))
    requires Has(P, c, Bare(a, guarded, kids, stop)) && Follow(P, c + |Bare(a, guarded, kids, stop)|, LAST_LEVEL, guarded)
    ensures |Bare(a, guarded, kids, stop)| >= 1
    ensures ParseFactor(P, u, c) == Ok(a, c + |Bare(a, guarded, kids, stop)| - 1, u + Units(a))
    decreases a, 4
  {
    hide ParseFactor, Bare, Units, Follow;
    match a
    case Literal(_, _) => LeafFactor(P, u, c, a, guarded, kids, stop);
    case Identifier(_, _) => LeafFactor(P, u, c, a, guarded, kids, stop);
    case Unary(_, _, _) => UnaryFactor(P, u, c, a, guarded, kids, stop);
    case Call(_, _, _) => CallFactor(P, u, c, a, guarded, kids, stop);
    case Block(_, _) => BlockFactor(P, u, c, a, guarded, kids, stop);
    case IfThen(_, _, _) => IfThenFactor(P, u, c, a, guarded, kids, stop);
    case IfElse(_, _, _, _) => IfFactor(P, u, c, a, kids, stop);
    case While(_, _, _) => WhileFactor(P, u, c, a, kids, stop);
    case VarExpr(_, _, _, _) => VarFactor(P, u, c, a, kids, stop);
  }

  lemma LeafFactor(P: seq<Token>, u: nat, c: nat, a: Ast, guarded: bool, kids: seq<Style>, stop: bool)
    requires Parseable(a) && (a.Literal? || a.Identifier?)
    requires Has(P, c, Bare(a, guarded, kids, stop)) && Follow(P, c + |Bare(a, guarded, kids, stop)|, LAST_LEVEL, guarded)
    ensures |Bare(a, guarded, kids, stop)| >= 1
    ensures ParseFactor(P, u, c) == Ok(a, c + |Bare(a, guarded, kids, stop)| - 1, u + Units(a))
  {
    assert P[c..c + 1][0] == P[c];
  }

  lemma {:induction false} UnaryFactor(P: seq<Token>, u: nat, c: nat, a: Ast, guarded: bool, kids: seq<Style>, stop: bool)
    requires Printable(a, stop) && a.Unary?
    requires Has(P, c, Bare(a, guarded, kids, stop)) && Follow(P, c + |Bare(a, guarded, kids, stop)|, LAST_LEVEL, guarded)
    ensures |Bare(a, guarded, kids, stop)| >= 1
    ensures ParseFactor(P, u, c) == Ok(a, c + |Bare(a, guarded, kids, stop)| - 1, u + Units(a))
    decreases a, 3
  {
    hide Print;
    var arg := Print(a.arg, FACTOR_LEVEL, guarded, Kid(kids, 0, stop));
    HasOne(P, c, Op(a.op), arg);
    assert Follow(P, c + 1 + |arg|, FACTOR_LEVEL, guarded);
    Factor(P, u, c + 1, a.arg, guarded, Kid(kids, 0, stop));
  }

  /** A token that ends an expression printed before it. */
  lemma EndsExpression(P: seq<Token>, e: nat)
    requires e < |P| && P[e].kind != OperatorKind && P[e] != Punct("(")
    ensures Follow(P, e, 0, false)
  {
  }

  lemma {:induction false} IfFactor(P: seq<Token>, u: nat, c: nat, a: Ast, kids: seq<Style>, stop: bool)
    requires Printable(a, stop) && a.IfElse?
    requires Has(P, c, Bare(a, false, kids, stop)) && Follow(P, c + |Bare(a, false, kids, stop)|, LAST_LEVEL, false)
    ensures |Bare(a, false, kids, stop)| >= 1
    ensures ParseFactor(P, u, c) == Ok(a, c + |Bare(a, false, kids, stop)| - 1, u + Units(a))
    decreases a, 3
  {
    hide Print, ParseExpression, ParseFactor, Bare, Has, Follow;
    var x, y, z := Print(a.cond, 0, false, Kid(kids, 0, stop)), Print(a.thn, 0, false, Kid(kids, 1, stop)), Print(a.els, 0, false, Kid(kids, 2, stop));
    IfLayout(P, c, a, kids, stop);
    var t := c + 1 + |x|;
    var l := t + 1 + |y|;
    Expression(P, u, c + 1, a.cond, Kid(kids, 0, stop));
    Expression(P, u + Units(a.cond), t + 1, a.thn, Kid(kids, 1, stop));
    Expression(P, u + Units(a.cond) + Units(a.thn), l + 1, a.els, Kid(kids, 2, stop));
    IfStep(P, u, c, a, t, u + Units(a.cond), l, u + Units(a.cond) + Units(a.thn), l + |z|, u + Units(a));
  }

  /** An `if` without `else` swallows the token behind it. */
  lemma {:induction false} IfThenFactor(P: seq<Token>, u: nat, c: nat, a: Ast, guarded: bool, kids: seq<Style>, stop: bool)
    requires Printable(a, stop) && a.IfThen? && Has(P, c, Bare(a, guarded, kids, stop))
    ensures |Bare(a, guarded, kids, stop)| >= 1
    ensures ParseFactor(P, u, c) == Ok(a, c + |Bare(a, guarded, kids, stop)| - 1, u + Units(a))
    decreases a, 3
  {
    hide Print, ParseExpression, ParseFactor, Bare, Has, Follow;
    var x, y := Print(a.cond, 0, false, Kid(kids, 0, stop)), Print(a.thn, 0, false, Kid(kids, 1, stop));
    IfThenLayout(P, c, a, guarded, kids, stop);
    var t := c + 1 + |x|;
    var e := t + 1 + |y|;
    Expression(P, u, c + 1, a.cond, Kid(kids, 0, stop));
    Expression(P, u + Units(a.cond), t + 1, a.thn, Kid(kids, 1, stop));
    IfThenStep(P, u, c, a, t, u + Units(a.cond), e - 1, u + Units(a));
  }

  lemma IfThenLayout(P: seq<Token>, c: nat, a: Ast, guarded: bool, kids: seq<Style>, stop: bool)
    requires Parseable(a) && a.IfThen? && Has(P, c, Bare(a, guarded, kids, stop))
    ensures var x, y := Print(a.cond, 0, false, Kid(kids, 0, stop)), Print(a.thn, 0, false, Kid(kids, 1, stop));
            var t := c + 1 + |x|;
            var e := t + 1 + |y|;
            && |Bare(a, guarded, kids, stop)| == 2 + |x| + |y| + |Stop(stop)| && |x| >= 1 && |y| >= 1 && t < |P|
            && P[c] == Keyword("if") && P[t] == Keyword("then") && Has(P, c + 1, x) && Has(P, t + 1, y)
            && Follow(P, t, 0, false) && (stop ==> e < |P| && P[e] == Punct(";") && Follow(P, e, 0, false))
  {
    hide Print, OpLevel, Has, Follow, EveryIfHasElse;
    var x, y := Print(a.cond, 0, false, Kid(kids, 0, stop)), Print(a.thn, 0, false, Kid(kids, 1, stop));
    PrintNonEmpty(a.cond, 0, false, Kid(kids, 0, stop));
    PrintNonEmpty(a.thn, 0, false, Kid(kids, 1, stop));
    TwoParts(P, c, Keyword("if"), x, Keyword("then"), y + Stop(stop));
    var t := c + 1 + |x|;
    HasSplit(P, t + 1, y, Stop(stop));
    EndsExpression(P, t);
    if stop {
      HasHead(P, t + 1 + |y|, [Punct(";")]);
      EndsExpression(P, t + 1 + |y|);
    }
  }

  lemma IfThenStep(P: seq<Token>, u: nat, c: nat, a: Ast, t: nat, v: nat, q: nat, w: nat)
    requires a.IfThen? && a.ty == TError && c + 1 < t < q + 1 < |P|
    requires P[c] == Keyword("if") && P[t] == Keyword("then") && P[q + 1] == Punct(";")
    requires ParseExpression(P, u, c + 1) == Ok(a.cond, t - 1, v)
    requires ParseExpression(P, v, t + 1) == Ok(a.thn, q, w)
    ensures ParseFactor(P, u, c) == Ok(a, q + 1, w)
  {
    hide ParseExpression;
    assert ParseElse(P, w, q, a.cond, a.thn) == Ok(a, q + 1, w);
    assert ParseIf(P, u, c) == Ok(a, q + 1, w);
  }

  lemma TwoParts(P: seq<Token>, c: nat, k1: Token, x: seq<Token>, k2: Token, y: seq<Token>)
    requires Has(P, c, [k1] + (x + ([k2] + y)))
    ensures var t := c + 1 + |x|;
            t < |P| && P[c] == k1 && P[t] == k2 && Has(P, c + 1, x) && Has(P, t + 1, y)
  {
    HasOne(P, c, k1, x + ([k2] + y));
    HasSplit(P, c + 1, x, [k2] + y);
    HasOne(P, c + 1 + |x|, k2, y);
  }

  lemma ThreeParts(P: seq<Token>, c: nat, k1: Token, x: seq<Token>, k2: Token, y: seq<Token>, k3: Token, z: seq<Token>)
    requires Has(P, c, [k1] + (x + ([k2] + (y + ([k3] + z)))))
    ensures var t := c + 1 + |x|;
            var l := t + 1 + |y|;
            && l < |P| && P[c] == k1 && P[t] == k2 && P[l] == k3
            && Has(P, c + 1, x) && Has(P, t + 1, y) && Has(P, l + 1, z)
  {
    TwoParts(P, c, k1, x, k2, y + ([k3] + z));
    var t := c + 1 + |x|;
    HasSplit(P, t + 1, y, [k3] + z);
    HasOne(P, t + 1 + |y|, k3, z);
  }

  lemma FollowsLoosest(P: seq<Token>, e: nat)
    requires Follow(P, e, LAST_LEVEL, false)
    ensures Follow(P, e, 0, false)
  {
  }

  lemma IfLayout(P: seq<Token>, c: nat, a: Ast, kids: seq<Style>, stop: bool)
    requires Parseable(a) && a.IfElse?
    requires Has(P, c, Bare(a, false, kids, stop)) && Follow(P, c + |Bare(a, false, kids, stop)|, LAST_LEVEL, false)
    ensures var x, y, z := Print(a.cond, 0, false, Kid(kids, 0, stop)), Print(a.thn, 0, false, Kid(kids, 1, stop)), Print(a.els, 0, false, Kid(kids, 2, stop));
            var t := c + 1 + |x|;
            var l := t + 1 + |y|;
            && |Bare(a, false, kids, stop)| == 3 + |x| + |y| + |z| && |x| >= 1 && |y| >= 1 && |z| >= 1 && l + 1 < |P|
            && P[c] == Keyword("if") && P[t] == Keyword("then") && P[l] == Keyword("else")
            && Has(P, c + 1, x) && Has(P, t + 1, y) && Has(P, l + 1, z)
            && Follow(P, t, 0, false) && Follow(P, l, 0, false) && Follow(P, l + 1 + |z|, 0, false)
  {
    hide Print, OpLevel, Has, Follow, EveryIfHasElse;
    FollowsLoosest(P, c + |Bare(a, false, kids, stop)|);
    var x, y, z := Print(a.cond, 0, false, Kid(kids, 0, stop)), Print(a.thn, 0, false, Kid(kids, 1, stop)), Print(a.els, 0, false, Kid(kids, 2, stop));
    PrintNonEmpty(a.cond, 0, false, Kid(kids, 0, stop));
    PrintNonEmpty(a.thn, 0, false, Kid(kids, 1, stop));
    PrintNonEmpty(a.els, 0, false, Kid(kids, 2, stop));
    ThreeParts(P, c, Keyword("if"), x, Keyword("then"), y, Keyword("else"), z);
    EndsExpression(P, c + 1 + |x|);
    EndsExpression(P, c + 1 + |x| + 1 + |y|);
  }

  lemma IfStep(P: seq<Token>, u: nat, c: nat, a: Ast, t: nat, v: nat, l: nat, w: nat, e: nat, z: nat)
    requires a.IfElse? && a.ty == TError && c + 1 < t && t + 1 < l && l + 1 < |P|
    requires P[c] == Keyword("if") && P[t] == Keyword("then") && P[l] == Keyword("else")
    requires ParseExpression(P, u, c + 1) == Ok(a.cond, t - 1, v)
    requires ParseExpression(P, v, t + 1) == Ok(a.thn, l - 1, w)
    requires ParseExpression(P, w, l + 1) == Ok(a.els, e, z)
    ensures ParseFactor(P, u, c) == Ok(a, e, z)
  {
    hide ParseExpression;
    assert ParseElse(P, w, l - 1, a.cond, a.thn) == Ok(a, e, z);
    assert ParseIf(P, u, c) == Ok(a, e, z);
  }

  lemma {:induction false} WhileFactor(P: seq<Token>, u: nat, c: nat, a: Ast, kids: seq<Style>, stop: bool)
    requires Printable(a, stop) && a.While?
    requires Has(P, c, Bare(a, false, kids, stop)) && Follow(P, c + |Bare(a, false, kids, stop)|, LAST_LEVEL, false)
    ensures |Bare(a, false, kids, stop)| >= 1
    ensures ParseFactor(P, u, c) == Ok(a, c + |Bare(a, false, kids, stop)| - 1, u + Units(a))
    decreases a, 3
  {
    hide Print, ParseExpression, ParseFactor, Bare, Has, Follow;
    var x, y := Print(a.cond, 0, false, Kid(kids, 0, stop)), Print(a.body, 0, false, Kid(kids, 1, stop));
    WhileLayout(P, c, a, kids, stop);
    var t := c + 1 + |x|;
    Expression(P, u, c + 1, a.cond, Kid(kids, 0, stop));
    Expression(P, u + Units(a.cond), t + 1, a.body, Kid(kids, 1, stop));
    WhileStep(P, u, c, a, t, u + Units(a.cond), t + |y|, u + Units(a));
  }

  lemma WhileLayout(P: seq<Token>, c: nat, a: Ast, kids: seq<Style>, stop: bool)
    requires Parseable(a) && a.While?
    requires Has(P, c, Bare(a, false, kids, stop)) && Follow(P, c + |Bare(a, false, kids, stop)|, LAST_LEVEL, false)
    ensures var x, y := Print(a.cond, 0, false, Kid(kids, 0, stop)), Print(a.body, 0, false, Kid(kids, 1, stop));
            var t := c + 1 + |x|;
            && |Bare(a, false, kids, stop)| == 2 + |x| + |y| && |x| >= 1 && |y| >= 1 && t + 1 < |P|
            && P[c] == Keyword("while") && P[t] == Keyword("do") && Has(P, c + 1, x) && Has(P, t + 1, y)
            && Follow(P, t, 0, false) && Follow(P, t + 1 + |y|, 0, false)
  {
    hide Print, OpLevel, Has;
    var x, y := Print(a.cond, 0, false, Kid(kids, 0, stop)), Print(a.body, 0, false, Kid(kids, 1, stop));
    PrintNonEmpty(a.cond, 0, false, Kid(kids, 0, stop));
    PrintNonEmpty(a.body, 0, false, Kid(kids, 1, stop));
    TwoParts(P, c, Keyword("while"), x, Keyword("do"), y);
    EndsExpression(P, c + 1 + |x|);
  }

  lemma WhileStep(P: seq<Token>, u: nat, c: nat, a: Ast, t: nat, v: nat, e: nat, z: nat)
    requires a.While? && a.ty == TError && c + 1 < t && t + 1 < |P| && P[c] == Keyword("while") && P[t] == Keyword("do")
    requires ParseExpression(P, u, c + 1) == Ok(a.cond, t - 1, v)
    requires ParseExpression(P, v, t + 1) == Ok(a.body, e, z)
    ensures ParseFactor(P, u, c) == Ok(a, e, z)
  {
    hide ParseExpression;
  }

  lemma {:induction false} VarFactor(P: seq<Token>, u: nat, c: nat, a: Ast, kids: seq<Style>, stop: bool)
    requires Printable(a, stop) && a.VarExpr?
    requires Has(P, c, Bare(a, false, kids, stop)) && Follow(P, c + |Bare(a, false, kids, stop)|, LAST_LEVEL, false)
    ensures |Bare(a, false, kids, stop)| >= 1
    ensures ParseFactor(P, u, c) == Ok(a, c + |Bare(a, false, kids, stop)| - 1, u + Units(a))
    decreases a, 3
  {
    hide Print, ParseExpression, ParseFactor, Has, Bare, Follow;
    var x := Print(a.init, 0, false, Kid(kids, 0, stop));
    var t := c + 2 + |TypeDecl(a.decl)|;
    VarLayout(P, c, a, kids, stop);
    Expression(P, u, t + 1, a.init, Kid(kids, 0, stop));
    VarStep(P, u, c, a, t, t + |x|, u + Units(a));
  }

  lemma VarLayout(P: seq<Token>, c: nat, a: Ast, kids: seq<Style>, stop: bool)
    requires Parseable(a) && a.VarExpr?
    requires Has(P, c, Bare(a, false, kids, stop)) && Follow(P, c + |Bare(a, false, kids, stop)|, LAST_LEVEL, false)
    ensures var x := Print(a.init, 0, false, Kid(kids, 0, stop));
            var t := c + 2 + |TypeDecl(a.decl)|;
            && |Bare(a, false, kids, stop)| == 3 + |TypeDecl(a.decl)| + |x| && |x| >= 1 && t + 1 < |P|
            && P[c] == Keyword("var") && P[c + 1] == Ident(a.name) && P[t] == Op("=")
            && (a.decl != "" ==> P[c + 2] == Punct(":") && P[c + 3] == Ident(a.decl))
            && Has(P, t + 1, x) && Follow(P, t + 1 + |x|, 0, false)
  {
    hide Print, Bare, OpLevel, Has, Parseable, EveryIfHasElse, TypeDecl, Follow;
    InitThere(a);
    var x, decl := Print(a.init, 0, false, Kid(kids, 0, stop)), TypeDecl(a.decl);
    VarText(a, kids, stop);
    FollowsLoosest(P, c + |Bare(a, false, kids, stop)|);
    PrintNonEmpty(a.init, 0, false, Kid(kids, 0, stop));
    DeclarationParts(P, c, Keyword("var"), Ident(a.name), decl, Op("="), x);
    DeclLayout(P, c + 2, a.decl);
  }

  lemma VarText(a: Ast, kids: seq<Style>, stop: bool)
    requires a.VarExpr?
    ensures Bare(a, false, kids, stop)
         == [Keyword("var")] + ([Ident(a.name)] + (TypeDecl(a.decl) + ([Op("=")] + Print(a.init, 0, false, Kid(kids, 0, stop)))))
  {
    hide Print;
  }

  /** Two tokens, a text, a token and a text. */
  lemma DeclarationParts(P: seq<Token>, c: nat, t1: Token, t2: Token, x: seq<Token>, t3: Token, y: seq<Token>)
    requires Has(P, c, [t1] + ([t2] + (x + ([t3] + y)))) && |y| >= 1
    ensures var t := c + 2 + |x|;
            && |[t1] + ([t2] + (x + ([t3] + y)))| == 3 + |x| + |y| && t + 1 < |P|
            && P[c] == t1 && P[c + 1] == t2 && P[t] == t3 && Has(P, c + 2, x) && Has(P, t + 1, y)
  {
    hide Has;
    HasOne(P, c, t1, [t2] + (x + ([t3] + y)));
    HasOne(P, c + 1, t2, x + ([t3] + y));
    HasSplit(P, c + 2, x, [t3] + y);
    HasOne(P, c + 2 + |x|, t3, y);
    HasHead(P, c + 2 + |x| + 1, y);
  }

  lemma InitThere(a: Ast)
    requires Parseable(a) && a.VarExpr?
    ensures !a.init.UnitNode?
  {
  }

  lemma DeclLayout(P: seq<Token>, c: nat, decl: string)
    requires Has(P, c, TypeDecl(decl))
    ensures decl != "" ==> c + 1 < |P| && P[c] == Punct(":") && P[c + 1] == Ident(decl)
  {
    if decl != "" {
      assert P[c..c + 2][0] == P[c] && P[c..c + 2][1] == P[c + 1];
    }
  }

  lemma VarStep(P: seq<Token>, u: nat, c: nat, a: Ast, t: nat, e: nat, v: nat)
    requires a.VarExpr? && a.ty == TError && t == c + 2 + |TypeDecl(a.decl)| && t + 1 < |P|
    requires P[c] == Keyword("var") && P[c + 1] == Ident(a.name) && P[t] == Op("=")
    requires a.decl != "" ==> P[c + 2] == Punct(":") && P[c + 3] == Ident(a.decl)
    requires ParseExpression(P, u, t + 1) == Ok(a.init, e, v)
    ensures ParseFactor(P, u, c) == Ok(a, e, v)
  {
    hide ParseExpression;
  }

  lemma {:induction false} CallFactor(P: seq<Token>, u: nat, c: nat, a: Ast, guarded: bool, kids: seq<Style>, stop: bool)
    requires Printable(a, stop) && a.Call?
    requires Has(P, c, Bare(a, guarded, kids, stop))
    ensures |Bare(a, guarded, kids, stop)| >= 1
    ensures ParseFactor(P, u, c) == Ok(a, c + |Bare(a, guarded, kids, stop)| - 1, u + Units(a))
    decreases a, 3
  {
    hide PrintArgs, ParseArgs;
    var args := PrintArgs(a.args, kids, 0, stop);
    assert Bare(a, guarded, kids, stop) == [Ident(a.callee)] + ([Punct("(")] + args);
    HasOne(P, c, Ident(a.callee), [Punct("(")] + args);
    HasOne(P, c + 1, Punct("("), args);
    Arguments(P, u, c + 2, a.args, kids, 0, stop);
  }

  lemma SkipHere(P: seq<Token>, c: nat)
    requires c < |P| && (P[c] == Punct(",") || P[c] == Punct(")"))
    ensures SkipToSeparator(P, c) == Some(c)
  {
  }

  lemma {:induction false} Arguments(P: seq<Token>, u: nat, c: nat, es: seq<Ast>, kids: seq<Style>, i: nat, stop: bool)
    requires PrintableArgs(es, stop) && Has(P, c, PrintArgs(es, kids, i, stop))
    ensures |PrintArgs(es, kids, i, stop)| >= 1
    ensures ParseArgs(P, u, c) == OkList(es, c + |PrintArgs(es, kids, i, stop)| - 1, u + UnitsIn(es))
    decreases es, 102
  {
    hide Print, ParseExpression, ParseArgs, SkipToSeparator, Has, Follow, Parseable, EveryIfHasElse, Units;
    ArgsUnfold(P, u, c);
    if es == [] {
      NoArguments(P, u, c, kids, i, stop);
    } else {
      var x := Print(es[0], 0, false, Kid(kids, i, stop));
      var t := c + |x|;
      ArgumentLayout(P, c, es, kids, i, stop);
      Expression(P, u, c, es[0], Kid(kids, i, stop));
      SkipHere(P, t);
      if |es| > 1 {
        Arguments(P, u + Units(es[0]), t + 1, es[1..], kids, i + 1, stop);
        assert [es[0]] + es[1..] == es;
      } else {
        assert es == [es[0]] && UnitsIn(es[1..]) == 0;
      }
    }
  }

  lemma NoArguments(P: seq<Token>, u: nat, c: nat, kids: seq<Style>, i: nat, stop: bool)
    requires Has(P, c, PrintArgs([], kids, i, stop))
    ensures ParseArgs(P, u, c) == OkList([], c, u)
  {
    assert P[c..c + 1][0] == P[c];
  }

  lemma ArgumentLayout(P: seq<Token>, c: nat, es: seq<Ast>, kids: seq<Style>, i: nat, stop: bool)
    requires es != [] && ParseableArgs(es) && Has(P, c, PrintArgs(es, kids, i, stop))
    ensures var x := Print(es[0], 0, false, Kid(kids, i, stop));
            var t := c + |x|;
            && |x| >= 1 && t < |P| && Has(P, c, x) && !Starts(P[c], ')') && Follow(P, t, 0, false)
            && (|es| == 1 ==> P[t] == Punct(")") && |PrintArgs(es, kids, i, stop)| == |x| + 1)
            && (|es| > 1 ==> P[t] == Punct(",") && Has(P, t + 1, PrintArgs(es[1..], kids, i + 1, stop))
                             && |PrintArgs(es, kids, i, stop)| == |x| + 1 + |PrintArgs(es[1..], kids, i + 1, stop)|)
  {
    hide Print, OpLevel, Has, Parseable, EveryIfHasElse, Follow;
    var x := Print(es[0], 0, false, Kid(kids, i, stop));
    var rest := if |es| == 1 then [Punct(")")] else [Punct(",")] + PrintArgs(es[1..], kids, i + 1, stop);
    assert PrintArgs(es, kids, i, stop) == x + rest;
    HasSplit(P, c, x, rest);
    var t := c + |x|;
    FirstToken(es[0], 0, false, Kid(kids, i, stop));
    HasHead(P, c, x);
    HasHead(P, t, rest);
    EndsExpression(P, t);
    if |es| > 1 {
      HasOne(P, t, Punct(","), PrintArgs(es[1..], kids, i + 1, stop));
    }
  }

  lemma {:induction false} BlockFactor(P: seq<Token>, u: nat, c: nat, a: Ast, guarded: bool, kids: seq<Style>, stop: bool)
    requires Printable(a, stop) && a.Block?
    requires Has(P, c, Bare(a, guarded, kids, stop))
    ensures |Bare(a, guarded, kids, stop)| >= 1
    ensures ParseFactor(P, u, c) == Ok(a, c + |Bare(a, guarded, kids, stop)| - 1, u + Units(a))
    decreases a, 3
  {
    hide PrintStatements, ParseStatements;
    var body := PrintStatements(a.stmts, kids, 0, stop);
    HasOne(P, c, Punct("{"), body);
    StatementList(P, u, c, a.stmts, kids, 0, stop);
  }

  lemma OneUnit()
    ensures UnitsIn([UnitNode]) == 1
  {
  }

  lemma {:induction false} StatementList(P: seq<Token>, u: nat, c: nat, es: seq<Ast>, kids: seq<Style>, i: nat, stop: bool)
    requires es != [] && !es[0].UnitNode? && PrintableStatements(es, stop)
    requires c < |P| && Has(P, c + 1, PrintStatements(es, kids, i, stop))
    ensures ParseStatements(P, u, c) == OkList(es, c + |PrintStatements(es, kids, i, stop)|, u + UnitsIn(es))
    decreases es, 102
  {
    hide Print, ParseExpression, ParseStatements, Has, Follow, Parseable, EveryIfHasElse, Units;
    StatementsUnfold(P, u, c);
    var x := Print(es[0], 0, false, Kid(kids, i, stop));
    var t := c + 1 + |x|;
    StatementLayout(P, c + 1, es, kids, i, stop);
    Expression(P, u, c + 1, es[0], Kid(kids, i, stop));
    if |es| == 1 {
      assert es == [es[0]] && UnitsIn(es[1..]) == 0;
    } else if es[1..] == [UnitNode] {
      OneUnit();
      assert es == [es[0], UnitNode] && UnitsIn(es[1..]) == 1;
    } else {
      NotClosing(P, t + 1, es[1..], kids, i + 1, stop);
      StatementList(P, u + Units(es[0]), t, es[1..], kids, i + 1, stop);
      assert [es[0]] + es[1..] == es;
    }
  }

  lemma StatementLayout(P: seq<Token>, c: nat, es: seq<Ast>, kids: seq<Style>, i: nat, stop: bool)
    requires es != [] && !es[0].UnitNode? && PrintableStatements(es, stop) && Has(P, c, PrintStatements(es, kids, i, stop))
    ensures var x := Print(es[0], 0, false, Kid(kids, i, stop));
            var t := c + |x|;
            && |x| >= 1 && t < |P| && Has(P, c, x) && Follow(P, t, 0, false)
            && (|es| == 1 ==> P[t] == Punct("}") && |PrintStatements(es, kids, i, stop)| == |x| + 1)
            && (|es| > 1 ==> P[t] == Punct(";") && Has(P, t + 1, PrintStatements(es[1..], kids, i + 1, stop))
                             && |PrintStatements(es, kids, i, stop)| == |x| + 1 + |PrintStatements(es[1..], kids, i + 1, stop)|)
            && (es[1..] == [UnitNode] ==> t + 1 < |P| && P[t + 1] == Punct("}") && |PrintStatements(es[1..], kids, i + 1, stop)| == 1)
  {
    hide Print, OpLevel, Has, Parseable, EveryIfHasElse, Follow;
    var x := Print(es[0], 0, false, Kid(kids, i, stop));
    PrintNonEmpty(es[0], 0, false, Kid(kids, i, stop));
    var rest := if |es| == 1 then [Punct("}")] else [Punct(";")] + PrintStatements(es[1..], kids, i + 1, stop);
    assert PrintStatements(es, kids, i, stop) == x + rest;
    HasSplit(P, c, x, rest);
    var t := c + |x|;
    HasHead(P, t, rest);
    EndsExpression(P, t);
    if |es| > 1 {
      HasOne(P, t, Punct(";"), PrintStatements(es[1..], kids, i + 1, stop));
      if es[1..] == [UnitNode] {
        assert PrintStatements(es[1..], kids, i + 1, stop) == [Punct("}")];
        HasHead(P, t + 1, [Punct("}")]);
      }
    }
  }

  /** A further statement does not start with a closing brace. */
  lemma {:induction false} NotClosing(P: seq<Token>, c: nat, es: seq<Ast>, kids: seq<Style>, i: nat, stop: bool)
    requires es != [] && PrintableStatements(es, stop) && es != [UnitNode] && Has(P, c, PrintStatements(es, kids, i, stop))
    ensures !es[0].UnitNode? && c < |P| && P[c] != Punct("}")
  {
    hide Print, Has, Parseable;
    var x := Print(es[0], 0, false, Kid(kids, i, stop));
    var rest := if |es| == 1 then [Punct("}")] else [Punct(";")] + PrintStatements(es[1..], kids, i + 1, stop);
    assert PrintStatements(es, kids, i, stop) == x + rest;
    HasSplit(P, c, x, rest);
    FirstTokenNotBrace(es[0], 0, false, Kid(kids, i, stop));
    HasHead(P, c, x);
  }

  lemma {:induction false} FirstTokenNotBrace(a: Ast, level: nat, guarded: bool, st: Style)
    requires Parseable(a) && !a.UnitNode?
    ensures var ts := Print(a, level, guarded, st); |ts| >= 1 && ts[0] != Punct("}")
    decreases a, 1
  {
    PrintNonEmpty(a, level, guarded, st);
    var k := Pairs(a, level, guarded, st);
    if k == 0 {
      hide Print;
      if a.Binary? {
        FirstTokenNotBrace(a.left, if OpLevel(a.op).Some? then OpLevel(a.op).value else 0, true, Kid(st.kids, 0, st.stop));
      }
    }
  }

  /**
   The parser inverts the printer.  The tree may be printed with any redundant parentheses, anywhere in a
   token vector, as long as what follows is not an operator (nor `(` after an identifier, which makes a call);
   behind each `if` without `else` there is a token for the parser to step over.
  */
  lemma ParserInvertsPrinter(before: seq<Token>, a: Ast, st: Style, after: seq<Token>, u: nat)
    requires Printable(a, st.stop) && !a.UnitNode?
    requires var ts := Print(a, 0, false, st);
             after != [] && ts != [] ==> !AnyOp(after[0]) && !(ts[|ts| - 1].kind == IdentifierKind && after[0] == Punct("("))
    ensures var ts := Print(a, 0, false, st);
            ts != [] && ParseExpression(before + ts + after, u, |before|) == Ok(a, |before| + |ts| - 1, u + Units(a))
  {
    hide Print, ParseExpression, OpLevel;
    var ts := Print(a, 0, false, st);
    var P, e := before + ts + after, |before| + |ts|;
    PrintNonEmpty(a, 0, false, st);
    assert Has(P, |before|, ts);
    assert P[e - 1] == ts[|ts| - 1];
    assert e < |P| ==> P[e] == after[0];
    Expression(P, u, |before|, a, st);
  }

  /** Whole programs: with no parentheses but those precedence requires, and a `;` behind every `if` without `else`. */
  lemma ProgramRoundTrip(a: Ast)
    requires Parseable(a) && !a.UnitNode?
    ensures var ts := Print(a, 0, false, PLAIN); ts != [] && ParseProgram(ts) == Ok(a, |ts| - 1, Units(a))
  {
    hide Print, ParseExpression;
    var ts := Print(a, 0, false, PLAIN);
    PrintNonEmpty(a, 0, false, PLAIN);
    ParserInvertsPrinter([], a, PLAIN, [], 0);
    assert [] + ts + [] == ts;
  }

  /** No two trees share a printed form, whatever redundant parentheses either is printed with. */
  lemma PrintingUnambiguous(a: Ast, b: Ast, st: Style, st': Style)
    requires Printable(a, st.stop) && Printable(b, st'.stop) && !a.UnitNode? && !b.UnitNode?
    requires Print(a, 0, false, st) == Print(b, 0, false, st')
    ensures a == b
  {
    hide Print, ParseExpression;
    ParserInvertsPrinter([], a, st, [], 0);
    ParserInvertsPrinter([], b, st', [], 0);
  }
}
