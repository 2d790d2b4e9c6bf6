/**
 From text to assembly: the stages put together as compiler.c:6-39 calls them.
*/
module FrontEnd {
  import opened Words
  import opened Syntax
  import opened SourceSemantics
  import opened Ir
  import opened Tokens
  import opened Printer
  import opened ParserSpec
  import opened Tokenizer
  import opened TokenizerInverse
  import opened Lowering
  import opened Machine
  import opened CodegenMeaning
  import opened LoweringShape
  import opened LoweringTheorems
  import opened LabelNames
  import opened CalledNames
  import opened CompilerTheorem
  import opened Codegen
  import opened VarNames
  import opened IrGenerator
  import Allocation
  import NodeList
  import Parser
  import ParserInverse
  import ParserRange
  import TypeChecker
  import CheckerAgreement

  lemma OneLexed(t: Token, ts: seq<Token>)
    requires Parser.LexedToken(t) && Parser.Lexed(ts)
    ensures Parser.Lexed([t] + ts)
  {
  }

  lemma NoneLexed()
    ensures Parser.Lexed([])
  {
  }

  lemma OperatorStart(s: string)
    ensures OperatorScan(s).length > 0 ==> s[0] != ','
  {
    hide OperatorScan;
    if OneOperator(s).length == 0 {
      ScanStarts(s);
    }
  }

  lemma ScanStarts(s: string)
    requires OneOperator(s).length == 0
    ensures OperatorScan(s).length == 0
  {
  }

  /** What the tokenizer makes is what the parser asks of its tokens. */
  lemma {:induction false} TokensAreLexed(s: string)
    requires Tokenize(s).Some?
    ensures Parser.Lexed(Tokenize(s).value)
    decreases |s|, 1
  {
    hide CommentLength, OperatorScan, Parser.Lexed, IsBlank, Starts;
    if s == "" {
      NoneLexed();
    } else if IsBlank(s[0]) {
      TokensAreLexed(s[1..]);
    } else if CommentLength(s) > 0 {
      TokensAreLexed(s[CommentLength(s)..]);
    } else {
      var op := OperatorScan(s);
      if IsOperator(op) {
        var t, rest := Token(OperatorKind, s[..op.length]), s[op.length..];
        OperatorStart(s);
        StartsIs(t);
        TokensAreLexed(rest);
        OneLexed(t, Tokenize(rest).value);
      } else {
        WordsAreLexed(s[op.length..]);
      }
    }
  }

  lemma StartsIs(t: Token)
    ensures Starts(t, ',') <==> t.data != "" && t.data[0] == ','
  {
  }

  lemma {:induction false} WordsAreLexed(s: string)
    requires TokenizeWord(s).Some?
    ensures Parser.Lexed(TokenizeWord(s).value)
    decreases |s|, 0
  {
    hide Parser.Lexed, Tokenize, WordKind, Starts;
    var n, m := IdentifierLength(s), IntegerLength(s);
    var t := if n > 0 then Token(WordKind(s[..n]), s[..n])
             else if m > 0 then Token(IntegerKind, s[..m]) else Token(PunctuationKind, s[..1]);
    StartsIs(t);
    assert s[..1] == [s[0]];
    TokensAreLexed(s[|t.data|..]);
    if n > 0 || m > 0 || IsPunctuation(s[0]) {
      OneLexed(t, Tokenize(s[|t.data|..]).value);
    }
  }

  predicate PlainName(s: string) {
    LegalName(s) && s !in WORDS
  }

  /** Trees whose names and numbers can be written as tokens. */
  predicate Writable(a: Ast)
    decreases a
  {
    match a
    case Literal(text, _) => text == "true" || text == "false" || (0 < |text| < MAX_TOKEN && IsDigits(text))
    case Identifier(name, _) => PlainName(name)
    case Unary(_, arg, _) => Writable(arg)
    case Binary(_, left, right, _) => Writable(left) && Writable(right)
    case Call(callee, args, _) => PlainName(callee) && WritableAll(args)
    case UnitNode => true
    case Block(stmts, _) => WritableAll(stmts)
    case IfThen(cond, thn, _) => Writable(cond) && Writable(thn)
    case IfElse(cond, thn, els, _) => Writable(cond) && Writable(thn) && Writable(els)
    case While(cond, body, _) => Writable(cond) && Writable(body)
    case VarExpr(name, init, decl, _) => PlainName(name) && (decl == "" || PlainName(decl)) && Writable(init)
  }

  predicate WritableAll(es: seq<Ast>)
    decreases es
  {
    es == [] || (Writable(es[0]) && WritableAll(es[1..]))
  }

  predicate AllLegal(ts: seq<Token>) {
    forall i :: 0 <= i < |ts| ==> LegalToken(ts[i])
  }

  lemma LegalJoin(s: seq<Token>, t: seq<Token>)
    requires AllLegal(s) && AllLegal(t)
    ensures AllLegal(s + t)
  {
  }

  lemma OneLegal(t: Token)
    requires LegalToken(t)
    ensures AllLegal([t])
  {
    hide LegalToken;
  }

  lemma MarkLegal(c: char)
    requires IsPunctuation(c)
    ensures AllLegal([Punct([c])])
  {
    OneLegal(Punct([c]));
  }

  lemma KeywordLegal(s: string)
    requires s in WORDS
    ensures AllLegal([Keyword(s)])
  {
    hide WORDS;
    OneLegal(Keyword(s));
  }

  lemma EqualsLegal()
    ensures AllLegal([Op("=")])
  {
    assert LegalSymbol("=");
    OneLegal(Op("="));
  }

  lemma TruthLegal(s: string)
    requires s == "true" || s == "false"
    ensures AllLegal([Ident(s)])
  {
    OneLegal(Ident(s));
  }

  /** Every fixed token of the printer is legal. */
  lemma FixedTokens()
    ensures AllLegal([Punct("(")]) && AllLegal([Punct(")")]) && AllLegal([Punct("{")]) && AllLegal([Punct("}")])
    ensures AllLegal([Punct(",")]) && AllLegal([Punct(";")]) && AllLegal([Punct(":")]) && AllLegal([Op("=")])
    ensures AllLegal([Keyword("if")]) && AllLegal([Keyword("then")]) && AllLegal([Keyword("else")])
    ensures AllLegal([Keyword("while")]) && AllLegal([Keyword("do")]) && AllLegal([Keyword("var")])
    ensures AllLegal([Ident("true")]) && AllLegal([Ident("false")]) && AllLegal([])
  {
    hide LegalToken;
    MarkLegal('(');
    MarkLegal(')');
    MarkLegal('{');
    MarkLegal('}');
    MarkLegal(',');
    MarkLegal(';');
    MarkLegal(':');
    EqualsLegal();
    KeywordLegal("if");
    KeywordLegal("then");
    KeywordLegal("else");
    KeywordLegal("while");
    KeywordLegal("do");
    KeywordLegal("var");
    TruthLegal("true");
    TruthLegal("false");
  }

  lemma OperatorsLegal(op: string)
    requires OpLevel(op).Some? || op == "-" || op == "not"
    ensures AllLegal([Op(op)])
  {
    OneLegal(Op(op));
  }

  lemma {:induction false} WrapLegal(k: nat, ts: seq<Token>)
    requires AllLegal(ts)
    ensures AllLegal(Wrap(k, ts))
  {
    hide LegalToken;
    if k > 0 {
      FixedTokens();
      WrapLegal(k - 1, ts);
    }
  }

  lemma {:induction false} PrintLegal(a: Ast, level: nat, guarded: bool, st: Style)
    requires Writable(a) && Parseable(a)
    ensures AllLegal(Print(a, level, guarded, st))
    decreases a, 2
  {
    hide AllLegal, Bare, Parseable, Writable;
    var k := Pairs(a, level, guarded, st);
    BareLegal(a, guarded && k == 0, st.kids, st.stop);
    WrapLegal(k, Bare(a, guarded && k == 0, st.kids, st.stop));
  }

  lemma {:induction false} BareLegal(a: Ast, guarded: bool, kids: seq<Style>, stop: bool)
    requires Writable(a) && Parseable(a)
    ensures AllLegal(Bare(a, guarded, kids, stop))
    decreases a, 1
  {
    hide Print, AllLegal, OpLevel, LegalToken, PlainName;
    FixedTokens();
    match a
    case Literal(_, _) => LeafLegal(a, guarded, kids, stop);
    case Identifier(name, _) => NameLegal(name);
    case Unary(op, arg, _) =>
      OperatorsLegal(op);
      PrintLegal(arg, FACTOR_LEVEL, guarded, Kid(kids, 0, stop));
      LegalJoin([Op(op)], Print(arg, FACTOR_LEVEL, guarded, Kid(kids, 0, stop)));
    case Binary(op, left, right, _) =>
      var p := if OpLevel(op).Some? then OpLevel(op).value else 0;
      var l, r := Print(left, p, true, Kid(kids, 0, stop)), Print(right, p + 1, guarded, Kid(kids, 1, stop));
      OperatorsLegal(op);
      PrintLegal(left, p, true, Kid(kids, 0, stop));
      PrintLegal(right, p + 1, guarded, Kid(kids, 1, stop));
      LegalJoin(l, [Op(op)]);
      LegalJoin(l + [Op(op)], r);
    case Call(callee, args, _) =>
      NameLegal(callee);
      ArgsLegal(args, kids, 0, stop);
      assert [Ident(callee), Punct("(")] == [Ident(callee)] + [Punct("(")];
      LegalJoin([Ident(callee)], [Punct("(")]);
      LegalJoin([Ident(callee), Punct("(")], PrintArgs(args, kids, 0, stop));
    case UnitNode =>
    case Block(stmts, _) =>
      StatementsLegal(stmts, kids, 0, stop);
      LegalJoin([Punct("{")], PrintStatements(stmts, kids, 0, stop));
    case IfThen(_, _, _) => IfThenLegal(a, kids, stop);
    case IfElse(_, _, _, _) => IfLegal(a, kids, stop);
    case While(_, _, _) => WhileLegal(a, kids, stop);
    case VarExpr(_, _, _, _) => VarLegal(a, kids, stop);
  }

  lemma LeafLegal(a: Ast, guarded: bool, kids: seq<Style>, stop: bool)
    requires Writable(a) && a.Literal?
    ensures AllLegal(Bare(a, guarded, kids, stop))
  {
    FixedTokens();
  }

  lemma NameLegal(name: string)
    requires PlainName(name)
    ensures AllLegal([Ident(name)])
  {
  }

  lemma {:induction false} IfThenLegal(a: Ast, kids: seq<Style>, stop: bool)
    requires a.IfThen? && Writable(a) && Parseable(a)
    ensures AllLegal(Bare(a, false, kids, stop))
    decreases a, 0
  {
    hide Print, AllLegal;
    FixedTokens();
    var y := Print(a.thn, 0, false, Kid(kids, 1, stop));
    PrintLegal(a.cond, 0, false, Kid(kids, 0, stop));
    PrintLegal(a.thn, 0, false, Kid(kids, 1, stop));
    LegalJoin(y, Stop(stop));
    TwoLegal(Keyword("if"), Print(a.cond, 0, false, Kid(kids, 0, stop)), Keyword("then"), y + Stop(stop));
  }

  lemma {:induction false} IfLegal(a: Ast, kids: seq<Style>, stop: bool)
    requires a.IfElse? && Writable(a) && Parseable(a)
    ensures AllLegal(Bare(a, false, kids, stop))
    decreases a, 0
  {
    hide Print, AllLegal;
    FixedTokens();
    var x, y, z := Print(a.cond, 0, false, Kid(kids, 0, stop)), Print(a.thn, 0, false, Kid(kids, 1, stop)), Print(a.els, 0, false, Kid(kids, 2, stop));
    PrintLegal(a.cond, 0, false, Kid(kids, 0, stop));
    PrintLegal(a.thn, 0, false, Kid(kids, 1, stop));
    PrintLegal(a.els, 0, false, Kid(kids, 2, stop));
    LegalJoin([Keyword("else")], z);
    LegalJoin(y, [Keyword("else")] + z);
    TwoLegal(Keyword("if"), x, Keyword("then"), y + ([Keyword("else")] + z));
  }

  lemma TwoLegal(k1: Token, x: seq<Token>, k2: Token, y: seq<Token>)
    requires AllLegal([k1]) && AllLegal(x) && AllLegal([k2]) && AllLegal(y)
    ensures AllLegal([k1] + (x + ([k2] + y)))
  {
    hide AllLegal;
    LegalJoin([k2], y);
    LegalJoin(x, [k2] + y);
    LegalJoin([k1], x + ([k2] + y));
  }

  lemma {:induction false} WhileLegal(a: Ast, kids: seq<Style>, stop: bool)
    requires a.While? && Writable(a) && Parseable(a)
    ensures AllLegal(Bare(a, false, kids, stop))
    decreases a, 0
  {
    hide Print, AllLegal;
    FixedTokens();
    PrintLegal(a.cond, 0, false, Kid(kids, 0, stop));
    PrintLegal(a.body, 0, false, Kid(kids, 1, stop));
    TwoLegal(Keyword("while"), Print(a.cond, 0, false, Kid(kids, 0, stop)), Keyword("do"), Print(a.body, 0, false, Kid(kids, 1, stop)));
  }

  lemma {:induction false} VarLegal(a: Ast, kids: seq<Style>, stop: bool)
    requires a.VarExpr? && Writable(a) && Parseable(a)
    ensures AllLegal(Bare(a, false, kids, stop))
    decreases a, 0
  {
    hide Print, AllLegal, PlainName;
    FixedTokens();
    var x := Print(a.init, 0, false, Kid(kids, 0, stop));
    PrintLegal(a.init, 0, false, Kid(kids, 0, stop));
    NameLegal(a.name);
    DeclLegal(a.decl);
    LegalJoin([Op("=")], x);
    LegalJoin(TypeDecl(a.decl), [Op("=")] + x);
    LegalJoin([Ident(a.name)], TypeDecl(a.decl) + ([Op("=")] + x));
    LegalJoin([Keyword("var")], [Ident(a.name)] + (TypeDecl(a.decl) + ([Op("=")] + x)));
  }

  lemma DeclLegal(decl: string)
    requires decl == "" || PlainName(decl)
    ensures AllLegal(TypeDecl(decl))
  {
    hide AllLegal, PlainName;
    FixedTokens();
    if decl != "" {
      NameLegal(decl);
      LegalJoin([Punct(":")], [Ident(decl)]);
      assert [Punct(":"), Ident(decl)] == [Punct(":")] + [Ident(decl)];
    }
  }

  lemma {:induction false} ArgsLegal(es: seq<Ast>, kids: seq<Style>, i: nat, stop: bool)
    requires WritableAll(es) && ParseableArgs(es)
    ensures AllLegal(PrintArgs(es, kids, i, stop))
    decreases es
  {
    hide Print, AllLegal, Parseable, Writable;
    FixedTokens();
    if es != [] {
      var x := Print(es[0], 0, false, Kid(kids, i, stop));
      PrintLegal(es[0], 0, false, Kid(kids, i, stop));
      LegalJoin(x, [Punct(")")]);
      ArgsLegal(es[1..], kids, i + 1, stop);
      LegalJoin(x, [Punct(",")]);
      LegalJoin(x + [Punct(",")], PrintArgs(es[1..], kids, i + 1, stop));
    }
  }

  lemma {:induction false} StatementsLegal(es: seq<Ast>, kids: seq<Style>, i: nat, stop: bool)
    requires WritableAll(es) && ParseableStatements(es)
    ensures AllLegal(PrintStatements(es, kids, i, stop))
    decreases es
  {
    hide Print, AllLegal, Parseable, Writable;
    FixedTokens();
    if es != [] && es != [UnitNode] {
      var x := Print(es[0], 0, false, Kid(kids, i, stop));
      PrintLegal(es[0], 0, false, Kid(kids, i, stop));
      LegalJoin(x, [Punct("}")]);
      StatementsLegal(es[1..], kids, i + 1, stop);
      LegalJoin(x, [Punct(";")]);
      LegalJoin(x + [Punct(";")], PrintStatements(es[1..], kids, i + 1, stop));
    }
  }

  /** A tree written as text with any gaps: its tokens, then the tree, are read back. */
  lemma TextRoundTrip(a: Ast, lead: seq<GapItem>, gaps: seq<seq<GapItem>>)
    requires Parseable(a) && Writable(a) && !a.UnitNode?
    requires LegalGap(lead) && |gaps| == |Print(a, 0, false, PLAIN)| && Spaced(Print(a, 0, false, PLAIN), gaps)
    ensures var ts := Print(a, 0, false, PLAIN);
            && Tokenize(GapText(lead) + Render(ts, gaps)) == Some(ts)
            && ts != [] && ParseProgram(ts) == Ok(a, |ts| - 1, Units(a))
  {
    hide Print, ParseExpression, Tokenize, Parseable, Writable, LegalToken;
    PrintLegal(a, 0, false, PLAIN);
    TokenizerInvertsRendering(lead, Print(a, 0, false, PLAIN), gaps);
    ParserInverse.ProgramRoundTrip(a);
  }

  lemma {:induction false} LeafArgsWritable(es: seq<Ast>, last: Ast)
    requires forall i :: 0 <= i < |es| ==> es[i] == Identifier("x", TError)
    requires Writable(last)
    ensures WritableAll(es + [last])
  {
    if es == [] {
      assert (es + [last])[1..] == [];
    } else {
      LeafArgsWritable(es[1..], last);
      assert (es + [last])[1..] == es[1..] + [last];
    }
  }

  lemma {:induction false} NestedCallsWritable(h: nat)
    ensures Writable(Allocation.NestedCalls(h))
  {
    if h > 0 {
      NestedCallsWritable(h - 1);
      LeafArgsWritable(seq(9, _ => Identifier("x", TError)), Allocation.NestedCalls(h - 1));
    }
  }

  /**
   The stack that lists a tree overflows for programs that can be written: calls nested twelve deep, whose text is
   tokenized and parsed to a tree that no `Parser.ParseAndDestroy` frees.
  */
  lemma DeepProgramOverflows(h: nat) returns (text: string)
    requires h >= 12
    ensures Tokenize(text).Some? && Parser.Lexed(Tokenize(text).value)
    ensures var r := ParseProgram(Tokenize(text).value);
            && r.Ok? && r.a == Allocation.NestedCalls(h)
            && NodeList.Peak(Allocation.Alloc(r.a, 0)) > 100
  {
    hide Print, ParseProgram, Tokenize, Parseable, Writable, LegalGaps, NodeList.Peak, Allocation.Alloc, Parser.Lexed,
         NodeList.Narrow, NodeList.Height, NodeList.NoSharing, NodeList.Preorder;
    var a := Allocation.NestedCalls(h);
    var ts := Print(a, 0, false, PLAIN);
    var gaps := BlankGaps(|ts|);
    Allocation.NestedCallsParseable(h);
    Allocation.NestedCallsMeetBound(h, 0);
    NestedCallsWritable(h);
    SeparatorsSpace(ts, gaps);
    TextRoundTrip(a, [], gaps);
    text := GapText([]) + Render(ts, gaps);
    TokensAreLexed(text);
  }

  lemma BlankGaps(n: nat) returns (gaps: seq<seq<GapItem>>)
    ensures LegalGaps(gaps) && |gaps| == n
  {
    gaps := seq(n, _ => [Blank(' ')]);
  }

  lemma {:induction false} TypedSixArgs(b: Ast, types: TypeChecker.Types)
    requires CheckerAgreement.WellTyped(b, types)
    ensures SixArgs(b)
    decreases b
  {
    match b
    case Unary(_, arg, _) => TypedSixArgs(arg, types);
    case Binary(_, left, right, _) =>
      TypedSixArgs(left, types);
      TypedSixArgs(right, types);
    case Block(stmts, _) => TypedSixArgsIn(stmts, map[]);
    case IfThen(cond, thn, _) =>
      TypedSixArgs(cond, types);
      TypedSixArgs(thn, types);
    case IfElse(cond, thn, els, _) =>
      TypedSixArgs(cond, types);
      TypedSixArgs(thn, types);
      TypedSixArgs(els, types);
    case While(cond, body, _) =>
      TypedSixArgs(cond, types);
      TypedSixArgs(body, types);
    case VarExpr(_, init, _, _) => TypedSixArgs(init, types);
    case _ =>
  }

  lemma {:induction false} TypedSixArgsIn(es: seq<Ast>, types: TypeChecker.Types)
    requires CheckerAgreement.WellTypedIn(es, types)
    ensures SixArgsIn(es)
    decreases es
  {
    if es != [] {
      TypedSixArgs(es[0], types);
      TypedSixArgsIn(es[1..], Declare(es[0], types));
    }
  }

  /** Programs the checker accepts can be compiled exactly when their ifs have an else. */
  lemma AcceptedCompiles(a: Ast, labels: seq<string>)
    requires CheckerAgreement.Accepted(a, map[])
    requires |labels| == |Generate(TypeChecker.Check(a, map[]).a).labels| && DistinctNames(labels)
    requires Uncalled(TypeChecker.Check(a, map[]).a, labels)
    ensures Compilable(TypeChecker.Check(a, map[]).a, labels) <==> EveryIfHasElse(TypeChecker.Check(a, map[]).a)
  {
    hide Generate, DistinctNames, Uncalled, WellScoped, SixArgs;
    CheckerAgreement.AcceptedLowers(a);
    CheckerAgreement.CheckerSound(a, map[]);
    TypedSixArgs(TypeChecker.Check(a, map[]).a, map[]);
  }

  /**
   The whole compiler, from text to assembly: the text of a program is read back as the program, and whatever
   the checked program does, the assembly generated for it does, for any label names `Compilable` admits.
  */
  lemma TextToAssembly(a: Ast, lead: seq<GapItem>, gaps: seq<seq<GapItem>>, labels: seq<string>, w: World, fuel: nat, m: State)
    returns (k: nat, e: State)
    requires Parseable(a) && Writable(a) && !a.UnitNode?
    requires LegalGap(lead) && |gaps| == |Print(a, 0, false, PLAIN)| && Spaced(Print(a, 0, false, PLAIN), gaps)
    requires Compilable(TypeChecker.Check(a, map[]).a, labels) && m.pc == 0 && m.core.trace == []
    requires var b := TypeChecker.Check(a, map[]).a; DivSafe(TraceOf(RunProgram(b, w.oracle, fuel)))
    ensures var ts := Print(a, 0, false, PLAIN);
            && Tokenize(GapText(lead) + Render(ts, gaps)) == Some(ts)
            && ts != [] && ParseProgram(ts) == Ok(a, |ts| - 1, Units(a))
    ensures var b := TypeChecker.Check(a, map[]).a;
            AssemblySimulated(b, labels, RunProgram(b, w.oracle, fuel), w, fuel, m, k, e)
  {
    hide *;
    TextRoundTrip(a, lead, gaps);
    k, e := CompilationPreservesMeaning(TypeChecker.Check(a, map[]).a, labels, w, fuel, m);
  }

  /** The checked tree of a text: it is compiled whether or not the checker found an error (compiler.c:14-16). */
  function CheckedProgram(text: string): Option<Ast> {
    match Tokenize(text)
    case None => None
    case Some(ts) =>
      match ParseProgram(ts)
      case Fail => None
      case Ok(a, _, _) => Some(TypeChecker.Check(a, map[]).a)
  }

  /** Names in a program read from text are those of tokens. */
  lemma CheckedNamed(text: string)
    requires CheckedProgram(text).Some?
    ensures WellNamed(CheckedProgram(text).value)
  {
    hide Tokenize, ParseProgram, Printer.Parseable, WellNamed, Parser.Lexed, TypeChecker.Check;
    var ts := Tokenize(text).value;
    TokensAreLexed(text);
    ParserRange.ProgramParsed(ts);
    ParserRange.ParseableNamed(ParseProgram(ts).a);
    CheckerAgreement.CheckKeepsNames(ParseProgram(ts).a, map[]);
  }

  /** IndexAssertion: an operand names no variable, and the vector's own check on the index fails (vector.c:75-80). */
  datatype CompileResult = NoProgram | IndexAssertion | Output(asm: seq<X64>)

  /**
   cabor_compile: all stages in turn.  Every variable gets a slot, since all have names.  Operands without a variable,
   on which the code generator stops, are looked for before it starts; `ProgramReady` says when there are none.
  */
  method CaborCompile(text: string) returns (r: CompileResult)
    ensures match CheckedProgram(text)
            case None => r == NoProgram
            case Some(b) =>
              var h := Generate(b);
              r == if AllAddressable(h.code, |h.vars|, |h.labels|) then Output(Assemble(h.code, h.vars, h.labels)) else IndexAssertion
    ensures CheckedProgram(text).Some? && Compilable(CheckedProgram(text).value, Generate(CheckedProgram(text).value).labels) ==>
              var b := CheckedProgram(text).value; r == Output(AssemblyOf(b, Generate(b).labels))
  {
    hide Tokenize, ParseProgram, TypeChecker.Check, Generate, Assemble, AllAddressable, WellNamed, Parser.Lexed, Compilable;
    var tokens := CaborTokenize(text);
    if tokens.None? {
      return NoProgram;
    }
    TokensAreLexed(text);
    var tree, nodes := Parser.Parse(tokens.value);
    if tree.None? {
      return NoProgram;
    }
    var symtab := new TypeChecker.SymbolScope();
    var root, ty := symtab.Typecheck(tree.value.a);
    assert CheckedProgram(text) == Some(root);
    r := GenerateCode(text, root);
  }

  /** The stages that always succeed, and the code generator. */
  method GenerateCode(ghost text: string, root: Ast) returns (r: CompileResult)
    requires CheckedProgram(text) == Some(root)
    ensures var h := Generate(root);
            r == if AllAddressable(h.code, |h.vars|, |h.labels|) then Output(Assemble(h.code, h.vars, h.labels)) else IndexAssertion
    ensures Compilable(root, Generate(root).labels) ==> r == Output(AssemblyOf(root, Generate(root).labels))
  {
    hide CheckedProgram, Generate, Assemble, AllAddressable, WellNamed, Compilable;
    CheckedNamed(text);
    ProgramNamed(root);
    CompilableOutput(root);
    var data := new IrData();
    data.GenerateIr(root);
    var locals := new Locals();
    locals.InitLocals(data.irVars);
    var code := ResolveAll(data.irInstructions, data.irCallArgs);
    assert data.State() == Generate(root);
    if !AllAddressable(code, |data.irVars|, |data.irLabels|) {
      return IndexAssertion;
    }
    var assembly := new Codegen.Assembly();
    assembly.GenerateAssembly(code, data.irVars, data.irLabels, locals);
    r := Output(assembly.instructions);
    assert [] + Assemble(code, data.irVars, data.irLabels) == Assemble(code, data.irVars, data.irLabels);
  }

  /** A program that is the call of a name bound nowhere compiles to no assembly: the check on its index fails. */
  lemma UnboundCallFails(text: string, name: string, args: seq<Ast>, ty: Ty)
    requires CheckedProgram(text) == Some(Call(name, args, ty)) && name != "print_int" && name != "print_bool"
    ensures var h := Generate(Call(name, args, ty)); !AllAddressable(h.code, |h.vars|, |h.labels|)
  {
    hide CheckedProgram, Visit;
    var root := Call(name, args, ty);
    var r := VisitRoot(root);
    UnboundName(name, args, ty, RootGen(), ROOT_SCOPE);
    var k := |VisitArgs(args, RootGen(), ROOT_SCOPE).g.code|;
    assert r.g.code[k].CallFn? && r.g.code[k].fn == -1;
    assert Generate(root).code[k] == r.g.code[k];
  }

  lemma CompilableOutput(b: Ast)
    ensures var h := Generate(b);
            Compilable(b, h.labels) ==>
            AllAddressable(h.code, |h.vars|, |h.labels|) && Assemble(h.code, h.vars, h.labels) == AssemblyOf(b, h.labels)
  {
    hide Generate, Assemble, AllAddressable;
    if Compilable(b, Generate(b).labels) {
      ProgramReady(b);
    }
  }

  /**
   What the compiler's output does, under the label names it uses.  For a text whose checked program has an `else` for
   every `if`, at most one `if` and one `while`, and calls nothing by the name of their labels, the machine makes the
   program's calls as long as its divisions do not fault, and gets stuck exactly if one does.
  */
  lemma OutputBehaves(text: string, w: World, fuel: nat, m: State) returns (k: nat, e: State)
    requires CheckedProgram(text).Some? && m.pc == 0 && m.core.trace == []
    requires var b := CheckedProgram(text).value;
             && WellScoped(b) && EveryIfHasElse(b) && SixArgs(b)
             && Ifs(b) <= 1 && Whiles(b) <= 1 && LabelsUsed(b) !! ProgramCalls(b)
    ensures var b := CheckedProgram(text).value;
            var labels := Generate(b).labels;
            && Compilable(b, labels)
            && (MachineFaults(AssemblyOf(b, labels), w, m) <==> SourceFaults(b, w.oracle))
            && (DivSafe(TraceOf(RunProgram(b, w.oracle, fuel))) ==>
                  AssemblySimulated(b, labels, RunProgram(b, w.oracle, fuel), w, fuel, m, k, e))
  {
    hide *;
    var b := CheckedProgram(text).value;
    var labels := Generate(b).labels;
    ShippedNames(b);
    TextFaultsIff(text, labels, w, m);
    k, e := 0, m;
    if DivSafe(TraceOf(RunProgram(b, w.oracle, fuel))) {
      k, e := CompilationPreservesMeaning(b, labels, w, fuel, m);
    }
  }

  /** For a program read from text, the machine gets stuck exactly when the source makes a bad division. */
  lemma TextFaultsIff(text: string, labels: seq<string>, w: World, m: State)
    requires CheckedProgram(text).Some? && Compilable(CheckedProgram(text).value, labels) && m.pc == 0 && m.core.trace == []
    ensures var b := CheckedProgram(text).value;
            MachineFaults(AssemblyOf(b, labels), w, m) <==> SourceFaults(b, w.oracle)
  {
    hide *;
    CheckedNamed(text);
    FaultsIffBadDivision(CheckedProgram(text).value, labels, w, m);
  }
}
