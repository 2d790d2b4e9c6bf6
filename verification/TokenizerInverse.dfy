/**
 The tokenizer inverts rendering: legal tokens, written out with gaps of blanks and closed comments between them, are
 read back as they were.  A gap may be empty wherever the next character could not be part of the token before it.
 And what becomes of every other text: runs of operators, words that are too long, and characters no token has.
*/
module TokenizerInverse {
  import opened Words
  import opened Ir
  import opened Tokens
  import opened Tokenizer

  datatype GapItem = Blank(c: char) | LineComment(text: string) | BlockComment(text: string)

  /** Text that the end of a comment does not occur in. */
  predicate LegalItem(g: GapItem) {
    match g
    case Blank(c) => IsBlank(c)
    case LineComment(text) => forall i :: 0 <= i < |text| ==> text[i] != '\n'
    case BlockComment(text) => forall i :: 0 <= i < |text| - 1 ==> !(text[i] == '*' && text[i + 1] == '/')
  }

  function ItemText(g: GapItem): string {
    match g
    case Blank(c) => [c]
    case LineComment(text) => "//" + text + "\n"
    case BlockComment(text) => "/*" + text + "*/"
  }

  predicate LegalGap(gap: seq<GapItem>) {
    forall i :: 0 <= i < |gap| ==> LegalItem(gap[i])
  }

  function GapText(gap: seq<GapItem>): string {
    if gap == [] then "" else ItemText(gap[0]) + GapText(gap[1..])
  }

  /** A gap that keeps any two tokens apart: it starts with a blank. */
  predicate Separator(gap: seq<GapItem>) {
    gap != [] && gap[0].Blank? && LegalGap(gap)
  }

  const WORDS: set<string> := {"if", "then", "else", "while", "return", "for", "do", "var"}

  function NameKind(s: string): Kind {
    if s in WORDS then KeywordKind else IdentifierKind
  }

  /** Letters and digits, of any number, that start with a letter. */
  predicate NameShaped(s: string) {
    s != "" && IsLetter(s[0]) && forall i :: 0 <= i < |s| ==> IsLetter(s[i]) || IsDigit(s[i])
  }

  predicate StartsWithWord(s: string) {
    "or" <= s || "and" <= s || "not" <= s
  }

  predicate LegalName(s: string) {
    NameShaped(s) && |s| < 64 && !StartsWithWord(s)
  }

  /** The tokens that can be written as they are. */
  predicate LegalToken(t: Token) {
    match t.kind
    case IdentifierKind => LegalName(t.data) && t.data !in WORDS
    case KeywordKind => t.data in WORDS
    case IntegerKind => 0 < |t.data| < 64 && IsDigits(t.data)
    case OperatorKind => t.data == "or" || t.data == "and" || t.data == "not" || LegalSymbol(t.data)
    case PunctuationKind => |t.data| == 1 && IsPunctuation(t.data[0])
    case UnitKind => false
  }

  predicate LegalSymbol(s: string) {
    && 0 < |s| < 64 && (forall i :: 0 <= i < |s| ==> IsOpChar(s[i]))
    && !("//" <= s) && !("/*" <= s)
  }

  /** Nothing here could be part of a run of operators. */
  predicate NoRun(rest: string) {
    (rest == "" || !IsOpChar(rest[0])) && !StartsWithWord(rest)
  }

  /** No letter or digit behind a name, no digit behind a number, and nothing of an operator behind an operator. */
  predicate Apart(t: Token, rest: string) {
    match t.kind
    case IdentifierKind => rest == "" || !(IsLetter(rest[0]) || IsDigit(rest[0]))
    case KeywordKind => rest == "" || !(IsLetter(rest[0]) || IsDigit(rest[0]))
    case IntegerKind => rest == "" || !IsDigit(rest[0])
    case OperatorKind => NoRun(rest)
    case _ => true
  }

  /** The classes of characters. */
  lemma CharactersAre(c: char)
    ensures IsLetter(c) <==> c in {'a', 'b', 'c', 'd', 'e', 'f', 'g', 'h', 'i', 'j', 'k', 'l', 'm', 'n', 'o', 'p', 'q', 'r', 's', 't',
                                   'u', 'v', 'w', 'x', 'y', 'z', 'A', 'B', 'C', 'D', 'E', 'F', 'G', 'H', 'I', 'J', 'K', 'L', 'M', 'N',
                                   'O', 'P', 'Q', 'R', 'S', 'T', 'U', 'V', 'W', 'X', 'Y', 'Z', '_'}
    ensures IsDigit(c) <==> c in {'0', '1', '2', '3', '4', '5', '6', '7', '8', '9'}
    ensures IsOpChar(c) <==> c in {'+', '-', '*', '/', '=', '<', '>', '!', '%'}
    ensures IsPunctuation(c) <==> c in {'(', ')', '{', '}', ',', ';', ':'}
    ensures IsBlank(c) <==> c in {' ', '\n', '\r'}
  {
  }

  /** Tokens each followed by its gap. */
  function Render(ts: seq<Token>, gaps: seq<seq<GapItem>>): string
    requires |gaps| == |ts|
    decreases |ts|
  {
    if ts == [] then "" else ts[0].data + (GapText(gaps[0]) + Render(ts[1..], gaps[1..]))
  }

  /** Gaps that keep the tokens of a rendering apart. */
  predicate Spaced(ts: seq<Token>, gaps: seq<seq<GapItem>>)
    requires |gaps| == |ts|
    decreases |ts|
  {
    ts == [] ||
    (LegalGap(gaps[0]) && Apart(ts[0], GapText(gaps[0]) + Render(ts[1..], gaps[1..])) && Spaced(ts[1..], gaps[1..]))
  }

  /** Any separators will do, and after the last token no gap at all. */
  predicate LegalGaps(gaps: seq<seq<GapItem>>) {
    forall i :: 0 <= i < |gaps| ==> Separator(gaps[i]) || (i == |gaps| - 1 && gaps[i] == [])
  }

  lemma {:induction false} SeparatorsSpace(ts: seq<Token>, gaps: seq<seq<GapItem>>)
    requires |gaps| == |ts| && LegalGaps(gaps)
    ensures Spaced(ts, gaps)
    decreases |ts|
  {
    hide Apart, LegalGap, GapText, Separator;
    if ts != [] {
      var rest := Render(ts[1..], gaps[1..]);
      SeparatorsSpace(ts[1..], gaps[1..]);
      SeparatorKeepsApart(ts[0], gaps[0], rest);
    }
  }

  lemma SeparatorKeepsApart(t: Token, gap: seq<GapItem>, rest: string)
    requires Separator(gap) || (gap == [] && rest == "")
    ensures LegalGap(gap) && Apart(t, GapText(gap) + rest)
  {
  }

  lemma {:induction false} LineEndAt(s: string, i: nat, n: nat)
    requires i <= n < |s| && s[n] == '\n' && forall k :: i <= k < n ==> s[k] != '\n'
    ensures LineEnd(s, i) == n + 1
    decreases n - i
  {
    if i < n {
      LineEndAt(s, i + 1, n);
    }
  }

  lemma {:induction false} BlockEndAt(s: string, i: nat, n: nat)
    requires i <= n < |s| - 1 && s[n] == '*' && s[n + 1] == '/'
    requires forall k :: i <= k < n ==> !(s[k] == '*' && s[k + 1] == '/')
    ensures BlockEnd(s, i) == n + 2
    decreases n - i
  {
    if i < n {
      BlockEndAt(s, i + 1, n);
    }
  }

  lemma CommentIs(g: GapItem, rest: string)
    requires !g.Blank? && LegalItem(g)
    ensures CommentLength(ItemText(g) + rest) == |ItemText(g)|
  {
    var s := ItemText(g) + rest;
    if g.LineComment? {
      forall k | 2 <= k < 2 + |g.text|
        ensures s[k] != '\n'
      {
        assert s[k] == g.text[k - 2];
      }
      LineEndAt(s, 2, 2 + |g.text|);
    } else {
      forall k | 2 <= k < 2 + |g.text|
        ensures !(s[k] == '*' && s[k + 1] == '/')
      {
        assert s[k] == g.text[k - 2];
        assert k < 1 + |g.text| ==> s[k + 1] == g.text[k - 1];
      }
      BlockEndAt(s, 2, 2 + |g.text|);
    }
  }

  lemma CommentSkipped(g: GapItem, rest: string)
    requires !g.Blank? && LegalItem(g)
    ensures Tokenize(ItemText(g) + rest) == Tokenize(rest)
  {
    hide CommentLength, OperatorScan, TokenizeWord;
    var s := ItemText(g) + rest;
    CommentIs(g, rest);
    assert s[|ItemText(g)|..] == rest;
  }

  lemma {:induction false} GapSkipped(gap: seq<GapItem>, rest: string)
    requires LegalGap(gap)
    ensures Tokenize(GapText(gap) + rest) == Tokenize(rest)
  {
    hide CommentLength;
    if gap == [] {
      assert GapText(gap) + rest == rest;
    } else {
      var after := GapText(gap[1..]) + rest;
      assert GapText(gap) + rest == ItemText(gap[0]) + after;
      GapSkipped(gap[1..], rest);
      match gap[0]
      case Blank(c) =>
        assert ([c] + after)[1..] == after;
      case _ => CommentSkipped(gap[0], after);
    }
  }

  /** A text starts with a comment that is skipped exactly if it starts with the text of a closed one. */
  lemma CommentIff(s: string)
    ensures CommentLength(s) > 0 <==> exists g: GapItem :: !g.Blank? && LegalItem(g) && ItemText(g) <= s
    ensures forall g: GapItem :: !g.Blank? && LegalItem(g) && ItemText(g) <= s ==> CommentLength(s) == |ItemText(g)|
  {
    hide LineEnd, BlockEnd;
    if CommentLength(s) > 0 {
      var g := CommentFound(s);
    }
    forall g: GapItem | !g.Blank? && LegalItem(g) && ItemText(g) <= s
      ensures CommentLength(s) == |ItemText(g)|
    {
      CommentIs(g, s[|ItemText(g)|..]);
      assert ItemText(g) + s[|ItemText(g)|..] == s;
    }
  }

  lemma {:induction false} LineEndIs(s: string, i: nat)
    requires LineEnd(s, i) > 0
    ensures var n := LineEnd(s, i); i < n <= |s| && s[n - 1] == '\n' && forall k :: i <= k < n - 1 ==> s[k] != '\n'
    decreases |s| - i
  {
    if s[i] != '\n' {
      LineEndIs(s, i + 1);
    }
  }

  lemma {:induction false} BlockEndIs(s: string, i: nat)
    requires BlockEnd(s, i) > 0
    ensures var n := BlockEnd(s, i);
            && i + 2 <= n <= |s| && s[n - 2] == '*' && s[n - 1] == '/'
            && forall k :: i <= k < n - 2 ==> !(s[k] == '*' && s[k + 1] == '/')
    decreases |s| - i
  {
    if !(s[i] == '*' && s[i + 1] == '/') {
      BlockEndIs(s, i + 1);
    }
  }

  lemma CommentFound(s: string) returns (g: GapItem)
    requires CommentLength(s) > 0
    ensures !g.Blank? && LegalItem(g) && ItemText(g) <= s
  {
    var n := CommentLength(s);
    if s[1] == '/' {
      LineEndIs(s, 2);
      g := LineComment(s[2..n - 1]);
      assert ItemText(g) == s[..n];
    } else {
      BlockEndIs(s, 2);
      g := BlockComment(s[2..n - 2]);
      assert ItemText(g) == s[..n];
    }
  }

  lemma {:induction false} WordRun(s: string, rest: string)
    requires (forall i :: 0 <= i < |s| ==> IsLetter(s[i]) || IsDigit(s[i])) && (rest == "" || !(IsLetter(rest[0]) || IsDigit(rest[0])))
    ensures WordRest(s + rest) == |s|
  {
    hide IsLetter, IsDigit;
    if s == "" {
      assert s + rest == rest;
    } else {
      WordRun(s[1..], rest);
      assert (s + rest)[1..] == s[1..] + rest;
    }
  }

  lemma {:induction false} DigitRun(s: string, rest: string)
    requires IsDigits(s) && (rest == "" || !IsDigit(rest[0]))
    ensures IntegerLength(s + rest) == |s|
  {
    hide IsDigit;
    if s == "" {
      assert s + rest == rest;
    } else {
      DigitRun(s[1..], rest);
      assert (s + rest)[1..] == s[1..] + rest;
    }
  }

  /** What a run of operators is made of. */
  predicate Piece(p: string) {
    p == "or" || p == "and" || p == "not" || (|p| == 1 && IsOpChar(p[0]))
  }

  predicate Pieces(ps: seq<string>) {
    forall i :: 0 <= i < |ps| ==> Piece(ps[i])
  }

  function Joint(ps: seq<string>): string {
    if ps == [] then "" else ps[0] + Joint(ps[1..])
  }

  lemma NoPiece(rest: string)
    requires NoRun(rest)
    ensures OneOperator(rest) == Scan(0, false, false, false)
  {
    PrefixChars("or", rest);
    PrefixChars("and", rest);
    PrefixChars("not", rest);
  }

  lemma PrefixChars(w: string, s: string)
    ensures w <= s <==> |w| <= |s| && forall i :: 0 <= i < |w| ==> s[i] == w[i]
  {
  }

  lemma OnePiece(p: string, rest: string)
    requires Piece(p)
    ensures OneOperator(p + rest) == Scan(|p|, p == "or", p == "and", p == "not")
  {
    assert (p + rest)[0] == p[0];
    if |p| > 1 {
      assert (p + rest)[1] == p[1];
      assert |p| == 3 ==> (p + rest)[2] == p[2];
    }
  }

  lemma {:induction false} RunScan(ps: seq<string>, rest: string)
    requires Pieces(ps) && NoRun(rest)
    ensures OperatorScan(Joint(ps) + rest) == Scan(|Joint(ps)|, "or" in ps, "and" in ps, "not" in ps)
    decreases |ps|
  {
    hide OneOperator, NoRun, Piece;
    var s := Joint(ps) + rest;
    ScanStep(s);
    if ps == [] {
      assert s == rest;
      NoPiece(rest);
    } else {
      var tail := Joint(ps[1..]) + rest;
      assert s == ps[0] + tail;
      OnePiece(ps[0], tail);
      RunScan(ps[1..], rest);
      assert s[|ps[0]|..] == tail;
      PieceLength(ps[0]);
      assert ps == [ps[0]] + ps[1..];
    }
  }

  lemma PieceLength(p: string)
    requires Piece(p)
    ensures 1 <= |p| <= 3 && (p == "or" ==> |p| == 2) && (p == "and" || p == "not" ==> |p| == 3)
  {
  }

  /** A run is an operator if it is one of the words, or holds none of them. */
  predicate OneWordOrNone(ps: seq<string>) {
    ps == ["or"] || ps == ["and"] || ps == ["not"] || ("or" !in ps && "and" !in ps && "not" !in ps)
  }

  lemma {:induction false} JointLength(ps: seq<string>)
    requires Pieces(ps)
    ensures |Joint(ps)| >= |ps|
    ensures forall w :: w in ps ==> |Joint(ps)| >= |w| + |ps| - 1
    decreases |ps|
  {
    hide Piece;
    if ps != [] {
      JointLength(ps[1..]);
      PieceLength(ps[0]);
      assert forall w :: w in ps ==> w == ps[0] || w in ps[1..];
    }
  }

  lemma WordAlone(ps: seq<string>, w: string)
    requires Pieces(ps) && (w == "or" || w == "and" || w == "not") && w in ps
    ensures |Joint(ps)| == |w| <==> ps == [w]
  {
    hide Piece;
    JointLength(ps);
    if |ps| == 1 {
      assert ps == [ps[0]] && Joint(ps) == ps[0] + Joint(ps[1..]);
    }
  }

  lemma RunIsOperator(ps: seq<string>)
    requires Pieces(ps) && ps != []
    ensures IsOperator(Scan(|Joint(ps)|, "or" in ps, "and" in ps, "not" in ps)) <==> OneWordOrNone(ps)
  {
    hide Joint, Pieces;
    JointLength(ps);
    if "or" in ps {
      WordAlone(ps, "or");
    }
    if "and" in ps {
      WordAlone(ps, "and");
    }
    if "not" in ps {
      WordAlone(ps, "not");
    }
  }

  /**
   Any run of operator characters and words that starts no closed comment, and what follows could not be part of it: it
   is one token if it is one of the words or holds none, and dropped if not; a run too long for its buffer is refused,
   and so is one that is dropped at the end of the text.
  */
  lemma RunRead(ps: seq<string>, rest: string)
    requires Pieces(ps) && ps != [] && NoRun(rest)
    requires forall g: GapItem :: !g.Blank? && LegalItem(g) ==> !(ItemText(g) <= Joint(ps) + rest)
    ensures var run := Joint(ps);
            Tokenize(run + rest)
            == if |run| > 64 || (|run| == 64 && OneWordOrNone(ps)) then None
               else if OneWordOrNone(ps) then Cons(Op(run), Tokenize(rest))
               else if rest == "" then None else Tokenize(rest)
  {
    hide Tokenize, OperatorScan, IsOperator, CommentLength, Pieces, OneWordOrNone, LegalItem, ItemText, NoRun, Cons, TokenizeWord;
    var run := Joint(ps);
    var s := run + rest;
    CommentIff(s);
    RunScan(ps, rest);
    RunIsOperator(ps);
    RunStarts(ps, rest);
    OperatorStep(s, 0);
    assert s[..|run|] == run && s[|run|..] == rest;
    if rest == "" {
      EmptyRest();
    } else {
      AfterRun(rest);
    }
  }

  lemma EmptyRest()
    ensures Tokenize("") == Some([]) && TokenizeWord("") == None
  {
  }

  lemma RunStarts(ps: seq<string>, rest: string)
    requires Pieces(ps) && ps != []
    ensures Joint(ps) != "" && !IsBlank((Joint(ps) + rest)[0])
  {
    var p := ps[0];
    assert Joint(ps) == p + Joint(ps[1..]);
    assert (Joint(ps) + rest)[0] == p[0];
  }

  /** A text that starts like no operator or comment is read by the other matchers. */
  lemma NoOperator(s: string)
    requires s != "" && !IsBlank(s[0]) && OneOperator(s).length == 0
    ensures Tokenize(s) == TokenizeWord(s)
  {
    assert s[0] != '/';
    assert s[0..] == s;
  }

  /** Behind a dropped run the text is read as from anywhere. */
  lemma AfterRun(rest: string)
    requires rest != "" && NoRun(rest)
    ensures TokenizeWord(rest) == Tokenize(rest)
  {
    hide Tokenize, OneOperator, StartsWithWord, IsOpChar, OperatorScan, CommentLength, WordKind;
    if IsBlank(rest[0]) {
      BlankSkipped(rest);
    } else {
      NoPiece(rest);
      NoOperator(rest);
    }
  }

  lemma BlankSkipped(s: string)
    requires s != "" && IsBlank(s[0])
    ensures Tokenize(s) == Tokenize(s[1..]) == TokenizeWord(s)
  {
  }

  /** A character that no token and no gap has is skipped. */
  lemma OtherSkipped(c: char, rest: string)
    requires !IsLetter(c) && !IsDigit(c) && !IsOpChar(c) && !IsPunctuation(c)
    ensures Tokenize([c] + rest) == Tokenize(rest)
  {
    hide OperatorScan, CommentLength, WordKind;
    var s := [c] + rest;
    assert s[0] == c && s[1..] == rest;
    if IsBlank(c) {
      BlankSkipped(s);
    } else {
      assert OneOperator(s).length == 0;
      NoOperator(s);
    }
  }

  /** An operator of symbols, as a run. */
  function Symbols(s: string): seq<string> {
    if s == "" then [] else [[s[0]]] + Symbols(s[1..])
  }

  lemma {:induction false} SymbolPieces(s: string)
    requires forall i :: 0 <= i < |s| ==> IsOpChar(s[i])
    ensures var ps := Symbols(s); Pieces(ps) && Joint(ps) == s && |ps| == |s| && forall i :: 0 <= i < |ps| ==> |ps[i]| == 1
    decreases |s|
  {
    hide IsOpChar, Piece;
    if s != "" {
      var ps, rest := Symbols(s), Symbols(s[1..]);
      SymbolPieces(s[1..]);
      SymbolPiece(s[0]);
      assert ps == [[s[0]]] + rest;
      forall i | 0 <= i < |ps|
        ensures Piece(ps[i]) && |ps[i]| == 1
      {
        if i > 0 {
          assert ps[i] == rest[i - 1];
        }
      }
      assert ps[1..] == rest;
      assert s == [s[0]] + s[1..];
    }
  }

  lemma SymbolPiece(c: char)
    requires IsOpChar(c)
    ensures Piece([c])
  {
  }

  lemma WordPieces(w: string)
    requires w == "or" || w == "and" || w == "not"
    ensures Pieces([w]) && Joint([w]) == w && OneWordOrNone([w])
  {
    assert Joint([w]) == w + Joint([w][1..]);
  }

  lemma OperatorRead(t: Token, rest: string)
    requires t.kind == OperatorKind && LegalToken(t) && Apart(t, rest)
    ensures Tokenize(t.data + rest) == Cons(t, Tokenize(rest))
  {
    hide Tokenize, NoRun, LegalItem, ItemText, Pieces, Joint, IsOpChar;
    var ps := if t.data == "or" || t.data == "and" || t.data == "not" then [t.data] else Symbols(t.data);
    if |ps| == 1 && ps[0] == t.data && (t.data == "or" || t.data == "and" || t.data == "not") {
      WordPieces(t.data);
    } else {
      SymbolPieces(t.data);
      NoWordIn(ps);
    }
    forall g: GapItem | !g.Blank? && LegalItem(g)
      ensures !(ItemText(g) <= t.data + rest)
    {
      NoCommentHere(t.data, rest, g);
    }
    RunRead(ps, rest);
  }

  lemma NoWordIn(ps: seq<string>)
    requires forall i :: 0 <= i < |ps| ==> |ps[i]| == 1
    ensures "or" !in ps && "and" !in ps && "not" !in ps
  {
  }

  lemma CommentStarts(g: GapItem)
    requires !g.Blank?
    ensures var text := ItemText(g); |text| >= 2 && text[0] == '/' && (text[1] == '/' || text[1] == '*')
  {
  }

  lemma SecondCharacter(s: string, rest: string)
    requires (s == "or" || s == "and" || s == "not" || LegalSymbol(s)) && NoRun(rest)
    requires |s + rest| >= 2 && (s + rest)[0] == '/'
    ensures (s + rest)[1] != '/' && (s + rest)[1] != '*'
  {
    hide StartsWithWord;
    assert (s + rest)[0] == s[0];
    if |s| == 1 {
      assert (s + rest)[1] == rest[0];
    } else {
      assert (s + rest)[1] == s[1];
      assert s == [s[0], s[1]] + s[2..];
    }
  }

  lemma NoCommentHere(s: string, rest: string, g: GapItem)
    requires (s == "or" || s == "and" || s == "not" || LegalSymbol(s)) && NoRun(rest) && !g.Blank?
    ensures !(ItemText(g) <= s + rest)
  {
    hide StartsWithWord, NoRun, LegalSymbol, ItemText;
    CommentStarts(g);
    if |s + rest| >= 2 && (s + rest)[0] == '/' {
      SecondCharacter(s, rest);
    }
  }

  /** What follows a name adds no operator word to it. */
  lemma NameStart(s: string, rest: string)
    requires NameShaped(s) && !StartsWithWord(s) && (rest == "" || !(IsLetter(rest[0]) || IsDigit(rest[0])))
    ensures OneOperator(s + rest).length == 0 && !IsBlank((s + rest)[0])
  {
    PrefixChars("or", s);
    PrefixChars("and", s);
    PrefixChars("not", s);
    assert forall i :: 0 <= i < |s| ==> (s + rest)[i] == s[i];
    assert forall i :: |s| <= i < |s + rest| ==> (s + rest)[i] == rest[i - |s|];
  }

  /** Letters and digits that start with a letter and no operator word: one token, unless it is too long for its buffer. */
  lemma NameRead(s: string, rest: string)
    requires NameShaped(s) && !StartsWithWord(s) && (rest == "" || !(IsLetter(rest[0]) || IsDigit(rest[0])))
    ensures Tokenize(s + rest) == if |s| < 64 then Cons(Token(NameKind(s), s), Tokenize(rest)) else None
  {
    hide OneOperator, Tokenize, WordRest, IntegerLength, IsPunctuation, IsBlank, CommentLength, StartsWithWord;
    var t, n := s + rest, |s|;
    assert t[..n] == s && t[n..] == rest;
    NameStart(s, rest);
    NoOperator(t);
    WordRun(s[1..], rest);
    assert t[1..] == s[1..] + rest;
    assert IdentifierLength(t) == n;
  }

  lemma IntegerRead(s: string, rest: string)
    requires s != "" && IsDigits(s) && (rest == "" || !IsDigit(rest[0]))
    ensures Tokenize(s + rest) == if |s| < 64 then Cons(Token(IntegerKind, s), Tokenize(rest)) else None
  {
    var t, n := s + rest, |s|;
    assert t[..n] == s && t[n..] == rest;
    assert IsDigit(t[0]);
    NoOperator(t);
    DigitRun(s, rest);
  }

  lemma PunctuationRead(t: Token, rest: string)
    requires t.kind == PunctuationKind && LegalToken(t)
    ensures Tokenize(t.data + rest) == Cons(t, Tokenize(rest))
  {
    var s := t.data + rest;
    assert s[0] == t.data[0] && s[1..] == rest && t.data == [s[0]];
    NoOperator(s);
  }

  /** A legal token, and behind it a character that could not be part of it, or nothing. */
  lemma TokenRead(t: Token, rest: string)
    requires LegalToken(t) && Apart(t, rest)
    ensures Tokenize(t.data + rest) == Cons(t, Tokenize(rest))
  {
    hide Tokenize, StartsWithWord, LegalSymbol, IsPunctuation;
    match t.kind
    case IdentifierKind => NameRead(t.data, rest);
    case KeywordKind =>
      KeywordsAreNames(t.data);
      NameRead(t.data, rest);
    case IntegerKind => IntegerRead(t.data, rest);
    case OperatorKind => OperatorRead(t, rest);
    case PunctuationKind => PunctuationRead(t, rest);
  }

  lemma KeywordsAreNames(s: string)
    requires s in WORDS
    ensures LegalName(s)
  {
  }

  lemma {:induction false} RenderRead(ts: seq<Token>, gaps: seq<seq<GapItem>>)
    requires |gaps| == |ts| && Spaced(ts, gaps) && forall i :: 0 <= i < |ts| ==> LegalToken(ts[i])
    ensures Tokenize(Render(ts, gaps)) == Some(ts)
    decreases |ts|
  {
    hide LegalToken, Tokenize, GapText, LegalGap, Apart;
    if ts != [] {
      var rest := Render(ts[1..], gaps[1..]);
      TokenRead(ts[0], GapText(gaps[0]) + rest);
      GapSkipped(gaps[0], rest);
      RenderRead(ts[1..], gaps[1..]);
      assert [ts[0]] + ts[1..] == ts;
    } else {
      EmptyRest();
    }
  }

  /** The tokenizer inverts rendering, with any gap before the first token. */
  lemma TokenizerInvertsRendering(lead: seq<GapItem>, ts: seq<Token>, gaps: seq<seq<GapItem>>)
    requires LegalGap(lead) && |gaps| == |ts| && Spaced(ts, gaps) && forall i :: 0 <= i < |ts| ==> LegalToken(ts[i])
    ensures Tokenize(GapText(lead) + Render(ts, gaps)) == Some(ts)
  {
    GapSkipped(lead, Render(ts, gaps));
    RenderRead(ts, gaps);
  }

  /** The first token is never longer than the text. */
  lemma {:induction false} FirstToken(s: string)
    ensures var r := Tokenize(s); r.Some? && r.value != [] ==> |r.value[0].data| <= |s|
    decreases |s|, 1
  {
    hide CommentLength, OperatorScan, IsOperator, IsBlank, IdentifierLength, IntegerLength, TokenizeWord;
    if s != "" {
      if IsBlank(s[0]) {
        FirstToken(s[1..]);
      } else if CommentLength(s) > 0 {
        FirstToken(s[CommentLength(s)..]);
      } else {
        FirstOfWord(s[OperatorScan(s).length..]);
      }
    }
  }

  lemma {:induction false} FirstOfWord(s: string)
    ensures var r := TokenizeWord(s); r.Some? && r.value != [] ==> |r.value[0].data| <= |s|
    decreases |s|, 0
  {
    hide IdentifierLength, IntegerLength, WordKind, IsPunctuation, Tokenize;
    if s != "" {
      FirstToken(s[1..]);
    }
  }

  /**
   Which names are read back: letters and digits are one token exactly when they are fewer than 64 and do not start
   with one of the words or, and, not.  Anything else that looks like a name is split, or is refused.
  */
  lemma NameReadIff(s: string)
    requires NameShaped(s)
    ensures Tokenize(s) == Some([Token(NameKind(s), s)]) <==> |s| < 64 && !StartsWithWord(s)
  {
    hide Tokenize, StartsWithWord, NameShaped, NameKind;
    if StartsWithWord(s) {
      WordFirst(s);
    } else {
      NameRead(s, "");
      assert s + "" == s;
      EmptyRest();
      assert [Token(NameKind(s), s)] + [] == [Token(NameKind(s), s)];
    }
  }

  /** After an operator word, the token found first is that operator, or lies behind it. */
  lemma WordFirst(s: string)
    requires NameShaped(s) && StartsWithWord(s)
    ensures Tokenize(s) != Some([Token(NameKind(s), s)])
  {
    hide OneOperator, Tokenize, TokenizeWord, CommentLength;
    hide OperatorScan, IsOperator;
    StartIsOne(s);
    ScanStep(s);
    NameNoComment(s);
    OperatorStep(s, 0);
    var n := OperatorScan(s).length;
    FirstOfWord(s[n..]);
    match OperatorMatch(s, 0)
    case TooLong =>
    case Matched(next, token) =>
      assert next == n;
      if token.Some? {
        assert token.value.kind == OperatorKind;
      } else {
        assert Tokenize(s) == TokenizeWord(s[n..]) && n > 0;
        assert Tokenize(s).Some? && Tokenize(s).value != [] ==> |Tokenize(s).value[0].data| < |s|;
      }
  }

  lemma StartIsOne(s: string)
    requires StartsWithWord(s)
    ensures OneOperator(s).length > 0
  {
    PrefixChars("or", s);
    PrefixChars("and", s);
    PrefixChars("not", s);
  }

  lemma NameNoComment(s: string)
    requires NameShaped(s)
    ensures !IsBlank(s[0]) && CommentLength(s) == 0
  {
    hide LineEnd, BlockEnd;
  }

  /** What a split name becomes when what follows the word is itself read as a name. */
  lemma WordPrefixSplit(w: string, tail: string)
    requires w == "or" || w == "and" || w == "not"
    requires LegalName(tail)
    ensures Tokenize(w + tail) == Some([Op(w), Token(NameKind(tail), tail)])
  {
    hide Tokenize, LegalName, NameShaped, StartsWithWord, NameKind, Cons;
    NameStarts(tail);
    TokenRead(Op(w), tail);
    NameRead(tail, "");
    assert tail + "" == tail;
    EmptyRest();
    TwoTokens(Op(w), Token(NameKind(tail), tail));
  }

  lemma TwoTokens(t: Token, u: Token)
    ensures Cons(t, Cons(u, Some([]))) == Some([t, u])
  {
    assert [t] + ([u] + []) == [t, u];
  }

  lemma NameStarts(s: string)
    requires LegalName(s)
    ensures NoRun(s) && NameShaped(s) && !StartsWithWord(s) && |s| < 64
  {
  }
}
