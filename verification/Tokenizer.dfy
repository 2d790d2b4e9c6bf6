/**
 The tokenizer (src/language/tokenizer.c): at each position, blanks and comments are skipped, then operators,
 identifiers, integers and punctuation are tried in this order.  None stands for a token that does not fit its
 buffer of 64 characters, and for the one read past the end of the text: after a mixed run such as `or=` is
 dropped at the very end.
*/
module Tokenizer {
  import opened Words
  import opened Ir
  import opened Tokens

  const MAX_TOKEN: nat := 64

  const KEYWORDS: set<string> := {"if", "then", "else", "while", "return", "for", "do", "var"}

  predicate IsBlank(c: char) {
    c == '\n' || c == ' ' || c == '\r'
  }

  predicate IsOpChar(c: char) {
    c == '+' || c == '-' || c == '*' || c == '/' || c == '=' || c == '<' || c == '>' || c == '!' || c == '%'
  }

  predicate IsPunctuation(c: char) {
    c == '(' || c == ')' || c == '{' || c == '}' || c == ',' || c == ';' || c == ':'
  }

  /** The position after the first newline, if there is one. */
  function LineEnd(s: string, i: nat): (n: nat)
    ensures n <= |s| && (n != 0 ==> n > i)
    decreases |s| - i
  {
    if i >= |s| then 0 else if s[i] == '\n' then i + 1 else LineEnd(s, i + 1)
  }

  /** The position after the first star and slash, if there are any. */
  function BlockEnd(s: string, i: nat): (n: nat)
    ensures n <= |s| && (n != 0 ==> n > i)
    decreases |s| - i
  {
    if i + 1 >= |s| then 0 else if s[i] == '*' && s[i + 1] == '/' then i + 2 else BlockEnd(s, i + 1)
  }

  /** How much of s is a closed comment. */
  function CommentLength(s: string): (n: nat)
    ensures n <= |s|
  {
    if |s| < 2 || s[0] != '/' then 0
    else if s[1] == '/' then LineEnd(s, 2)
    else if s[1] == '*' then BlockEnd(s, 2)
    else 0
  }

  /** A run of operator characters and of the words or, and, not; and which of these occur in it. */
  datatype Scan = Scan(length: nat, hasOr: bool, hasAnd: bool, hasNot: bool)

  /** One character or word of a run; of length 0 if there is none. */
  function OneOperator(s: string): (r: Scan)
    ensures r.length <= |s| && (r.length == 0 ==> !r.hasOr && !r.hasAnd && !r.hasNot)
  {
    if |s| >= 2 && s[0] == 'o' && s[1] == 'r' then Scan(2, true, false, false)
    else if |s| >= 3 && s[0] == 'a' && s[1] == 'n' && s[2] == 'd' then Scan(3, false, true, false)
    else if |s| >= 3 && s[0] == 'n' && s[1] == 'o' && s[2] == 't' then Scan(3, false, false, true)
    else Scan(if s != "" && IsOpChar(s[0]) then 1 else 0, false, false, false)
  }

  /** A run in two parts. */
  function Joined(r: Scan, rest: Scan): Scan {
    Scan(r.length + rest.length, r.hasOr || rest.hasOr, r.hasAnd || rest.hasAnd, r.hasNot || rest.hasNot)
  }

  function OperatorScan(s: string): (r: Scan)
    ensures r.length <= |s|
    decreases |s|
  {
    var one := OneOperator(s);
    if one.length == 0 then one else Joined(one, OperatorScan(s[one.length..]))
  }

  /** A run with one of the words is an operator only if it is just that long. */
  predicate IsOperator(r: Scan) {
    r.length > 0 && (r.hasOr ==> r.length == 2) && (r.hasAnd ==> r.length == 3) && (r.hasNot ==> r.length == 3)
  }

  function WordRest(s: string): (n: nat)
    ensures n <= |s|
    decreases |s|
  {
    if s != "" && (IsLetter(s[0]) || IsDigit(s[0])) then 1 + WordRest(s[1..]) else 0
  }

  function IdentifierLength(s: string): (n: nat)
    ensures n <= |s|
  {
    if s != "" && IsLetter(s[0]) then 1 + WordRest(s[1..]) else 0
  }

  function IntegerLength(s: string): (n: nat)
    ensures n <= |s|
    decreases |s|
  {
    if s != "" && IsDigit(s[0]) then 1 + IntegerLength(s[1..]) else 0
  }

  function WordKind(word: string): (k: Kind)
    ensures k == KeywordKind || k == IdentifierKind
  {
    if word in KEYWORDS then KeywordKind else IdentifierKind
  }

  function Cons(t: Token, ts: Option<seq<Token>>): Option<seq<Token>> {
    if ts.None? then None else Some([t] + ts.value)
  }

  /** The tokens of a text. */
  function Tokenize(s: string): Option<seq<Token>>
    decreases |s|, 1
  {
    if s == "" then Some([])
    else if IsBlank(s[0]) then Tokenize(s[1..])
    else if CommentLength(s) > 0 then Tokenize(s[CommentLength(s)..])
    else
      var op := OperatorScan(s);
      if op.length > MAX_TOKEN then None
      else if !IsOperator(op) then TokenizeWord(s[op.length..])
      else if op.length == MAX_TOKEN then None
      else Cons(Token(OperatorKind, s[..op.length]), Tokenize(s[op.length..]))
  }

  /** Where no operator was found; a mixed run of operators is skipped without a token. */
  function TokenizeWord(s: string): Option<seq<Token>>
    decreases |s|, 0
  {
    var n, m := IdentifierLength(s), IntegerLength(s);
    if n > 0 then (if n >= MAX_TOKEN then None else Cons(Token(WordKind(s[..n]), s[..n]), Tokenize(s[n..])))
    else if m > 0 then (if m >= MAX_TOKEN then None else Cons(Token(IntegerKind, s[..m]), Tokenize(s[m..])))
    else if s == "" then None
    else if IsPunctuation(s[0]) then Cons(Token(PunctuationKind, [s[0]]), Tokenize(s[1..]))
    else Tokenize(s[1..])
  }

  /** What a matcher reports: the new cursor and the token found, or that the token buffer is too small. */
  datatype Match = Matched(next: nat, token: Option<Token>) | TooLong

  method MatchComment(buffer: string, cursor: nat) returns (next: nat)
    requires cursor < |buffer|
    ensures next == cursor + CommentLength(buffer[cursor..])
  {
    ghost var s := buffer[cursor..];
    next := cursor;
    if |buffer| - cursor < 2 || buffer[cursor] != '/' {
      return;
    }
    if buffer[cursor + 1] == '/' {
      for i := cursor + 2 to |buffer|
        invariant LineEnd(s, 2) == LineEnd(s, i - cursor)
      {
        if buffer[i] == '\n' {
          return i + 1;
        }
      }
    } else if buffer[cursor + 1] == '*' {
      for i := cursor + 2 to |buffer|
        invariant BlockEnd(s, 2) == BlockEnd(s, i - cursor)
      {
        if |buffer| - i < 2 {
          return;
        }
        if buffer[i] == '*' && buffer[i + 1] == '/' {
          return i + 2;
        }
      }
    }
  }

  function OperatorMatch(s: string, cursor: nat): Match {
    var r := OperatorScan(s);
    if r.length > MAX_TOKEN || (IsOperator(r) && r.length == MAX_TOKEN) then TooLong
    else Matched(cursor + r.length, if IsOperator(r) then Some(Token(OperatorKind, s[..r.length])) else None)
  }

  /** The loop of match_operator: how far the run goes and which words it has; it must fit the token buffer. */
  method MatchRun(buffer: string, start: nat) returns (fits: bool, cursor: nat, run: Scan)
    requires start <= |buffer|
    ensures fits == (OperatorScan(buffer[start..]).length <= MAX_TOKEN)
    ensures fits ==> run == OperatorScan(buffer[start..]) && cursor == start + run.length
  {
    hide OneOperator, OperatorScan;
    fits, cursor, run := true, start, Scan(0, false, false, false);
    ghost var goal := OperatorScan(buffer[start..]);
    while cursor < |buffer|
      invariant start <= cursor <= |buffer| && run.length == cursor - start <= MAX_TOKEN
      invariant goal == Joined(run, OperatorScan(buffer[cursor..]))
    {
      ghost var s := buffer[cursor..];
      var one := MatchOne(buffer, cursor);
      ScanStep(s);
      if one.length == 0 {
        return;
      }
      if run.length + one.length > MAX_TOKEN {
        fits := false;
        return;
      }
      assert s[one.length..] == buffer[cursor + one.length..];
      run, cursor := Joined(run, one), cursor + one.length;
    }
    NoneLeft();
  }

  lemma ScanStep(s: string)
    ensures var one := OneOperator(s);
            OperatorScan(s) == if one.length == 0 then one else Joined(one, OperatorScan(s[one.length..]))
  {
    hide OneOperator;
  }

  lemma NoneLeft()
    ensures OperatorScan("") == Scan(0, false, false, false)
  {
  }

  /** The tests of one turn of that loop. */
  method MatchOne(buffer: string, cursor: nat) returns (one: Scan)
    requires cursor < |buffer|
    ensures one == OneOperator(buffer[cursor..])
  {
    var c := buffer[cursor];
    if c == 'o' && cursor + 1 < |buffer| && buffer[cursor + 1] == 'r' {
      one := Scan(2, true, false, false);
    } else if c == 'a' && cursor + 2 < |buffer| && buffer[cursor + 1] == 'n' && buffer[cursor + 2] == 'd' {
      one := Scan(3, false, true, false);
    } else if c == 'n' && cursor + 2 < |buffer| && buffer[cursor + 1] == 'o' && buffer[cursor + 2] == 't' {
      one := Scan(3, false, false, true);
    } else {
      one := Scan(if IsOpChar(c) then 1 else 0, false, false, false);
    }
  }

  method MatchOperator(buffer: string, start: nat) returns (m: Match)
    requires start <= |buffer|
    ensures m == OperatorMatch(buffer[start..], start)
  {
    hide OperatorScan;
    var fits, cursor, run := MatchRun(buffer, start);
    if !fits {
      return TooLong;
    }
    if run.length == 0 || (run.hasOr && run.length != 2) || (run.hasAnd && run.length != 3) || (run.hasNot && run.length != 3) {
      return Matched(cursor, None);
    }
    if run.length == MAX_TOKEN {
      return TooLong;
    }
    assert buffer[start..][..run.length] == buffer[start..cursor];
    m := Matched(cursor, Some(Token(OperatorKind, buffer[start..cursor])));
  }

  function RunMatch(s: string, n: nat, kind: Kind, cursor: nat): Match
    requires n <= |s|
  {
    if n >= MAX_TOKEN then TooLong else if n == 0 then Matched(cursor, None) else Matched(cursor + n, Some(Token(kind, s[..n])))
  }

  method MatchIdentifier(buffer: string, start: nat) returns (m: Match)
    requires start <= |buffer|
    ensures var s := buffer[start..];
            m == RunMatch(s, IdentifierLength(s), WordKind(s[..IdentifierLength(s)]), start)
  {
    ghost var s := buffer[start..];
    var i, token, firstIsLetter := start, "", false;
    while i < |buffer|
      invariant start <= i <= |buffer| && token == buffer[start..i] && firstIsLetter == (i > start) && |token| <= MAX_TOKEN
      invariant IdentifierLength(s) == if i == start then IdentifierLength(s) else i - start + WordRest(buffer[i..])
    {
      var c := buffer[i];
      if IsLetter(c) {
        firstIsLetter := true;
      } else if !(firstIsLetter && IsDigit(c)) {
        break;
      }
      if |token| == MAX_TOKEN {
        return TooLong;
      }
      token := token + [c];
      assert buffer[i..][1..] == buffer[i + 1..];
      i := i + 1;
    }
    assert s[..i - start] == token;
    if token == "" {
      return Matched(start, None);
    }
    if |token| == MAX_TOKEN {
      return TooLong;
    }
    m := Matched(i, Some(Token(WordKind(token), token)));
  }

  /** Digits only: a minus sign is always taken as an operator before this is tried. */
  method MatchIntegerLiteral(buffer: string, start: nat) returns (m: Match)
    requires start <= |buffer|
    ensures var s := buffer[start..]; m == RunMatch(s, IntegerLength(s), IntegerKind, start)
  {
    ghost var s := buffer[start..];
    var cursor, token := start, "";
    while cursor < |buffer| && IsDigit(buffer[cursor])
      invariant start <= cursor <= |buffer| && token == buffer[start..cursor] && |token| <= MAX_TOKEN
      invariant IntegerLength(s) == cursor - start + IntegerLength(buffer[cursor..])
    {
      if |token| == MAX_TOKEN {
        return TooLong;
      }
      token := token + [buffer[cursor]];
      assert buffer[cursor..][1..] == buffer[cursor + 1..];
      cursor := cursor + 1;
    }
    assert s[..cursor - start] == token;
    if token == "" {
      return Matched(start, None);
    }
    if |token| == MAX_TOKEN {
      return TooLong;
    }
    m := Matched(cursor, Some(Token(IntegerKind, token)));
  }

  method MatchPunctuation(buffer: string, cursor: nat) returns (m: Match)
    requires cursor < |buffer|
    ensures m == if IsPunctuation(buffer[cursor]) then Matched(cursor + 1, Some(Token(PunctuationKind, [buffer[cursor]])))
                 else Matched(cursor, None)
  {
    var c := buffer[cursor];
    m := Matched(cursor, None);
    if IsPunctuation(c) {
      m := Matched(cursor + 1, Some(Token(PunctuationKind, [c])));
    }
  }

  /** The tokens already found, in front of those still to come. */
  function Found(vector: seq<Token>, rest: Option<seq<Token>>): Option<seq<Token>> {
    if rest.None? then None else Some(vector + rest.value)
  }

  lemma FoundOne(vector: seq<Token>, t: Token, rest: Option<seq<Token>>)
    ensures Found(vector, Cons(t, rest)) == Found(vector + [t], rest)
  {
    if rest.Some? {
      assert vector + ([t] + rest.value) == vector + [t] + rest.value;
    }
  }

  lemma SkipStep(s: string, n: nat)
    requires s != "" && n == if IsBlank(s[0]) then 1 else CommentLength(s)
    ensures n > 0 ==> Tokenize(s) == Tokenize(s[n..])
  {
  }

  lemma OperatorStep(s: string, cursor: nat)
    requires s != "" && !IsBlank(s[0]) && CommentLength(s) == 0
    ensures match OperatorMatch(s, cursor)
            case TooLong => Tokenize(s) == None
            case Matched(next, token) =>
              && cursor <= next <= cursor + |s| && (token.Some? ==> next > cursor)
              && Tokenize(s) == if token.Some? then Cons(token.value, Tokenize(s[next - cursor..]))
                                else TokenizeWord(s[next - cursor..])
  {
    hide OperatorScan, CommentLength, IsBlank, IsOperator, TokenizeWord;
    if IsOperator(OperatorScan(s)) {
      OperatorLong(OperatorScan(s));
    }
  }

  lemma OperatorLong(r: Scan)
    requires IsOperator(r)
    ensures r.length > 0
  {
  }

  method CaborTokenize(buffer: string) returns (r: Option<seq<Token>>)
    ensures r == Tokenize(buffer)
  {
    hide Tokenize;
    var vector, cursor, fits := [], 0, true;
    assert buffer[0..] == buffer;
    FoundNone(Tokenize(buffer));
    while cursor < |buffer|
      invariant cursor <= |buffer| && Tokenize(buffer) == Found(vector, Tokenize(buffer[cursor..]))
    {
      fits, vector, cursor := TokenizeTurn(buffer, vector, cursor);
      if !fits {
        return None;
      }
    }
    NoText();
    assert buffer[cursor..] == "" && vector + [] == vector;
    r := Some(vector);
  }

  lemma FoundNone(rest: Option<seq<Token>>)
    ensures Found([], rest) == rest
  {
    assert rest.Some? ==> [] + rest.value == rest.value;
  }

  /** One turn of the loop. */
  method TokenizeTurn(buffer: string, before: seq<Token>, start: nat) returns (ok: bool, vector: seq<Token>, cursor: nat)
    requires start < |buffer|
    ensures if ok then start < cursor <= |buffer|
                       && Found(before, Tokenize(buffer[start..])) == Found(vector, Tokenize(buffer[cursor..]))
            else Tokenize(buffer[start..]) == None
  {
    hide CommentLength, Tokenize, IsBlank, Found;
    ghost var s := buffer[start..];
    ok, vector, cursor := true, before, start;
    if IsBlank(buffer[cursor]) {
      SkipStep(s, 1);
      cursor := cursor + 1;
      assert s[1..] == buffer[cursor..];
      return;
    }
    cursor := MatchComment(buffer, cursor);
    SkipStep(s, cursor - start);
    if cursor > start {
      assert s[cursor - start..] == buffer[cursor..];
      return;
    }
    ok, vector, cursor := TokenizeHere(buffer, before, start);
  }

  /** A turn with no blank and no comment to skip. */
  method TokenizeHere(buffer: string, before: seq<Token>, start: nat) returns (ok: bool, vector: seq<Token>, cursor: nat)
    requires start < |buffer| && !IsBlank(buffer[start]) && CommentLength(buffer[start..]) == 0
    ensures if ok then start < cursor <= |buffer|
                       && Found(before, Tokenize(buffer[start..])) == Found(vector, Tokenize(buffer[cursor..]))
            else Tokenize(buffer[start..]) == None
  {
    hide CommentLength, Tokenize, TokenizeWord, OperatorMatch, IsBlank, Found, Cons;
    ghost var s := buffer[start..];
    ok, vector, cursor := true, before, start;
    var m := MatchOperator(buffer, start);
    OperatorStep(s, start);
    if m.TooLong? {
      ok := false;
      return;
    }
    cursor := m.next;
    assert s[cursor - start..] == buffer[cursor..];
    if m.token.Some? {
      FoundOne(vector, m.token.value, Tokenize(buffer[cursor..]));
      vector := vector + [m.token.value];
      return;
    }
    ok, vector, cursor := TokenizeOne(buffer, vector, cursor);
  }

  lemma NoText()
    ensures Tokenize("") == Some([])
  {
  }

  /** An identifier if there is one, else an integer. */
  function WordMatch(s: string, cursor: nat): Match {
    var m := RunMatch(s, IdentifierLength(s), WordKind(s[..IdentifierLength(s)]), cursor);
    if m == Matched(cursor, None) then RunMatch(s, IntegerLength(s), IntegerKind, cursor) else m
  }

  lemma WordStep(s: string, cursor: nat)
    ensures match WordMatch(s, cursor)
            case TooLong => TokenizeWord(s) == None
            case Matched(next, Some(token)) =>
              cursor < next <= cursor + |s| && TokenizeWord(s) == Cons(token, Tokenize(s[next - cursor..]))
            case Matched(_, None) =>
              if s == "" then TokenizeWord(s) == None
              else if IsPunctuation(s[0]) then TokenizeWord(s) == Cons(Token(PunctuationKind, [s[0]]), Tokenize(s[1..]))
              else TokenizeWord(s) == Tokenize(s[1..])
  {
    hide IdentifierLength, IntegerLength, WordKind, Tokenize, Cons, IsPunctuation;
  }

  /** The rest of a turn of the loop: an identifier, an integer, punctuation, or a character to skip. */
  method TokenizeOne(buffer: string, before: seq<Token>, start: nat) returns (ok: bool, vector: seq<Token>, cursor: nat)
    requires start <= |buffer|
    ensures if ok then start < cursor <= |buffer|
                       && Found(before, TokenizeWord(buffer[start..])) == Found(vector, Tokenize(buffer[cursor..]))
            else TokenizeWord(buffer[start..]) == None
  {
    hide IdentifierLength, IntegerLength, WordKind, Tokenize, TokenizeWord, RunMatch, Found, Cons;
    ghost var s := buffer[start..];
    ok, vector, cursor := false, before, start;
    var m := MatchIdentifier(buffer, cursor);
    if m == Matched(start, None) {
      m := MatchIntegerLiteral(buffer, cursor);
    }
    WordStep(s, start);
    assert m == WordMatch(s, start);
    if m.TooLong? || (m.token.None? && cursor == |buffer|) {
      return;
    }
    ok := true;
    if m.token.None? {
      m := MatchPunctuation(buffer, cursor);
    }
    if m.token.Some? {
      cursor := m.next;
      assert s[cursor - start..] == buffer[cursor..];
      FoundOne(vector, m.token.value, Tokenize(buffer[cursor..]));
      vector := vector + [m.token.value];
    } else {
      cursor := cursor + 1;
      assert s[1..] == buffer[cursor..];
    }
  }
}
