/** Lexer.Tokenize: a cursor over the source that tries an ordered table of
    anchored patterns, emits one token for the first pattern that matches,
    skips a character no pattern matches, and ends with an end-of-file token.

    Each regular expression of the table is written out as a matcher that
    returns the length of its match at the start of the remaining text. */
module Lexer {
  import opened Common

  /** The character classes the patterns repeat. */
  datatype CharClass = Digit | WordChar | NonQuote | NonNewline

  predicate IsDigit(c: char) { '0' <= c <= '9' }

  predicate IsWordStart(c: char) { 'a' <= c <= 'z' || 'A' <= c <= 'Z' || c == '_' }

  predicate InClass(c: char, cls: CharClass) {
    match cls
    case Digit => IsDigit(c)
    case WordChar => IsWordStart(c) || IsDigit(c)
    case NonQuote => c != '"'
    case NonNewline => c != '\n'   // what `.` matches without RegexOptions.Singleline
  }

  /** Length of the longest run of `cls` characters starting at `i` (a greedy `*`). */
  function Span(s: string, i: nat, cls: CharClass): (n: nat)
    requires i <= |s|
    ensures i + n <= |s|
    ensures forall k :: i <= k < i + n ==> InClass(s[k], cls)
    ensures i + n == |s| || !InClass(s[i + n], cls)
    decreases |s| - i
  {
    if i < |s| && InClass(s[i], cls) then 1 + Span(s, i + 1, cls) else 0
  }

  /** The first `j >= i` at which the text continues with the two characters
      that close a block comment (the lazy `.*?\*\/` of the pattern). */
  function CommentEnd(s: string, i: nat): (r: Option<nat>)
    requires i <= |s|
    ensures r.Some? ==> i <= r.value && r.value + 2 <= |s| && s[r.value] == '*' && s[r.value + 1] == '/'
    ensures r.Some? ==> forall k :: i <= k < r.value ==> !(s[k] == '*' && s[k + 1] == '/')
    ensures r.None? ==> forall k :: i <= k && k + 1 < |s| ==> !(s[k] == '*' && s[k + 1] == '/')
    decreases |s| - i
  {
    if i + 2 > |s| then None
    else if s[i] == '*' && s[i + 1] == '/' then Some(i)
    else CommentEnd(s, i + 1)
  }

  /** One entry of the pattern table (Lexer.cs lines 55-99). */
  datatype Pattern =
    | Space          // ^ (a single space)
    | Newline        // ^\n
    | Digits         // ^\d+
    | Word           // ^[a-zA-Z_][a-zA-Z0-9_]*, keyword or identifier
    | StringLiteral  // ^@?"[^"]*"
    | LineComment    // ^//.*
    | BlockComment   // ^/\*.*?\*/ with RegexOptions.Singleline
    | Fixed(text: Lexeme, kind: SyntaxKind)  // a literal operator or punctuation

  /** The text of a fixed pattern is never empty. */
  type Lexeme = s: string | |s| > 0 witness " "

  /** The table in the order Tokenize tries it: the regular-expression
      patterns, then the fixed-text ones (held in three consecutive slices
      so that facts about the table can be shown slice by slice). */
  const Patterns: seq<Pattern> := RegexPatterns + FixedPatterns1 + FixedPatterns2 + FixedPatterns3

  const RegexPatterns: seq<Pattern> := [Space, Newline, Digits, Word, StringLiteral, LineComment, BlockComment]

  const FixedPatterns1: seq<Pattern> := [
    Fixed(";", SemicolonToken), Fixed(":", ColonToken), Fixed(",", CommaToken), Fixed(".", DotToken),
    Fixed("<=", LessThanEqualsToken), Fixed(">=", GreaterThanEqualsToken),
    Fixed("==", EqualsEqualsToken), Fixed("=", EqualsToken)
  ]

  const FixedPatterns2: seq<Pattern> := [
    Fixed("(", OpenParenToken), Fixed(")", CloseParenToken), Fixed("{", OpenBraceToken),
    Fixed("}", CloseBraceToken), Fixed("[", OpenBracketToken), Fixed("]", CloseBracketToken),
    Fixed(">", GreaterThanToken), Fixed("<", LessThanToken)
  ]

  const FixedPatterns3: seq<Pattern> := [
    Fixed("+", PlusToken), Fixed("-", MinusToken), Fixed("*", AsteriskToken), Fixed("/", SlashToken),
    Fixed("!=", ExclamationEqualsToken), Fixed("&&", AmpersandAmpersandToken),
    Fixed("||", BarBarToken), Fixed("!", ExclamationToken)
  ]

  /** The length of `p`'s match at the start of `s`, if it matches there. */
  function MatchLength(p: Pattern, s: string): (r: Option<nat>)
    ensures r.Some? ==> 1 <= r.value <= |s|
    ensures r.Some? && p.StringLiteral? ==> r.value >= 2 && (s[0] == '@' ==> r.value >= 3)
  {
    match p
    case Space => if |s| > 0 && s[0] == ' ' then Some(1) else None
    case Newline => if |s| > 0 && s[0] == '\n' then Some(1) else None
    case Digits => if |s| > 0 && IsDigit(s[0]) then Some(Span(s, 0, Digit)) else None
    case Word => if |s| > 0 && IsWordStart(s[0]) then Some(1 + Span(s, 1, WordChar)) else None
    case StringLiteral =>
      if |s| >= 2 && s[0] == '@' && s[1] == '"' then
        var q := Span(s, 2, NonQuote);
        if 2 + q < |s| then Some(3 + q) else None
      else if |s| >= 1 && s[0] == '"' then
        var q := Span(s, 1, NonQuote);
        if 1 + q < |s| then Some(2 + q) else None
      else None
    case LineComment =>
      if |s| >= 2 && s[0] == '/' && s[1] == '/' then Some(2 + Span(s, 2, NonNewline)) else None
    case BlockComment =>
      if |s| >= 2 && s[0] == '/' && s[1] == '*' then
        match CommentEnd(s, 2)
        case Some(j) => Some(j + 2)
        case None => None
      else None
    case Fixed(t, _) => if t <= s then Some(|t|) else None
  }

  /** The token a pattern builds from its matched text (the lambdas of the table). */
  function MakeToken(p: Pattern, text: string, keywords: map<string, SyntaxKind>): Token
    requires p.StringLiteral? ==> |text| >= 2 && (text[0] == '@' ==> |text| >= 3)
  {
    match p
    case Space => Token(WhitespaceTrivia, text)
    case Newline => Token(EndOfLineTrivia, text)
    case Digits => Token(NumericLiteralToken, text)
    case Word => if text in keywords then Token(keywords[text], text) else Token(IdentifierToken, text)
    case StringLiteral =>
      if text[0] == '@' then Token(StringLiteralToken, text[2..|text| - 1])
      else Token(StringLiteralToken, text[1..|text| - 1])
    case LineComment => Token(SingleLineCommentTrivia, text)
    case BlockComment => Token(MultiLineCommentTrivia, text)
    case Fixed(_, k) => Token(k, text)
  }

  /** A token keeps the text it was matched from, except a string literal,
      which drops its quotes and its `@`; a word is a keyword exactly when
      the table lists it. */
  lemma MakeTokenValue(p: Pattern, text: string, keywords: map<string, SyntaxKind>)
    requires p.StringLiteral? ==> |text| >= 2 && (text[0] == '@' ==> |text| >= 3)
    ensures var t := MakeToken(p, text, keywords);
      && (!p.StringLiteral? ==> t.value == text)
      && (p.StringLiteral? ==>
            var open := if text[0] == '@' then 2 else 1;
            t.kind == StringLiteralToken && |t.value| == |text| - open - 1 && t.value == text[open..|text| - 1])
      && (p.Word? ==> (text in keywords ==> t.kind == keywords[text]) && (text !in keywords ==> t.kind == IdentifierToken))
      && (p.Fixed? ==> t.kind == p.kind)
  {
  }

  /** The first pattern of `table`, from index `i` on, that matches at the
      start of `s`, with its match length: the `foreach ... break` of the scan loop. */
  function FirstMatchFrom(table: seq<Pattern>, s: string, i: nat): (r: Option<(nat, nat)>)
    requires i <= |table|
    ensures r.Some? ==> i <= r.value.0 < |table| && MatchLength(table[r.value.0], s) == Some(r.value.1)
    ensures r.Some? ==> forall j :: i <= j < r.value.0 ==> MatchLength(table[j], s).None?
    ensures r.None? ==> forall j :: i <= j < |table| ==> MatchLength(table[j], s).None?
    decreases |table| - i
  {
    if i == |table| then None
    else match MatchLength(table[i], s)
      case Some(n) => Some((i, n))
      case None => FirstMatchFrom(table, s, i + 1)
  }

  /** What one turn of the scan loop does at the start of `s`: the token of
      the first matching pattern of `table` and the match length, or nothing. */
  function Step(table: seq<Pattern>, s: string, keywords: map<string, SyntaxKind>): (r: Option<(Token, nat)>)
    ensures r.Some? ==> 1 <= r.value.1 <= |s|
  {
    match FirstMatchFrom(table, s, 0)
    case Some((i, n)) => Some((MakeToken(table[i], s[..n], keywords), n))
    case None => None
  }

  /** The tokens the scan loop emits for `src` from `position` on, with the
      pattern table `table` (the end-of-file token excluded). */
  function LexFrom(table: seq<Pattern>, src: string, position: nat, keywords: map<string, SyntaxKind>): seq<Token>
    requires position <= |src|
    decreases |src| - position
  {
    if position == |src| then []
    else match Step(table, src[position..], keywords)
      case Some((t, n)) => [t] + LexFrom(table, src, position + n, keywords)
      case None => LexFrom(table, src, position + 1, keywords)
  }

  /** The tokens Tokenize emits for `s` before its end-of-file token. */
  function Lex(s: string, keywords: map<string, SyntaxKind>): seq<Token> {
    LexFrom(Patterns, s, 0, keywords)
  }

  /** Lexer.Tokenize: builds the pattern table, scans, appends end-of-file. */
  method Tokenize(sourceCode: string, keywords: map<string, SyntaxKind>) returns (tokens: seq<Token>)
    ensures tokens == Lex(sourceCode, keywords) + [Token(EndOfFileToken, "")]
  {
    var tokenDefinitions := Patterns;
    tokens := Scan(tokenDefinitions, sourceCode, keywords);
    tokens := tokens + [Token(EndOfFileToken, "")];
  }

  /** The inner `foreach` of the scan loop at `position`: tries the patterns
      in table order and builds the token of the first one that matches at
      the cursor, with its length. What it returns is one step of LexFrom:
      the token LexFrom emits at `position` and where LexFrom resumes. */
  method MatchFirstPattern(tokenDefinitions: seq<Pattern>, sourceCode: string, position: nat,
                           keywords: map<string, SyntaxKind>)
    returns (r: Option<(Token, nat)>)
    requires position < |sourceCode|
    ensures r.Some? ==> 0 < r.value.1 <= |sourceCode| - position
    ensures r.Some? ==> Emits(tokenDefinitions, sourceCode, keywords, position, [r.value.0], position + r.value.1)
    ensures r.None? ==> Emits(tokenDefinitions, sourceCode, keywords, position, [], position + 1)
  {
    var rest := sourceCode[position..];
    var i := 0;
    while i < |tokenDefinitions|
      invariant 0 <= i <= |tokenDefinitions|
      invariant FirstMatchFrom(tokenDefinitions, rest, 0) == FirstMatchFrom(tokenDefinitions, rest, i)
    {
      var m := MatchLength(tokenDefinitions[i], rest);
      if m.Some? {
        EmitsFound(tokenDefinitions, sourceCode, keywords, position, i, m.value);
        return Some((MakeToken(tokenDefinitions[i], rest[..m.value], keywords), m.value));
      }
      i := i + 1;
    }
    EmitsNothing(tokenDefinitions, sourceCode, keywords, position);
    return None;
  }

  /** When the first pattern that matches at the cursor is `table[i]`, with
      length `n`, LexFrom emits its token and resumes after the match. */
  lemma EmitsFound(table: seq<Pattern>, src: string, keywords: map<string, SyntaxKind>,
                   position: nat, i: nat, n: nat)
    requires position < |src| && i < |table|
    requires FirstMatchFrom(table, src[position..], 0) == Some((i, n))
    ensures 0 < n <= |src| - position
    ensures Emits(table, src, keywords, position, [MakeToken(table[i], src[position..][..n], keywords)], position + n)
  {
    var s := src[position..];
    var t := MakeToken(table[i], s[..n], keywords);
    assert Step(table, s, keywords) == Some((t, n));
    LexFromStep(table, src, keywords, position, t, n);
  }

  /** LexFrom at a cursor where the scan step emits `t` after a match of length `n`. */
  lemma LexFromStep(table: seq<Pattern>, src: string, keywords: map<string, SyntaxKind>,
                    position: nat, t: Token, n: nat)
    requires position < |src|
    requires Step(table, src[position..], keywords) == Some((t, n))
    ensures position + n <= |src|
    ensures LexFrom(table, src, position, keywords) == [t] + LexFrom(table, src, position + n, keywords)
  {
  }

  /** When no pattern matches at the cursor, LexFrom emits nothing there and
      resumes one character on. */
  lemma EmitsNothing(table: seq<Pattern>, src: string, keywords: map<string, SyntaxKind>, position: nat)
    requires position < |src|
    requires FirstMatchFrom(table, src[position..], 0) == None
    ensures Emits(table, src, keywords, position, [], position + 1)
  {
    assert [] + LexFrom(table, src, position + 1, keywords) == LexFrom(table, src, position + 1, keywords);
  }

  /** From `position` LexFrom emits `emitted` and then goes on as from `next`:
      one turn of the scan loop. */
  predicate Emits(table: seq<Pattern>, src: string, keywords: map<string, SyntaxKind>,
                  position: nat, emitted: seq<Token>, next: nat)
  {
    var ok := position < next <= |src|
      && LexFrom(table, src, position, keywords) == emitted + LexFrom(table, src, next, keywords);
    ok
  }

  /** The scan loop of Tokenize over the table `tokenDefinitions`: at each
      position the first matching pattern emits its token and the cursor
      moves past the match; with no match the cursor moves by one. */
  method Scan(tokenDefinitions: seq<Pattern>, sourceCode: string, keywords: map<string, SyntaxKind>)
    returns (tokens: seq<Token>)
    ensures tokens == LexFrom(tokenDefinitions, sourceCode, 0, keywords)
  {
    tokens := [];
    var position := 0;
    while position < |sourceCode|
      invariant position <= |sourceCode|
      invariant ScanState(tokenDefinitions, sourceCode, keywords, position, tokens)
      decreases |sourceCode| - position
    {
      var found := MatchFirstPattern(tokenDefinitions, sourceCode, position, keywords);
      if found.Some? {
        ScanTurn(tokenDefinitions, sourceCode, keywords, position, tokens, [found.value.0], found.value.1);
        tokens := tokens + [found.value.0];
        position := position + found.value.1;
      } else {
        ScanSkip(tokenDefinitions, sourceCode, keywords, position, tokens);
        position := position + 1;
      }
    }
    ScanEnd(tokenDefinitions, sourceCode, keywords, tokens);
  }

  /** The scan loop's invariant: the tokens emitted so far followed by what
      LexFrom emits from the cursor on are what LexFrom emits for the whole text. */
  predicate ScanState(table: seq<Pattern>, src: string, keywords: map<string, SyntaxKind>,
                      position: nat, tokens: seq<Token>)
  {
    var ok := position <= |src|
      && tokens + LexFrom(table, src, position, keywords) == LexFrom(table, src, 0, keywords);
    ok
  }

  /** One turn of the scan loop that emits `emitted` and moves the cursor by `n` keeps the invariant. */
  lemma ScanTurn(table: seq<Pattern>, src: string, keywords: map<string, SyntaxKind>,
                 position: nat, tokens: seq<Token>, emitted: seq<Token>, n: nat)
    requires ScanState(table, src, keywords, position, tokens)
    requires Emits(table, src, keywords, position, emitted, position + n)
    ensures ScanState(table, src, keywords, position + n, tokens + emitted)
  {
    var rest := LexFrom(table, src, position + n, keywords);
    assert tokens + (emitted + rest) == (tokens + emitted) + rest;
  }

  /** A turn of the scan loop in which no pattern matches moves the cursor by one and keeps the invariant. */
  lemma ScanSkip(table: seq<Pattern>, src: string, keywords: map<string, SyntaxKind>,
                 position: nat, tokens: seq<Token>)
    requires ScanState(table, src, keywords, position, tokens)
    requires Emits(table, src, keywords, position, [], position + 1)
    ensures ScanState(table, src, keywords, position + 1, tokens)
  {
    ScanTurn(table, src, keywords, position, tokens, [], 1);
    assert tokens + [] == tokens;
  }

  /** When the cursor reaches the end of the text, the emitted tokens are all of LexFrom's. */
  lemma ScanEnd(table: seq<Pattern>, src: string, keywords: map<string, SyntaxKind>, tokens: seq<Token>)
    requires ScanState(table, src, keywords, |src|, tokens)
    ensures tokens == LexFrom(table, src, 0, keywords)
  {
    assert tokens + [] == tokens;
  }
}

module LexerProperties {
  import opened Common
  import opened Lexer

  /** The text of each punctuation and operator kind of the table; empty
      for every other kind. */
  function Spelling(k: SyntaxKind): string {
    match k
    case SemicolonToken => ";"
    case ColonToken => ":"
    case CommaToken => ","
    case DotToken => "."
    case LessThanEqualsToken => "<="
    case GreaterThanEqualsToken => ">="
    case EqualsEqualsToken => "=="
    case EqualsToken => "="
    case OpenParenToken => "("
    case CloseParenToken => ")"
    case OpenBraceToken => "{"
    case CloseBraceToken => "}"
    case OpenBracketToken => "["
    case CloseBracketToken => "]"
    case GreaterThanToken => ">"
    case LessThanToken => "<"
    case PlusToken => "+"
    case MinusToken => "-"
    case AsteriskToken => "*"
    case SlashToken => "/"
    case ExclamationEqualsToken => "!="
    case AmpersandAmpersandToken => "&&"
    case BarBarToken => "||"
    case ExclamationToken => "!"
    case _ => ""
  }

  predicate IsWord(w: string) {
    |w| > 0 && IsWordStart(w[0]) && forall k :: 1 <= k < |w| ==> InClass(w[k], WordChar)
  }

  /** What a token's text looks like, given its kind: the regular expression
      of the pattern that produced it, and the keyword table for words. */
  predicate WellFormed(t: Token, keywords: map<string, SyntaxKind>) {
    var v := t.value;
    match t.kind
    case IdentifierToken => IsWord(v) && v !in keywords
    case WhitespaceTrivia => v == " "
    case EndOfLineTrivia => v == "\n"
    case NumericLiteralToken => |v| > 0 && forall k :: 0 <= k < |v| ==> IsDigit(v[k])
    case StringLiteralToken => forall k :: 0 <= k < |v| ==> v[k] != '"'
    case SingleLineCommentTrivia => |v| >= 2 && v[..2] == "//" && forall k :: 0 <= k < |v| ==> v[k] != '\n'
    case MultiLineCommentTrivia => |v| >= 4 && v[..2] == "/*" && v[|v| - 2..] == "*/"
    case EndOfFileToken => false
    case _ =>
      if IsKeywordKind(t.kind) then IsWord(v) && v in keywords && keywords[v] == t.kind
      else v != "" && v == Spelling(t.kind)
  }

  predicate Spelled(p: Pattern) { p.Fixed? ==> Spelling(p.kind) == p.text }

  lemma Slice1Spelled(k: nat)
    requires k < |FixedPatterns1|
    ensures Spelled(FixedPatterns1[k])
  {
  }

  lemma Slice2Spelled(k: nat)
    requires k < |FixedPatterns2|
    ensures Spelled(FixedPatterns2[k])
  {
  }

  lemma Slice3Spelled(k: nat)
    requires k < |FixedPatterns3|
    ensures Spelled(FixedPatterns3[k])
  {
  }

  /** Every fixed entry of the table builds a token of its own spelling. */
  lemma FixedPatternsSpelled(i: nat)
    requires i < |Patterns|
    ensures Spelled(Patterns[i])
  {
    var n0, n1, n2 := |RegexPatterns|, |FixedPatterns1|, |FixedPatterns2|;
    if i < n0 {
      assert Patterns[i] == RegexPatterns[i];
    } else if i < n0 + n1 {
      assert Patterns[i] == FixedPatterns1[i - n0];
      Slice1Spelled(i - n0);
    } else if i < n0 + n1 + n2 {
      assert Patterns[i] == FixedPatterns2[i - n0 - n1];
      Slice2Spelled(i - n0 - n1);
    } else {
      assert Patterns[i] == FixedPatterns3[i - n0 - n1 - n2];
      Slice3Spelled(i - n0 - n1 - n2);
    }
  }

  /** The token of a word match is a keyword of the table or an identifier
      that is not one. */
  lemma WordTokenWellFormed(s: string, n: nat, keywords: map<string, SyntaxKind>)
    requires IsKeywordTable(keywords)
    requires MatchLength(Word, s) == Some(n)
    ensures WellFormed(MakeToken(Word, s[..n], keywords), keywords)
  {
    var text := s[..n];
    assert IsWord(text);
    if text in keywords {
      assert IsKeywordKind(keywords[text]);
    }
  }

  /** The token of a string-literal match holds the text between the quotes,
      which has no quote. */
  lemma StringTokenWellFormed(s: string, n: nat, keywords: map<string, SyntaxKind>)
    requires MatchLength(StringLiteral, s) == Some(n)
    ensures WellFormed(MakeToken(StringLiteral, s[..n], keywords), keywords)
  {
    var text := s[..n];
    var start := if s[0] == '@' then 2 else 1;
    var v := text[start..n - 1];
    assert v == s[start..n - 1];
    forall k | 0 <= k < |v|
      ensures v[k] != '"'
    {
      assert InClass(s[start + k], NonQuote);
    }
  }

  /** The token of a comment match starts and ends as the comment does. */
  lemma CommentTokenWellFormed(p: Pattern, s: string, n: nat, keywords: map<string, SyntaxKind>)
    requires p == LineComment || p == BlockComment
    requires MatchLength(p, s) == Some(n)
    ensures WellFormed(MakeToken(p, s[..n], keywords), keywords)
  {
  }

  /** The token of a fixed-text match is spelled as its kind. */
  lemma FixedTokenWellFormed(p: Pattern, s: string, n: nat, keywords: map<string, SyntaxKind>)
    requires p.Fixed? && Spelled(p)
    requires MatchLength(p, s) == Some(n)
    ensures WellFormed(MakeToken(p, s[..n], keywords), keywords)
  {
    assert s[..n] == p.text;
  }

  /** The token of one match is well formed. */
  lemma PatternTokenWellFormed(p: Pattern, s: string, n: nat, keywords: map<string, SyntaxKind>)
    requires IsKeywordTable(keywords)
    requires MatchLength(p, s) == Some(n)
    requires Spelled(p)
    ensures WellFormed(MakeToken(p, s[..n], keywords), keywords)
  {
    match p
    case Space =>
    case Newline =>
    case Digits =>
    case Word => WordTokenWellFormed(s, n, keywords);
    case StringLiteral => StringTokenWellFormed(s, n, keywords);
    case LineComment => CommentTokenWellFormed(p, s, n, keywords);
    case BlockComment => CommentTokenWellFormed(p, s, n, keywords);
    case Fixed(_, _) => FixedTokenWellFormed(p, s, n, keywords);
  }

  /** A token the lexer emits at any position is well formed. */
  lemma StepWellFormed(s: string, keywords: map<string, SyntaxKind>)
    requires IsKeywordTable(keywords)
    requires Step(Patterns, s, keywords).Some?
    ensures WellFormed(Step(Patterns, s, keywords).value.0, keywords)
  {
    var (i, n) := FirstMatchFrom(Patterns, s, 0).value;
    FixedPatternsSpelled(i);
    PatternTokenWellFormed(Patterns[i], s, n, keywords);
  }

  /** A property that holds of every token one scan step can build holds of
      every token of the scan. */
  lemma {:induction false} LexAll(table: seq<Pattern>, s: string, position: nat,
                                  keywords: map<string, SyntaxKind>, ok: Token -> bool)
    requires position <= |s|
    requires forall rest :: Step(table, rest, keywords).Some? ==> ok(Step(table, rest, keywords).value.0)
    ensures forall t :: t in LexFrom(table, s, position, keywords) ==> ok(t)
    decreases |s| - position
  {
    if position < |s| {
      var r := Step(table, s[position..], keywords);
      if r.Some? {
        LexAll(table, s, position + r.value.1, keywords, ok);
      } else {
        LexAll(table, s, position + 1, keywords, ok);
      }
    }
  }

  /** The scan emits at most one token per character: every token consumes
      at least one, and a skipped character none. */
  lemma {:induction false} LexBounded(table: seq<Pattern>, src: string, position: nat, keywords: map<string, SyntaxKind>)
    requires position <= |src|
    ensures |LexFrom(table, src, position, keywords)| <= |src| - position
    decreases |src| - position
  {
    if position < |src| {
      var r := Step(table, src[position..], keywords);
      if r.Some? {
        LexBounded(table, src, position + r.value.1, keywords);
      } else {
        LexBounded(table, src, position + 1, keywords);
      }
    }
  }

  /** Every token Tokenize emits before the end-of-file token is well formed;
      in particular none is an end-of-file token. */
  lemma LexWellFormed(s: string, keywords: map<string, SyntaxKind>)
    requires IsKeywordTable(keywords)
    ensures forall t :: t in Lex(s, keywords) ==> WellFormed(t, keywords)
  {
    forall rest | Step(Patterns, rest, keywords).Some?
      ensures WellFormed(Step(Patterns, rest, keywords).value.0, keywords)
    {
      StepWellFormed(rest, keywords);
    }
    LexAll(Patterns, s, 0, keywords, t => WellFormed(t, keywords));
  }

  /** The end-of-file token is the last token, and only there. */
  lemma TokenizeEndsOnce(s: string, keywords: map<string, SyntaxKind>, tokens: seq<Token>)
    requires IsKeywordTable(keywords)
    requires tokens == Lex(s, keywords) + [Token(EndOfFileToken, "")]
    ensures |tokens| > 0 && tokens[|tokens| - 1].kind == EndOfFileToken
    ensures forall k :: 0 <= k < |tokens| - 1 ==> tokens[k].kind != EndOfFileToken
  {
    LexWellFormed(s, keywords);
    forall k | 0 <= k < |tokens| - 1
      ensures tokens[k].kind != EndOfFileToken
    {
      assert tokens[k] in Lex(s, keywords);
    }
  }

  /** Where a pattern of the table can match, given the first character. */
  predicate CanStartToken(c: char) {
    c == ' ' || c == '\n' || IsDigit(c) || IsWordStart(c) || c == '"' || c == '@'
    || c in ";:,.<>=(){}[]+-*/!&|"
  }

  lemma {:induction false} SliceUnmatched(ps: seq<Pattern>, s: string)
    requires forall k :: 0 <= k < |ps| ==> ps[k].Fixed?
    requires |s| > 0 && forall k :: 0 <= k < |ps| ==> ps[k].text[0] != s[0]
    ensures forall k :: 0 <= k < |ps| ==> MatchLength(ps[k], s).None?
  {
    forall k | 0 <= k < |ps|
      ensures MatchLength(ps[k], s).None?
    {
      var t := ps[k].text;
      assert !(t <= s) by {
        assert t[0] != s[0];
      }
    }
  }

  /** A character no pattern can start with builds no token: the scan loop
      skips it. */
  lemma UnknownCharacterSkipped(s: string, keywords: map<string, SyntaxKind>)
    requires |s| > 0 && !CanStartToken(s[0])
    ensures Step(Patterns, s, keywords).None?
  {
    SliceUnmatched(FixedPatterns1, s);
    SliceUnmatched(FixedPatterns2, s);
    SliceUnmatched(FixedPatterns3, s);
    forall i | 0 <= i < |Patterns|
      ensures MatchLength(Patterns[i], s).None?
    {
      var n0, n1, n2 := |RegexPatterns|, |FixedPatterns1|, |FixedPatterns2|;
      if i < n0 {
        assert Patterns[i] == RegexPatterns[i];
      } else if i < n0 + n1 {
        assert Patterns[i] == FixedPatterns1[i - n0];
      } else if i < n0 + n1 + n2 {
        assert Patterns[i] == FixedPatterns2[i - n0 - n1];
      } else {
        assert Patterns[i] == FixedPatterns3[i - n0 - n1 - n2];
      }
    }
  }

  /** The first matching pattern of the table decides the step. */
  lemma StepAt(s: string, keywords: map<string, SyntaxKind>, i: nat, n: nat)
    requires i < |Patterns| && MatchLength(Patterns[i], s) == Some(n)
    requires forall j :: 0 <= j < i ==> MatchLength(Patterns[j], s).None?
    ensures Step(Patterns, s, keywords) == Some((MakeToken(Patterns[i], s[..n], keywords), n))
  {
    var r := FirstMatchFrom(Patterns, s, 0);
    assert r.Some? && r.value.0 == i;
  }

  /** `==` is one token, not two `=`: the longer pattern comes first. */
  lemma EqualsEqualsBeforeEquals(s: string, keywords: map<string, SyntaxKind>)
    requires |s| >= 2 && s[0] == '=' && s[1] == '='
    ensures Step(Patterns, s, keywords) == Some((Token(EqualsEqualsToken, "=="), 2))
  {
    assert Patterns[13] == Fixed("==", EqualsEqualsToken);
    assert "==" <= s;
    forall j | 0 <= j < 13
      ensures MatchLength(Patterns[j], s).None?
    {
      if j < 7 {
        assert Patterns[j] == RegexPatterns[j];
      } else {
        assert Patterns[j] == FixedPatterns1[j - 7];
      }
    }
    StepAt(s, keywords, 13, 2);
    assert s[..2] == "==";
  }

  /** `<=` is one token, not `<` then `=`. */
  lemma LessThanEqualsBeforeLessThan(s: string, keywords: map<string, SyntaxKind>)
    requires |s| >= 2 && s[0] == '<' && s[1] == '='
    ensures Step(Patterns, s, keywords) == Some((Token(LessThanEqualsToken, "<="), 2))
  {
    assert Patterns[11] == Fixed("<=", LessThanEqualsToken);
    assert "<=" <= s;
    forall j | 0 <= j < 11
      ensures MatchLength(Patterns[j], s).None?
    {
      if j < 7 {
        assert Patterns[j] == RegexPatterns[j];
      } else {
        assert Patterns[j] == FixedPatterns1[j - 7];
      }
    }
    StepAt(s, keywords, 11, 2);
    assert s[..2] == "<=";
  }

  /** A run of digits is a number even when letters follow it: the digit
      pattern comes before the identifier pattern, so `12ab` starts with
      the number `12`. */
  lemma DigitsBeforeWord(s: string, keywords: map<string, SyntaxKind>)
    requires |s| > 0 && IsDigit(s[0])
    ensures var n := Span(s, 0, Digit);
      Step(Patterns, s, keywords) == Some((Token(NumericLiteralToken, s[..n]), n))
  {
    assert Patterns[2] == Digits;
    forall j | 0 <= j < 2
      ensures MatchLength(Patterns[j], s).None?
    {
      assert Patterns[j] == RegexPatterns[j];
    }
    StepAt(s, keywords, 2, Span(s, 0, Digit));
  }

  /** There is no `++` pattern: a plus sign is always a token of its own. */
  lemma PlusIsSingle(s: string, keywords: map<string, SyntaxKind>)
    requires |s| > 0 && s[0] == '+'
    ensures Step(Patterns, s, keywords) == Some((Token(PlusToken, "+"), 1))
  {
    var n0, n1, n2 := |RegexPatterns|, |FixedPatterns1|, |FixedPatterns2|;
    assert Patterns[n0 + n1 + n2] == Fixed("+", PlusToken);
    SliceUnmatched(FixedPatterns1, s);
    SliceUnmatched(FixedPatterns2, s);
    forall j | 0 <= j < n0 + n1 + n2
      ensures MatchLength(Patterns[j], s).None?
    {
      if j < n0 {
        assert Patterns[j] == RegexPatterns[j];
      } else if j < n0 + n1 {
        assert Patterns[j] == FixedPatterns1[j - n0];
      } else {
        assert Patterns[j] == FixedPatterns2[j - n0 - n1];
      }
    }
    assert "+" <= s;
    StepAt(s, keywords, n0 + n1 + n2, 1);
    assert s[..1] == "+";
  }

  /** Two slashes start a line comment that runs to the end of the line; it
      is never read as two divisions. */
  lemma LineCommentBeforeSlash(s: string, keywords: map<string, SyntaxKind>)
    requires |s| >= 2 && s[0] == '/' && s[1] == '/'
    ensures var n := 2 + Span(s, 2, NonNewline);
      Step(Patterns, s, keywords) == Some((Token(SingleLineCommentTrivia, s[..n]), n))
  {
    LineCommentStep(s, keywords, 2 + Span(s, 2, NonNewline));
  }

  /** The step of LineCommentBeforeSlash, for the comment's length `n`. */
  lemma LineCommentStep(s: string, keywords: map<string, SyntaxKind>, n: nat)
    requires |s| >= 2 && s[0] == '/' && s[1] == '/' && n == 2 + Span(s, 2, NonNewline)
    ensures n <= |s| && Step(Patterns, s, keywords) == Some((Token(SingleLineCommentTrivia, s[..n]), n))
  {
    LineCommentMatches(s, n);
    NothingBeforeLineComment(s);
    StepAt(s, keywords, 5, n);
    assert MakeToken(LineComment, s[..n], keywords) == Token(SingleLineCommentTrivia, s[..n]);
  }

  /** After `//`, the comment pattern takes the rest of the line. */
  lemma LineCommentMatches(s: string, n: nat)
    requires |s| >= 2 && s[0] == '/' && s[1] == '/' && n == 2 + Span(s, 2, NonNewline)
    ensures Patterns[5] == LineComment && MatchLength(Patterns[5], s) == Some(n)
  {
    assert Patterns[5] == LineComment;
  }

  /** No pattern before the comment pattern matches at `//`. */
  lemma NothingBeforeLineComment(s: string)
    requires |s| >= 2 && s[0] == '/' && s[1] == '/'
    ensures forall j :: 0 <= j < 5 ==> MatchLength(Patterns[j], s).None?
  {
    forall j | 0 <= j < 5
      ensures MatchLength(Patterns[j], s).None?
    {
      assert Patterns[j] == RegexPatterns[j];
    }
  }


  /** A quote with no closing quote after it is skipped like an unknown
      character, and the text after it is scanned as code. */
  lemma UnterminatedStringSkipped(s: string, keywords: map<string, SyntaxKind>)
    requires |s| > 0 && s[0] == '"' && forall k :: 1 <= k < |s| ==> s[k] != '"'
    ensures Step(Patterns, s, keywords).None?
  {
    SliceUnmatched(FixedPatterns1, s);
    SliceUnmatched(FixedPatterns2, s);
    SliceUnmatched(FixedPatterns3, s);
    forall i | 0 <= i < |Patterns|
      ensures MatchLength(Patterns[i], s).None?
    {
      var n0, n1, n2 := |RegexPatterns|, |FixedPatterns1|, |FixedPatterns2|;
      if i < n0 {
        assert Patterns[i] == RegexPatterns[i];
      } else if i < n0 + n1 {
        assert Patterns[i] == FixedPatterns1[i - n0];
      } else if i < n0 + n1 + n2 {
        assert Patterns[i] == FixedPatterns2[i - n0 - n1];
      } else {
        assert Patterns[i] == FixedPatterns3[i - n0 - n1 - n2];
      }
    }
  }

  /** `>=` is one token, never `>` followed by `=`. */
  lemma GreaterThanEqualsBeforeGreaterThan(s: string, keywords: map<string, SyntaxKind>)
    requires |s| >= 2 && s[0] == '>' && s[1] == '='
    ensures Step(Patterns, s, keywords) == Some((Token(GreaterThanEqualsToken, ">="), 2))
  {
    assert Patterns[12] == Fixed(">=", GreaterThanEqualsToken);
    assert ">=" <= s;
    forall j | 0 <= j < 12
      ensures MatchLength(Patterns[j], s).None?
    {
      if j < 7 {
        assert Patterns[j] == RegexPatterns[j];
      } else {
        assert Patterns[j] == FixedPatterns1[j - 7];
      }
    }
    StepAt(s, keywords, 12, 2);
    assert s[..2] == ">=";
  }

  /** `!=` is one token, never `!` followed by `=`. */
  lemma ExclamationEqualsBeforeExclamation(s: string, keywords: map<string, SyntaxKind>)
    requires |s| >= 2 && s[0] == '!' && s[1] == '='
    ensures Step(Patterns, s, keywords) == Some((Token(ExclamationEqualsToken, "!="), 2))
  {
    var n0, n1, n2 := |RegexPatterns|, |FixedPatterns1|, |FixedPatterns2|;
    assert Patterns[n0 + n1 + n2 + 4] == Fixed("!=", ExclamationEqualsToken);
    SliceUnmatched(FixedPatterns1, s);
    SliceUnmatched(FixedPatterns2, s);
    SliceUnmatched(FixedPatterns3[..4], s);
    forall j | 0 <= j < n0 + n1 + n2 + 4
      ensures MatchLength(Patterns[j], s).None?
    {
      if j < n0 {
        assert Patterns[j] == RegexPatterns[j];
      } else if j < n0 + n1 {
        assert Patterns[j] == FixedPatterns1[j - n0];
      } else if j < n0 + n1 + n2 {
        assert Patterns[j] == FixedPatterns2[j - n0 - n1];
      } else {
        assert Patterns[j] == FixedPatterns3[..4][j - n0 - n1 - n2];
      }
    }
    assert "!=" <= s;
    StepAt(s, keywords, n0 + n1 + n2 + 4, 2);
    assert s[..2] == "!=";
  }

  /** `++` is two plus tokens. */
  lemma PlusPlusIsTwoPlus(keywords: map<string, SyntaxKind>)
    ensures Lex("++", keywords) == [Token(PlusToken, "+"), Token(PlusToken, "+")]
  {
    var s := "++";
    assert s[0..] == s;
    PlusIsSingle(s, keywords);
    LexFromStep(Patterns, s, keywords, 0, Token(PlusToken, "+"), 1);
    assert s[1..] == "+";
    PlusIsSingle(s[1..], keywords);
    LexFromStep(Patterns, s, keywords, 1, Token(PlusToken, "+"), 1);
  }

  /** `12ab` is the number `12` followed by the word `ab`: the digits are
      tried before words, and a word cannot start with a digit. */
  lemma DigitsThenWord(keywords: map<string, SyntaxKind>)
    ensures Lex("12ab", keywords) ==
      [Token(NumericLiteralToken, "12"), Token(if "ab" in keywords then keywords["ab"] else IdentifierToken, "ab")]
  {
    var s := "12ab";
    TwelveFirst(keywords);
    LexFromStep(Patterns, s, keywords, 0, Token(NumericLiteralToken, "12"), 2);
    AbNext(keywords);
    LexFromStep(Patterns, s, keywords, 2, MakeToken(Word, "ab", keywords), 2);
    MakeTokenValue(Word, "ab", keywords);
  }

  /** The first step of `12ab` reads the number `12`. */
  lemma TwelveFirst(keywords: map<string, SyntaxKind>)
    ensures Step(Patterns, "12ab"[0..], keywords) == Some((Token(NumericLiteralToken, "12"), 2))
  {
    var s := "12ab";
    assert s[0..] == s;
    DigitsBeforeWord(s, keywords);
    assert Span(s, 0, Digit) == 2 by {
      assert InClass(s[0], Digit) && InClass(s[1], Digit) && !InClass(s[2], Digit);
    }
    assert s[..2] == "12";
  }

  /** The second step of `12ab` reads the word `ab`. */
  lemma AbNext(keywords: map<string, SyntaxKind>)
    ensures Step(Patterns, "12ab"[2..], keywords) == Some((MakeToken(Word, "ab", keywords), 2))
  {
    var w := "12ab"[2..];
    assert w == "ab";
    assert Span(w, 1, WordChar) == 1 by {
      assert InClass(w[1], WordChar);
    }
    assert Patterns[3] == Word && MatchLength(Word, w) == Some(2);
    forall j | 0 <= j < 3
      ensures MatchLength(Patterns[j], w).None?
    {
      assert Patterns[j] == RegexPatterns[j];
    }
    StepAt(w, keywords, 3, 2);
    assert w[..2] == "ab";
  }

}
