/** What the lexer promises about the tokens it makes: where lines and columns come from,
    maximal munch for numbers, words and operators, keywords, comments, string escapes,
    the errors it records, and where end-of-file tokens can appear. */
module ScannerFacts {
  import opened Options
  import opened Tokens
  import opened Scanner
  import Decimal

  // ----- Lines and columns -----

  /** The number of newlines in `s`. */
  function Newlines(s: string): nat {
    if s == [] then 0 else Newlines(s[..|s| - 1]) + (if s[|s| - 1] == '\n' then 1 else 0)
  }

  /** The number of characters after the last newline of `s` (all of them if none). */
  function SinceNewline(s: string): nat {
    if s == [] then 0 else if s[|s| - 1] == '\n' then 0 else SinceNewline(s[..|s| - 1]) + 1
  }

  /** The column reached from `column` after the characters of `s`, counting a newline as
      a return to column 1. */
  function ColumnAfter(column: int, s: string): int {
    if Newlines(s) == 0 then column + |s| else 1 + SinceNewline(s)
  }

  /** `d` is reached from `c` over blanks only, with the line and column counted. */
  predicate Accounted(src: string, c: Cursor, d: Cursor) {
    c.pos <= d.pos <= |src| &&
    (forall i :: c.pos <= i < d.pos ==> IsBlank(src[i])) &&
    d.line == c.line + Newlines(src[c.pos..d.pos]) &&
    d.column == ColumnAfter(c.column, src[c.pos..d.pos])
  }

  lemma {:induction false} BlankStep(src: string, c: Cursor, d: Cursor)
    requires Accounted(src, c, d) && d.pos < |src| && IsBlank(src[d.pos])
    ensures Accounted(src, c, if src[d.pos] == '\n' then Cursor(d.pos + 1, d.line + 1, 1) else Advanced(src, d))
  {
    var s := src[c.pos..d.pos + 1];
    assert s[..|s| - 1] == src[c.pos..d.pos];
  }

  lemma {:induction false} BlanksFrom(src: string, c: Cursor, d: Cursor)
    requires Accounted(src, c, d)
    ensures Accounted(src, c, Blanks(src, d))
    decreases |src| - d.pos
  {
    if d.pos < |src| && IsBlank(src[d.pos]) {
      var next := if src[d.pos] == '\n' then Cursor(d.pos + 1, d.line + 1, 1) else Advanced(src, d);
      BlankStep(src, c, d);
      assert Blanks(src, d) == Blanks(src, next);
      BlanksFrom(src, c, next);
    }
  }

  /** Skipping blanks (Lexer.cpp:41-54) adds one line per newline skipped, and the column
      counts the characters since the last of them (from column 1), or since the start when
      there was none. */
  lemma WhitespaceAccounting(src: string, c: Cursor)
    requires c.pos <= |src|
    ensures var r := Blanks(src, c);
              r.line == c.line + Newlines(src[c.pos..r.pos]) &&
              r.column == ColumnAfter(c.column, src[c.pos..r.pos])
  {
    assert src[c.pos..c.pos] == [];
    BlanksFrom(src, c, c);
  }

  // ----- Numbers -----

  /** The characters from `start` to `d` are digits with at most one '.', and `hasDecimal`
      says whether there is one. */
  predicate Numeral(src: string, start: Cursor, d: Cursor, hasDecimal: bool) {
    start.pos <= d.pos <= |src| &&
    (forall i :: start.pos <= i < d.pos ==> Decimal.IsDigit(src[i]) || src[i] == '.') &&
    (forall i, j :: start.pos <= i < j < d.pos && src[i] == '.' ==> src[j] != '.') &&
    (hasDecimal <==> '.' in src[start.pos..d.pos])
  }

  lemma {:induction false} NumeralStep(src: string, start: Cursor, d: Cursor, hasDecimal: bool)
    requires Numeral(src, start, d, hasDecimal) && d.pos < |src|
    requires Decimal.IsDigit(src[d.pos]) || (src[d.pos] == '.' && !hasDecimal)
    ensures Numeral(src, start, Advanced(src, d), hasDecimal || src[d.pos] == '.')
  {
    assert src[start.pos..d.pos + 1] == src[start.pos..d.pos] + [src[d.pos]];
    if src[d.pos] == '.' {
      forall i | start.pos <= i < d.pos
        ensures src[i] != '.'
      {
        assert src[i] == src[start.pos..d.pos][i - start.pos];
      }
    }
  }

  lemma {:induction false} NumeralFrom(src: string, start: Cursor, d: Cursor, hasDecimal: bool)
    requires Numeral(src, start, d, hasDecimal)
    ensures var (r, h) := NumberEnd(src, d, hasDecimal);
              Numeral(src, start, r, h) &&
              (r.pos == |src| || !(Decimal.IsDigit(src[r.pos]) || (src[r.pos] == '.' && !h)))
    decreases |src| - d.pos
  {
    var ch := CharAt(src, d.pos);
    if (Decimal.IsDigit(ch) || ch == '.') && !(ch == '.' && hasDecimal) {
      NumeralStep(src, start, d, hasDecimal);
      NumeralFrom(src, start, Advanced(src, d), hasDecimal || ch == '.');
    }
  }

  /** `number` (Lexer.cpp:56-75) takes the longest run of digits with at most one '.', and
      the literal is a float exactly when that run has a '.'. */
  lemma NumberMaximalMunch(src: string, c: Cursor)
    requires c.pos < |src| && Decimal.IsDigit(src[c.pos])
    ensures var (t, r) := NumberToken(src, c);
              t.value == src[c.pos..r.pos] && |t.value| >= 1 &&
              (forall i :: 0 <= i < |t.value| ==> Decimal.IsDigit(t.value[i]) || t.value[i] == '.') &&
              (forall i, j :: 0 <= i < j < |t.value| && t.value[i] == '.' ==> t.value[j] != '.') &&
              (t.kind == FloatLiteral <==> '.' in t.value) &&
              (t.kind == IntLiteral <==> '.' !in t.value) &&
              (r.pos == |src| || !(Decimal.IsDigit(src[r.pos]) || (src[r.pos] == '.' && '.' !in t.value)))
  {
    assert src[c.pos..c.pos] == [];
    NumeralStep(src, c, c, false);
    var (r, h) := NumberEnd(src, c, false);
    assert (r, h) == NumberEnd(src, Advanced(src, c), false);
    NumeralFrom(src, c, Advanced(src, c), false);
    var value := src[c.pos..r.pos];
    forall i, j | 0 <= i < j < |value| && value[i] == '.'
      ensures value[j] != '.'
    {
      assert value[i] == src[c.pos + i] && value[j] == src[c.pos + j];
    }
  }

  // ----- Words and keywords -----

  /** The spelling of each keyword kind: the inverse of the keyword check. */
  function KeywordSpelling(k: TokenType): Option<string> {
    match k
    case Var => Some("var")
    case If => Some("if")
    case Else => Some("else")
    case Print => Some("print")
    case True => Some("true")
    case False => Some("false")
    case _ => None
  }

  /** A word is a keyword exactly when it is that keyword's whole spelling, so `variable`
      and `iff` are identifiers (Lexer.cpp:143-158). */
  lemma KeywordsExact(word: string, k: TokenType)
    ensures KeywordKind(word) == k && k != Identifier <==> KeywordSpelling(k) == Some(word)
  {
  }

  /** The identifier branch (Lexer.cpp:134-160) takes the longest run of letters, digits
      and underscores; a word is an identifier unless it spells a keyword. */
  lemma WordMaximalMunch(src: string, c: Cursor)
    requires c.pos < |src| && IsAlpha(src[c.pos])
    ensures var (t, r) := WordToken(src, c);
              t.value == src[c.pos..r.pos] && |t.value| >= 1 &&
              (forall i :: 0 <= i < |t.value| ==> IsAlphaNumeric(t.value[i])) &&
              (r.pos == |src| || !IsAlphaNumeric(src[r.pos])) &&
              (t.kind == Identifier <==> t.value !in Keywords)
  {
    var r := WordEnd(src, c);
    assert r == WordEnd(src, Advanced(src, c));
    var value := src[c.pos..r.pos];
    forall i | 0 <= i < |value|
      ensures IsAlphaNumeric(value[i])
    {
      assert value[i] == src[c.pos + i];
    }
  }

  // ----- Operators -----

  /** The kind each one-character operator spelling stands for. */
  function SingleKind(ch: char): Option<TokenType> {
    match ch
    case '+' => Some(Plus)
    case '-' => Some(Minus)
    case '*' => Some(Star)
    case '/' => Some(Slash)
    case '(' => Some(LParen)
    case ')' => Some(RParen)
    case '{' => Some(LBrace)
    case '}' => Some(RBrace)
    case ';' => Some(Semicolon)
    case '=' => Some(Assign)
    case '>' => Some(Greater)
    case '<' => Some(Less)
    case '!' => Some(Bang)
    case _ => None
  }

  /** The kind each two-character operator spelling stands for. */
  function DoubleKind(first: char, second: char): Option<TokenType> {
    match (first, second)
    case ('=', '=') => Some(EqualEqual)
    case ('>', '=') => Some(GreaterEqual)
    case ('<', '=') => Some(LessEqual)
    case ('!', '=') => Some(BangEqual)
    case ('&', '&') => Some(And)
    case ('|', '|') => Some(Or)
    case _ => None
  }

  /** The kind each operator spelling stands for. */
  function OperatorKind(text: string): Option<TokenType> {
    if |text| == 1 then SingleKind(text[0])
    else if |text| == 2 then DoubleKind(text[0], text[1])
    else None
  }

  /** The characters that begin an operator or punctuation token, a comment or a string. */
  predicate IsPunctuation(ch: char) {
    match ch
    case '+' | '-' | '*' | '/' | '(' | ')' | '{' | '}' | ';' | '"' | '=' | '>' | '<' | '!' | '&' | '|' => true
    case _ => false
  }

  /** Every operator token's text is the source text it came from, and its kind is the one
      that spelling names (Lexer.cpp:162-238). */
  lemma OperatorTokensAreTheirSpelling(src: string, c: Cursor)
    requires c.pos < |src| && IsPunctuation(src[c.pos]) && src[c.pos] != '"'
    ensures var l := Lexeme(src, c);
              l.token.Some? ==>
                l.token.value.value == src[c.pos..l.next.pos] &&
                OperatorKind(l.token.value.value) == Some(l.token.value.kind)
  {
    var ch := src[c.pos];
    assert !Decimal.IsDigit(ch) && !IsAlpha(ch);
    match ch
    case '=' | '>' | '<' | '!' | '&' | '|' =>
    case _ =>
      assert src[c.pos..c.pos + 1] == [ch];
  }

  /** `=`, `>`, `<` and `!` take a following `=` when there is one, and only then
      (Lexer.cpp:185-220). */
  lemma EqualsLongestMatch(src: string, c: Cursor)
    requires c.pos < |src| && src[c.pos] in "=><!"
    ensures var l := Lexeme(src, c);
              l.error.None? && l.token.Some? &&
              (|l.token.value.value| == 2 <==> c.pos + 1 < |src| && src[c.pos + 1] == '=') &&
              l.next.pos == c.pos + |l.token.value.value|
  {
  }

  /** `&&` and `||` are the only tokens made of `&` and `|`; a lone one is consumed and
      reported at its own column, and makes no token (Lexer.cpp:221-238). */
  lemma LoneAmpersandOrBar(src: string, c: Cursor)
    requires c.pos < |src| && src[c.pos] in "&|"
    ensures var l := Lexeme(src, c);
              var paired := c.pos + 1 < |src| && src[c.pos + 1] == src[c.pos];
              (paired ==> l.error.None? && l.token.Some? && l.next.pos == c.pos + 2) &&
              (!paired ==> l.token.None? && l.next.pos == c.pos + 1 &&
                           l.error == Some(UnexpectedCharacter(src[c.pos], c.line, c.column)))
  {
  }

  // ----- Comments -----

  /** `//` starts a comment that runs up to, not including, the next newline or the end of
      the source, and makes no token (Lexer.cpp:166-173). */
  lemma CommentRunsToLineEnd(src: string, c: Cursor)
    requires c.pos + 1 < |src| && src[c.pos] == '/' && src[c.pos + 1] == '/'
    ensures var l := Lexeme(src, c);
              l.token.None? && l.error.None? &&
              (l.next.pos == |src| || src[l.next.pos] == '\n') &&
              (forall i :: c.pos <= i < l.next.pos ==> src[i] != '\n')
  {
    var c1 := Advanced(src, c);
    assert Lexeme(src, c) == Lexed(CommentEnd(src, c1), None, None);
  }

  // ----- Strings -----

  /** The quoted spelling of one character: a backslash before `"` and `\\`. */
  function EscapeChar(ch: char): string {
    if ch == '"' || ch == '\\' then ['\\', ch] else [ch]
  }

  /** The quoted spelling of a string value. */
  function Escape(s: string): string {
    if s == [] then [] else EscapeChar(s[0]) + Escape(s[1..])
  }

  /** Where `src` continues with `head + tail` at `p`: the head's characters, then the tail. */
  lemma Layout(src: string, p: nat, head: string, tail: string)
    requires p <= |src| && src[p..] == head + tail
    ensures p + |head| <= |src| && src[p + |head|..] == tail
    ensures forall i :: 0 <= i < |head| ==> src[p + i] == head[i]
  {
    forall i | 0 <= i < |head|
      ensures src[p + i] == head[i]
    {
      assert src[p + i] == src[p..][i];
    }
    assert src[p + |head|..] == src[p..][|head|..];
  }

  lemma AppendHead(value: string, s: string)
    requires s != []
    ensures value + [s[0]] + s[1..] == value + s
  {
    assert s == [s[0]] + s[1..];
  }

  /** An escaped `"` or `\\` at the head of the body is read back as that character. */
  lemma BodyEscapedHead(src: string, c: Cursor, value: string, s: string)
    requires s != [] && (s[0] == '"' || s[0] == '\\')
    requires c.pos + 2 <= |src| && src[c.pos..c.pos + 2] == ['\\', s[0]]
    ensures StringBody(src, c, value) == StringBody(src, Cursor(c.pos + 2, c.line, c.column + 2), value + [s[0]])
  {
    assert src[c.pos] == '\\' && src[c.pos + 1] == s[0];
  }

  /** Any other character at the head of the body is read back as itself. */
  lemma BodyPlainHead(src: string, c: Cursor, value: string, s: string)
    requires s != [] && s[0] != '"' && s[0] != '\\'
    requires c.pos < |src| && src[c.pos] == s[0]
    ensures StringBody(src, c, value) == StringBody(src, Cursor(c.pos + 1, c.line, c.column + 1), value + [s[0]])
  {
  }

  lemma {:induction false} BodyUnescapes(src: string, c: Cursor, value: string, s: string, rest: string)
    requires c.pos <= |src| && src[c.pos..] == Escape(s) + ['"'] + rest
    ensures StringBody(src, c, value).1 == value + s
    ensures StringBody(src, c, value).0.pos == c.pos + |Escape(s)|
    decreases s
  {
    if s == [] {
      Layout(src, c.pos, ['"'], rest);
    } else {
      var head := EscapeChar(s[0]);
      var n := |head|;
      var tail := Escape(s[1..]);
      assert Escape(s) == head + tail;
      Layout(src, c.pos, head, tail + ['"'] + rest);
      if n == 2 {
        assert src[c.pos..c.pos + 2] == head;
        BodyEscapedHead(src, c, value, s);
      } else {
        BodyPlainHead(src, c, value, s);
      }
      BodyUnescapes(src, Cursor(c.pos + n, c.line, c.column + n), value + [s[0]], s[1..], rest);
      AppendHead(value, s);
    }
  }

  /** A pass that starts on a quote lexes a string literal. */
  lemma QuoteStartsString(src: string, c: Cursor)
    requires c.pos < |src| && src[c.pos] == '"'
    ensures Lexeme(src, c) == QuotedString(src, c)
  {
  }

  /** A string literal written with `Escape` between quotes reads back as the value itself
      (Lexer.cpp:82-113). */
  lemma EscapedStringRoundTrip(src: string, c: Cursor, s: string, rest: string)
    requires c.pos <= |src| && src[c.pos..] == ['"'] + Escape(s) + ['"'] + rest
    ensures var l := Lexeme(src, c);
              l.token == Some(Token(StringLiteral, s, c.line, c.column)) && l.error.None? &&
              l.next.pos == c.pos + |Escape(s)| + 2
  {
    assert src[c.pos] == src[c.pos..][0] == '"';
    assert !Decimal.IsDigit(src[c.pos]) && !IsAlpha(src[c.pos]);
    assert src[c.pos + 1..] == src[c.pos..][1..];
    assert src[c.pos..][1..] == Escape(s) + ['"'] + rest;
    BodyUnescapes(src, Advanced(src, c), "", s, rest);
    assert |src| - c.pos == |Escape(s)| + 2 + |rest|;
    var (r, v) := StringBody(src, Advanced(src, c), "");
    assert r.pos < |src|;
    assert v == s && r.line == c.line;
    assert QuotedString(src, c) == Lexed(Advanced(src, r), Some(Token(StringLiteral, v, r.line, c.column)), None);
    QuoteStartsString(src, c);
  }

  /** A quote with no other quote after it is an unterminated string: the rest of the source
      is consumed, an end-of-file token takes its place and an error is recorded at the
      opening quote's column (Lexer.cpp:106-109). */
  lemma UnterminatedStringEndsInput(src: string, c: Cursor)
    requires c.pos < |src| && src[c.pos] == '"' && '"' !in src[c.pos + 1..]
    ensures var l := Lexeme(src, c);
              l.next.pos == |src| &&
              l.token == Some(Token(EofToken, "", c.line, c.column)) &&
              l.error == Some(UnterminatedString(c.line, c.column))
  {
  }

  // ----- Characters the lexer cannot use -----

  /** Any character that begins no token is recorded as an error at its own line and column
      and skipped, one character at a time (Lexer.cpp:239-242). */
  lemma UnexpectedCharacterSkipped(src: string, c: Cursor)
    requires c.pos < |src|
    requires !IsAlphaNumeric(src[c.pos]) && !IsPunctuation(src[c.pos])
    ensures Lexeme(src, c) ==
              Lexed(Cursor(c.pos + 1, c.line, c.column + 1), None, Some(UnexpectedCharacter(src[c.pos], c.line, c.column)))
  {
  }

  /** A pass of the loop records an error exactly when the character under the cursor begins
      no token, is a lone `&` or `|`, or opens a string that is never closed. */
  lemma ErrorsExactly(src: string, c: Cursor)
    requires c.pos < |src|
    ensures var ch := src[c.pos];
              var l := Lexeme(src, c);
              l.error.Some? <==>
                (!IsAlphaNumeric(ch) && !IsPunctuation(ch)) ||
                (ch in "&|" && !(c.pos + 1 < |src| && src[c.pos + 1] == ch)) ||
                (ch == '"' && l.token.Some? && l.token.value.kind == EofToken)
  {
    var ch := src[c.pos];
    if ch == '"' {
      var l := QuotedString(src, c);
      assert Lexeme(src, c) == l;
    }
  }

  // ----- The token stream -----

  /** No end-of-file token before the last one, and a last one only with its error. */
  predicate EofOnlyLast(ts: seq<Token>, es: seq<LexError>) {
    (forall i :: 0 <= i < |ts| - 1 ==> ts[i].kind != EofToken) &&
    (ts != [] && ts[|ts| - 1].kind == EofToken ==> es != [] && es[|es| - 1].UnterminatedString?)
  }

  /** One pass of the scan, with the pass's result named. */
  lemma ScanUnfold(src: string, c: Cursor, tokens: seq<Token>, errors: seq<LexError>, c1: Cursor, l: Lexed)
    requires c.pos < |src| && c1 == Blanks(src, c) && c1.pos < |src| && l == Lexeme(src, c1)
    ensures ScanFrom(src, c, tokens, errors) == ScanFrom(src, l.next, tokens + Listed(l.token), errors + Listed(l.error))
  {
  }

  /** A pass that ends the source keeps `EofOnlyLast` whatever token it adds. */
  lemma LastPassKeeps(tokens: seq<Token>, errors: seq<LexError>, l: Lexed)
    requires forall i :: 0 <= i < |tokens| ==> tokens[i].kind != EofToken
    requires l.token.Some? && l.token.value.kind == EofToken ==> l.error.Some? && l.error.value.UnterminatedString?
    ensures EofOnlyLast(tokens + Listed(l.token), errors + Listed(l.error))
  {
  }

  lemma {:induction false} ScanHasNoInnerEof(src: string, c: Cursor, tokens: seq<Token>, errors: seq<LexError>)
    requires c.pos <= |src|
    requires forall i :: 0 <= i < |tokens| ==> tokens[i].kind != EofToken
    ensures EofOnlyLast(ScanFrom(src, c, tokens, errors).0, ScanFrom(src, c, tokens, errors).1)
    decreases |src| - c.pos
  {
    if c.pos < |src| {
      var c1 := Blanks(src, c);
      if c1.pos < |src| {
        var l := Lexeme(src, c1);
        ScanUnfold(src, c, tokens, errors, c1, l);
        var tokens' := tokens + Listed(l.token);
        var errors' := errors + Listed(l.error);
        if l.token.Some? && l.token.value.kind == EofToken {
          assert l.next.pos == |src|;
          assert ScanFrom(src, l.next, tokens', errors') == (tokens', errors', l.next);
          LastPassKeeps(tokens, errors, l);
        } else {
          ScanHasNoInnerEof(src, l.next, tokens', errors');
        }
      }
    }
  }

  /** `tokenize` (Lexer.cpp:117-258) always ends with an end-of-file token; the only other
      one it can return comes from an unterminated string, stands just before it, and comes
      with that error as the last one recorded. */
  lemma EndOfFileOnlyAtEnd(src: string)
    ensures var (ts, es) := Tokenize(src);
              |ts| >= 1 && ts[|ts| - 1].kind == EofToken &&
              (forall i :: 0 <= i < |ts| - 2 ==> ts[i].kind != EofToken) &&
              (|ts| >= 2 && ts[|ts| - 2].kind == EofToken ==> es != [] && es[|es| - 1].UnterminatedString?)
  {
    var (scanned, es, end) := ScanFrom(src, Start, [], []);
    ScanHasNoInnerEof(src, Start, [], []);
    var ts := scanned + [Token(EofToken, "", end.line, end.column)];
    assert Tokenize(src) == (ts, es);
    assert forall i :: 0 <= i < |ts| - 2 ==> ts[i] == scanned[i];
  }
}
