/** The lexer (src/Lexer.h, src/Lexer.cpp): it walks the source text once, left to right,
    keeping a position and a 1-based line and column, and turns it into tokens, recording an
    error for every character it cannot use.

    The pure functions below say what each step of the lexer computes from the source and a
    cursor; the class `Lexer` does the same work in place, loop by loop, and each of its
    methods is proved to end in the state its function names. */
module Scanner {
  import opened Options
  import opened Tokens
  import Decimal

  /** Where the lexer stands: an index into the source, and the line and column there. */
  datatype Cursor = Cursor(pos: nat, line: int, column: int)

  /** Where a fresh lexer starts (Lexer.cpp:5-6). */
  const Start := Cursor(0, 1, 1)

  /** The errors the lexer records (Lexer.cpp:107, 227, 236, 240): what went wrong and the
      line and column the message reports. */
  datatype LexError =
    | UnterminatedString(line: int, column: int)
    | UnexpectedCharacter(ch: char, line: int, column: int)

  /** What one pass of the tokenize loop leaves behind once the blanks are skipped: the new
      cursor, the token it pushed if any, and the error it recorded if any. */
  datatype Lexed = Lexed(next: Cursor, token: Option<Token>, error: Option<LexError>)

  function Listed<X>(o: Option<X>): seq<X> {
    if o.Some? then [o.value] else []
  }

  // ----- Character classes (Lexer.cpp:27-39, in the C locale) -----

  predicate IsAlpha(ch: char) {
    'a' <= ch <= 'z' || 'A' <= ch <= 'Z' || ch == '_'
  }

  predicate IsAlphaNumeric(ch: char) {
    IsAlpha(ch) || Decimal.IsDigit(ch)
  }

  /** The characters `skipWhitespace` consumes (Lexer.cpp:44-46). */
  predicate IsBlank(ch: char) {
    match ch
    case ' ' | '\t' | '\r' | '\n' => true
    case _ => false
  }

  // ----- One step at a time -----

  /** `peek`: the character under the cursor, or NUL past the end (Lexer.cpp:10-13). */
  function CharAt(src: string, pos: nat): (ch: char)
    ensures pos < |src| ==> ch == src[pos]
    ensures pos >= |src| ==> ch == '\0'
  {
    if pos < |src| then src[pos] else '\0'
  }

  /** `advance`: one column to the right, or nowhere at the end (Lexer.cpp:15-21). */
  function Advanced(src: string, c: Cursor): (r: Cursor)
    ensures r.line == c.line
    ensures c.pos < |src| ==> r.pos == c.pos + 1 && r.column == c.column + 1
    ensures c.pos >= |src| ==> r == c
  {
    if c.pos < |src| then Cursor(c.pos + 1, c.line, c.column + 1) else c
  }

  /** `skipWhitespace` (Lexer.cpp:41-54): a newline moves to column 1 of the next line. */
  function Blanks(src: string, c: Cursor): (r: Cursor)
    requires c.pos <= |src|
    ensures c.pos <= r.pos <= |src|
    ensures forall i :: c.pos <= i < r.pos ==> IsBlank(src[i])
    ensures r.pos == |src| || !IsBlank(src[r.pos])
    decreases |src| - c.pos
  {
    if c.pos == |src| then c
    else match src[c.pos]
      case ' ' | '\t' | '\r' => Blanks(src, Advanced(src, c))
      case '\n' => Blanks(src, Cursor(c.pos + 1, c.line + 1, 1))
      case _ => c
  }

  /** The loop of `number` (Lexer.cpp:61-67): digits, and one '.' at most. */
  function NumberEnd(src: string, c: Cursor, hasDecimal: bool): (r: (Cursor, bool))
    requires c.pos <= |src|
    ensures c.pos <= r.0.pos <= |src|
    ensures r.0.line == c.line && r.0.column == c.column + (r.0.pos - c.pos)
    decreases |src| - c.pos
  {
    var ch := CharAt(src, c.pos);
    if !(Decimal.IsDigit(ch) || ch == '.') || (ch == '.' && hasDecimal) then (c, hasDecimal)
    else NumberEnd(src, Advanced(src, c), hasDecimal || ch == '.')
  }

  /** `number` (Lexer.cpp:56-75): a float literal exactly when a '.' was taken. */
  function NumberToken(src: string, c: Cursor): (r: (Token, Cursor))
    requires c.pos <= |src|
    ensures c.pos <= r.1.pos <= |src| && r.1.line == c.line
    ensures r.0.value == src[c.pos..r.1.pos]
    ensures r.0.kind == IntLiteral || r.0.kind == FloatLiteral
    ensures r.0.line == c.line && r.0.column == c.column
    ensures Decimal.IsDigit(CharAt(src, c.pos)) ==> r.1.pos > c.pos
  {
    var (r, hasDecimal) := NumberEnd(src, c, false);
    (Token(if hasDecimal then FloatLiteral else IntLiteral, src[c.pos..r.pos], r.line, c.column), r)
  }

  /** The identifier loop of `tokenize` (Lexer.cpp:137-139). */
  function WordEnd(src: string, c: Cursor): (r: Cursor)
    requires c.pos <= |src|
    ensures c.pos <= r.pos <= |src|
    ensures r.line == c.line && r.column == c.column + (r.pos - c.pos)
    ensures forall i :: c.pos <= i < r.pos ==> IsAlphaNumeric(src[i])
    ensures r.pos == |src| || !IsAlphaNumeric(src[r.pos])
    decreases |src| - c.pos
  {
    if IsAlphaNumeric(CharAt(src, c.pos)) then WordEnd(src, Advanced(src, c)) else c
  }

  /** The spellings the lexer reserves (Lexer.cpp:143-155). */
  const Keywords: set<string> := {"var", "if", "else", "print", "true", "false"}

  /** The keyword check of `tokenize` (Lexer.cpp:143-158). */
  function KeywordKind(word: string): (k: TokenType)
    ensures k != Identifier <==> word in Keywords
  {
    if word == "var" then Var
    else if word == "if" then If
    else if word == "else" then Else
    else if word == "print" then Print
    else if word == "true" then True
    else if word == "false" then False
    else Identifier
  }

  /** The identifier branch of `tokenize` (Lexer.cpp:134-160). */
  function WordToken(src: string, c: Cursor): (r: (Token, Cursor))
    requires c.pos <= |src|
    ensures c.pos <= r.1.pos <= |src| && r.1.line == c.line
    ensures r.0.value == src[c.pos..r.1.pos]
    ensures r.0.kind != Identifier <==> r.0.value in Keywords
    ensures r.0.line == c.line && r.0.column == c.column
    ensures IsAlpha(CharAt(src, c.pos)) ==> r.1.pos > c.pos
    ensures r.1.pos == |src| || !IsAlphaNumeric(src[r.1.pos])
  {
    var r := WordEnd(src, c);
    var word := src[c.pos..r.pos];
    (Token(KeywordKind(word), word, r.line, c.column), r)
  }

  /** The loop of `string_literal` (Lexer.cpp:88-104): `\"` and `\\` stand for the escaped
      character, any other backslash stands for itself. */
  function StringBody(src: string, c: Cursor, value: string): (r: (Cursor, string))
    requires c.pos <= |src|
    ensures c.pos <= r.0.pos <= |src|
    ensures r.0.line == c.line && r.0.column == c.column + (r.0.pos - c.pos)
    ensures r.0.pos == |src| || src[r.0.pos] == '"'
    decreases |src| - c.pos
  {
    if CharAt(src, c.pos) == '"' || c.pos >= |src| then (c, value)
    else
      var ch := src[c.pos];
      var c1 := Advanced(src, c);
      var next := CharAt(src, c1.pos);
      if ch == '\\' && (next == '"' || next == '\\') then StringBody(src, Advanced(src, c1), value + [next])
      else StringBody(src, c1, value + [ch])
  }

  /** `string_literal` (Lexer.cpp:82-113), from the opening quote. */
  function QuotedString(src: string, c: Cursor): (l: Lexed)
    requires c.pos < |src|
    ensures c.pos < l.next.pos <= |src| && l.next.line == c.line
    ensures l.token.Some? && l.token.value.line == c.line && l.token.value.column == c.column
    ensures l.token.value.kind == EofToken <==> l.error.Some?
    ensures l.error.Some? ==> l.next.pos == |src| && l.error == Some(UnterminatedString(c.line, c.column))
  {
    var (r, value) := StringBody(src, Advanced(src, c), "");
    if r.pos >= |src| then
      Lexed(r, Some(Token(EofToken, "", r.line, c.column)), Some(UnterminatedString(r.line, c.column)))
    else
      Lexed(Advanced(src, r), Some(Token(StringLiteral, value, r.line, c.column)), None)
  }

  /** The comment loop of `tokenize` (Lexer.cpp:170-172): up to the newline, which stays. */
  function CommentEnd(src: string, c: Cursor): (r: Cursor)
    requires c.pos <= |src|
    ensures c.pos <= r.pos <= |src|
    ensures r.line == c.line && r.column == c.column + (r.pos - c.pos)
    ensures forall i :: c.pos <= i < r.pos ==> src[i] != '\n'
    ensures r.pos == |src| || src[r.pos] == '\n'
    decreases |src| - c.pos
  {
    if CharAt(src, c.pos) != '\n' && c.pos < |src| then CommentEnd(src, Advanced(src, c)) else c
  }

  /** A token that starts at the cursor. */
  function TokenAt(c: Cursor, kind: TokenType, text: string): Token {
    Token(kind, text, c.line, c.column)
  }

  /** `=`, `>`, `<` and `!` (Lexer.cpp:185-220): the two-character form when `=` follows. */
  function WithEquals(src: string, c: Cursor, single: TokenType, double: TokenType): (l: Lexed)
    requires c.pos < |src|
    ensures l.error.None? && l.token.Some?
    ensures l.token.value.line == c.line && l.token.value.column == c.column
    ensures l.next.line == c.line && l.next.pos <= |src|
    ensures l.next.pos == c.pos + |l.token.value.value|
    ensures l.token.value.value == src[c.pos..l.next.pos]
    ensures |l.token.value.value| == 2 <==> CharAt(src, c.pos + 1) == '='
    ensures l.token.value.kind == if |l.token.value.value| == 2 then double else single
  {
    var c1 := Advanced(src, c);
    if CharAt(src, c1.pos) == '=' then Lexed(Advanced(src, c1), Some(TokenAt(c, double, [src[c.pos], '='])), None)
    else Lexed(c1, Some(TokenAt(c, single, [src[c.pos]])), None)
  }

  /** `&&` and `||` (Lexer.cpp:221-238): a lone `&` or `|` is consumed and reported. */
  function Doubled(src: string, c: Cursor, kind: TokenType): (l: Lexed)
    requires c.pos < |src| && (src[c.pos] == '&' || src[c.pos] == '|')
    ensures l.token.Some? <==> c.pos + 1 < |src| && src[c.pos + 1] == src[c.pos]
    ensures l.token.Some? <==> l.error.None?
    ensures l.token.Some? ==> l.next.pos == c.pos + 2 && l.token.value.kind == kind
                              && l.token.value.value == src[c.pos..c.pos + 2]
                              && l.token.value.line == c.line && l.token.value.column == c.column
    ensures l.error.Some? ==> l.next.pos == c.pos + 1
                              && l.error.value == UnexpectedCharacter(src[c.pos], c.line, c.column)
  {
    var c1 := Advanced(src, c);
    if CharAt(src, c1.pos) == src[c.pos] then Lexed(Advanced(src, c1), Some(TokenAt(c, kind, [src[c.pos], src[c.pos]])), None)
    else Lexed(c1, None, Some(UnexpectedCharacter(src[c.pos], c1.line, c1.column - 1)))
  }

  /** One pass of the tokenize loop once the blanks are behind (Lexer.cpp:125-243). It always
      consumes at least one character and never changes the line; every token it makes
      starts where the cursor stood. */
  function Lexeme(src: string, c: Cursor): (l: Lexed)
    requires c.pos < |src|
    ensures c.pos < l.next.pos <= |src| && l.next.line == c.line
    ensures l.token.Some? ==> l.token.value.line == c.line && l.token.value.column == c.column
    ensures l.token.Some? && l.token.value.kind == EofToken ==>
              l.next.pos == |src| && l.error == Some(UnterminatedString(c.line, c.column))
  {
    var ch := src[c.pos];
    var c1 := Advanced(src, c);
    if Decimal.IsDigit(ch) then
      var (t, r) := NumberToken(src, c);
      Lexed(r, Some(t), None)
    else if IsAlpha(ch) then
      var (t, r) := WordToken(src, c);
      Lexed(r, Some(t), None)
    else match ch
      case '+' => Lexed(c1, Some(TokenAt(c, Plus, "+")), None)
      case '-' => Lexed(c1, Some(TokenAt(c, Minus, "-")), None)
      case '*' => Lexed(c1, Some(TokenAt(c, Star, "*")), None)
      case '/' =>
        if CharAt(src, c1.pos) == '/' then Lexed(CommentEnd(src, c1), None, None)
        else Lexed(c1, Some(TokenAt(c, Slash, "/")), None)
      case '(' => Lexed(c1, Some(TokenAt(c, LParen, "(")), None)
      case ')' => Lexed(c1, Some(TokenAt(c, RParen, ")")), None)
      case '{' => Lexed(c1, Some(TokenAt(c, LBrace, "{")), None)
      case '}' => Lexed(c1, Some(TokenAt(c, RBrace, "}")), None)
      case ';' => Lexed(c1, Some(TokenAt(c, Semicolon, ";")), None)
      case '"' => QuotedString(src, c)
      case '=' => WithEquals(src, c, Assign, EqualEqual)
      case '>' => WithEquals(src, c, Greater, GreaterEqual)
      case '<' => WithEquals(src, c, Less, LessEqual)
      case '!' => WithEquals(src, c, Bang, BangEqual)
      case '&' => Doubled(src, c, And)
      case '|' => Doubled(src, c, Or)
      case _ => Lexed(c1, None, Some(UnexpectedCharacter(ch, c.line, c.column)))
  }

  /** The tokenize loop (Lexer.cpp:120-244), appending to the tokens and errors so far; it
      stops at the end of the source. */
  function ScanFrom(src: string, c: Cursor, tokens: seq<Token>, errors: seq<LexError>)
    : (r: (seq<Token>, seq<LexError>, Cursor))
    requires c.pos <= |src|
    ensures r.2.pos == |src|
    ensures tokens <= r.0 && errors <= r.1
    decreases |src| - c.pos
  {
    if c.pos >= |src| then (tokens, errors, c)
    else
      var c1 := Blanks(src, c);
      if c1.pos >= |src| then (tokens, errors, c1)
      else
        var l := Lexeme(src, c1);
        ScanFrom(src, l.next, tokens + Listed(l.token), errors + Listed(l.error))
  }

  /** `tokenize` from a cursor, with the errors recorded so far (Lexer.cpp:117-258): the scan,
      then an end-of-file token where the scan stopped. */
  function TokenizeFrom(src: string, c: Cursor, errors: seq<LexError>): (r: (seq<Token>, seq<LexError>))
    requires c.pos <= |src|
    ensures |r.0| >= 1 && r.0[|r.0| - 1].kind == EofToken && r.0[|r.0| - 1].value == ""
    ensures errors <= r.1
  {
    var (tokens, errs, end) := ScanFrom(src, c, [], errors);
    (tokens + [Token(EofToken, "", end.line, end.column)], errs)
  }

  /** Skipping the blanks first changes nothing about the rest of the scan. */
  lemma ScanSkipsBlanks(src: string, c: Cursor, tokens: seq<Token>, errors: seq<LexError>)
    requires c.pos < |src|
    ensures ScanFrom(src, c, tokens, errors) == ScanFrom(src, Blanks(src, c), tokens, errors)
  {
    var c1 := Blanks(src, c);
    if c1.pos < |src| {
      assert Blanks(src, c1) == c1;
    }
  }

  /** One pass of the scan from a cursor that stands on a token's first character. */
  lemma ScanStep(src: string, c: Cursor, tokens: seq<Token>, errors: seq<LexError>)
    requires c.pos < |src| && !IsBlank(src[c.pos])
    ensures var l := Lexeme(src, c);
              ScanFrom(src, c, tokens, errors) == ScanFrom(src, l.next, tokens + Listed(l.token), errors + Listed(l.error))
  {
    assert Blanks(src, c) == c;
  }

  /** What a fresh lexer's `tokenize` returns, with the errors it records. */
  function Tokenize(src: string): (r: (seq<Token>, seq<LexError>))
    ensures |r.0| >= 1 && r.0[|r.0| - 1].kind == EofToken && r.0[|r.0| - 1].value == ""
    ensures src == [] ==> r == ([Token(EofToken, "", 1, 1)], [])
  {
    var r := TokenizeFrom(src, Start, []);
    assert src == [] ==> ScanFrom(src, Start, [], []) == ([], [], Start)
                         && r == ([] + [Token(EofToken, "", 1, 1)], []);
    assert [] + [Token(EofToken, "", 1, 1)] == [Token(EofToken, "", 1, 1)];
    r
  }

  /** The lexer object (Lexer.h): a position in the source, the line and column there, and
      the error messages recorded so far. */
  class Lexer {
    const source: string
    var pos: nat
    var line: int
    var column: int
    var errors: seq<LexError>

    function Here(): Cursor
      reads this
    {
      Cursor(pos, line, column)
    }

    predicate Valid()
      reads this
    {
      pos <= |source|
    }

    /** Lexer.cpp:5-6. */
    constructor (sourceCode: string)
      ensures Valid() && source == sourceCode && Here() == Start && errors == []
    {
      source := sourceCode;
      pos := 0;
      line := 1;
      column := 1;
      errors := [];
    }

    /** `isAtEnd` (Lexer.cpp:23-25). */
    predicate IsAtEnd()
      reads this
    {
      pos >= |source|
    }

    /** `peek` (Lexer.cpp:10-13). */
    function Peek(): char
      reads this
    {
      CharAt(source, pos)
    }

    /** `advance` (Lexer.cpp:15-21): returns the character it stepped over, NUL at the end. */
    method Advance() returns (ch: char)
      requires Valid()
      modifies this
      ensures Valid() && Here() == Advanced(source, old(Here())) && errors == old(errors)
      ensures ch == CharAt(source, old(pos))
    {
      if IsAtEnd() {
        return '\0';
      }
      ch := source[pos];
      pos := pos + 1;
      column := column + 1;
    }

    /** `skipWhitespace` (Lexer.cpp:41-54). */
    method SkipWhitespace()
      requires Valid()
      modifies this
      ensures Valid() && Here() == Blanks(source, old(Here())) && errors == old(errors)
    {
      while !IsAtEnd()
        invariant Valid() && Blanks(source, Here()) == Blanks(source, old(Here())) && errors == old(errors)
        decreases |source| - pos
      {
        var c := Peek();
        if c == ' ' || c == '\t' || c == '\r' {
          var _ := Advance();
        } else if c == '\n' {
          var _ := Advance();
          line := line + 1;
          column := 1;
        } else {
          break;
        }
      }
    }

    /** `number` (Lexer.cpp:56-75). */
    method Number() returns (token: Token)
      requires Valid()
      modifies this
      ensures Valid() && (token, Here()) == NumberToken(source, old(Here())) && errors == old(errors)
    {
      var startPos := pos;
      var startColumn := column;
      var hasDecimal := false;
      while Decimal.IsDigit(Peek()) || Peek() == '.'
        invariant Valid() && startPos <= pos && errors == old(errors)
        invariant NumberEnd(source, Here(), hasDecimal) == NumberEnd(source, old(Here()), false)
        decreases |source| - pos
      {
        if Peek() == '.' {
          if hasDecimal {
            break;
          }
          hasDecimal := true;
        }
        var _ := Advance();
      }
      var value := source[startPos..pos];
      if hasDecimal {
        token := Token(FloatLiteral, value, line, startColumn);
      } else {
        token := Token(IntLiteral, value, line, startColumn);
      }
    }

    /** The identifier branch of `tokenize` (Lexer.cpp:134-160). */
    method Word() returns (token: Token)
      requires Valid()
      modifies this
      ensures Valid() && (token, Here()) == WordToken(source, old(Here())) && errors == old(errors)
    {
      var startPos := pos;
      var startColumn := column;
      while IsAlphaNumeric(Peek())
        invariant Valid() && startPos <= pos && errors == old(errors)
        invariant WordEnd(source, Here()) == WordEnd(source, old(Here()))
        decreases |source| - pos
      {
        var _ := Advance();
      }
      var value := source[startPos..pos];
      token := Token(KeywordKind(value), value, line, startColumn);
    }

    /** `string_literal` (Lexer.cpp:82-113), called on the opening quote. */
    method StringLiteral() returns (token: Token)
      requires Valid() && pos < |source|
      modifies this
      ensures Valid()
      ensures var l := QuotedString(source, old(Here()));
                Here() == l.next && l.token == Some(token) && errors == old(errors) + Listed(l.error)
    {
      var startColumn := column;
      var _ := Advance();
      ghost var body := Here();
      var value := "";
      while Peek() != '"' && !IsAtEnd()
        invariant Valid() && errors == old(errors)
        invariant StringBody(source, Here(), value) == StringBody(source, body, "")
        decreases |source| - pos
      {
        var c := Advance();
        if c == '\\' {
          if Peek() == '"' {
            value := value + ['"'];
            var _ := Advance();
          } else if Peek() == '\\' {
            value := value + ['\\'];
            var _ := Advance();
          } else {
            value := value + [c];
          }
        } else {
          value := value + [c];
        }
      }
      if IsAtEnd() {
        errors := errors + [UnterminatedString(line, startColumn)];
        return Token(EofToken, "", line, startColumn);
      }
      var _ := Advance();
      token := Token(TokenType.StringLiteral, value, line, startColumn);
    }

    /** The comment loop of `tokenize` (Lexer.cpp:170-172). */
    method SkipComment()
      requires Valid()
      modifies this
      ensures Valid() && Here() == CommentEnd(source, old(Here())) && errors == old(errors)
    {
      while Peek() != '\n' && !IsAtEnd()
        invariant Valid() && errors == old(errors)
        invariant CommentEnd(source, Here()) == CommentEnd(source, old(Here()))
        decreases |source| - pos
      {
        var _ := Advance();
      }
    }

    /** `=`, `>`, `<`, `!` (Lexer.cpp:185-220). */
    method OneOrTwo(single: TokenType, double: TokenType) returns (token: Token)
      requires Valid() && pos < |source|
      modifies this
      ensures Valid()
      ensures var l := WithEquals(source, old(Here()), single, double);
                Here() == l.next && l.token == Some(token) && errors == old(errors)
    {
      ghost var l := WithEquals(source, Here(), single, double);
      var startColumn := column;
      var first := Advance();
      assert first == old(source[pos]);
      if Peek() == '=' {
        var _ := Advance();
        token := Token(double, [first, '='], line, startColumn);
      } else {
        token := Token(single, [first], line, startColumn);
      }
    }

    /** `&&` and `||` (Lexer.cpp:221-238). */
    method Pair(kind: TokenType) returns (token: Option<Token>)
      requires Valid() && pos < |source| && (source[pos] == '&' || source[pos] == '|')
      modifies this
      ensures Valid()
      ensures var l := Doubled(source, old(Here()), kind);
                Here() == l.next && l.token == token && errors == old(errors) + Listed(l.error)
    {
      var startColumn := column;
      var first := Advance();
      if Peek() == first {
        var _ := Advance();
        token := Some(Token(kind, [first, first], line, startColumn));
      } else {
        errors := errors + [UnexpectedCharacter(first, line, column - 1)];
        token := None;
      }
    }

    /** One pass of the tokenize loop after the blanks (Lexer.cpp:125-243). */
    method LexOne() returns (token: Option<Token>)
      requires Valid() && pos < |source|
      modifies this
      ensures Valid()
      ensures var l := Lexeme(source, old(Here()));
                Here() == l.next && token == l.token && errors == old(errors) + Listed(l.error)
    {
      var c := Peek();
      var tokenStartColumn := column;
      if Decimal.IsDigit(c) {
        var t := Number();
        return Some(t);
      }
      if IsAlpha(c) {
        var t := Word();
        return Some(t);
      }
      match c
      case '+' =>
        token := Some(Token(Plus, "+", line, tokenStartColumn));
        var _ := Advance();
      case '-' =>
        token := Some(Token(Minus, "-", line, tokenStartColumn));
        var _ := Advance();
      case '*' =>
        token := Some(Token(Star, "*", line, tokenStartColumn));
        var _ := Advance();
      case '/' =>
        var _ := Advance();
        if Peek() == '/' {
          SkipComment();
          token := None;
        } else {
          token := Some(Token(Slash, "/", line, tokenStartColumn));
        }
      case '(' =>
        token := Some(Token(LParen, "(", line, tokenStartColumn));
        var _ := Advance();
      case ')' =>
        token := Some(Token(RParen, ")", line, tokenStartColumn));
        var _ := Advance();
      case '{' =>
        token := Some(Token(LBrace, "{", line, tokenStartColumn));
        var _ := Advance();
      case '}' =>
        token := Some(Token(RBrace, "}", line, tokenStartColumn));
        var _ := Advance();
      case ';' =>
        token := Some(Token(Semicolon, ";", line, tokenStartColumn));
        var _ := Advance();
      case '"' =>
        var t := StringLiteral();
        token := Some(t);
      case '=' =>
        var t := OneOrTwo(Assign, EqualEqual);
        token := Some(t);
      case '>' =>
        var t := OneOrTwo(Greater, GreaterEqual);
        token := Some(t);
      case '<' =>
        var t := OneOrTwo(Less, LessEqual);
        token := Some(t);
      case '!' =>
        var t := OneOrTwo(Bang, BangEqual);
        token := Some(t);
      case '&' =>
        token := Pair(And);
      case '|' =>
        token := Pair(Or);
      case _ =>
        errors := errors + [UnexpectedCharacter(c, line, column)];
        token := None;
        var _ := Advance();
    }

    /** `tokenize` (Lexer.cpp:117-258). */
    method Tokenize() returns (tokens: seq<Token>)
      requires Valid()
      modifies this
      ensures Valid()
      ensures (tokens, errors) == TokenizeFrom(source, old(Here()), old(errors))
    {
      tokens := [];
      while !IsAtEnd()
        invariant Valid()
        invariant ScanFrom(source, Here(), tokens, errors) == ScanFrom(source, old(Here()), [], old(errors))
        decreases |source| - pos
      {
        ScanSkipsBlanks(source, Here(), tokens, errors);
        SkipWhitespace();
        if IsAtEnd() {
          break;
        }
        ghost var here := Here();
        ghost var before := tokens;
        ghost var l := Lexeme(source, here);
        ScanStep(source, here, tokens, errors);
        var token := LexOne();
        assert Here() == l.next && token == l.token;
        if token.Some? {
          tokens := tokens + [token.value];
        }
        assert tokens == before + Listed(l.token);
      }
      tokens := tokens + [Token(EofToken, "", line, column)];
    }
  }
}
