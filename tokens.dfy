/** Token kinds and the token record produced by the lexer (include/Tokens.h). */
module Tokens {
  import opened Options
  import Decimal

  datatype TokenType =
    | EofToken
    | IntLiteral | FloatLiteral | StringLiteral | True | False
    | Plus | Minus | Star | Slash
    | Greater | Less | GreaterEqual | LessEqual | EqualEqual | BangEqual | Bang | And | Or
    | LParen | RParen
    | Var | Print
    | Identifier
    | Assign
    | Semicolon
    | If | Else | LBrace | RBrace

  /** A token: its kind, its lexeme, and the line and column where it starts. The
      constructor (Tokens.h:69-70) stores the four fields unchanged. */
  datatype Token = Token(kind: TokenType, value: string, line: int, column: int)

  /** The name `toString` prints for each kind (Tokens.h:75-105). */
  function TypeName(k: TokenType): (s: string)
    ensures s != "" && s != "UNKNOWN"
  {
    match k
    case EofToken => "EOF_TOKEN"
    case IntLiteral => "INT_LITERAL"
    case FloatLiteral => "FLOAT_LITERAL"
    case StringLiteral => "STRING_LITERAL"
    case True => "TRUE"
    case False => "FALSE"
    case Plus => "PLUS"
    case Minus => "MINUS"
    case Star => "STAR"
    case Slash => "SLASH"
    case Greater => "GREATER"
    case Less => "LESS"
    case GreaterEqual => "GREATER_EQUAL"
    case LessEqual => "LESS_EQUAL"
    case EqualEqual => "EQUAL_EQUAL"
    case BangEqual => "BANG_EQUAL"
    case Bang => "BANG"
    case And => "AND"
    case Or => "OR"
    case LParen => "LPAREN"
    case RParen => "RPAREN"
    case Var => "VAR"
    case Print => "PRINT"
    case Identifier => "IDENTIFIER"
    case Assign => "ASSIGN"
    case Semicolon => "SEMICOLON"
    case If => "IF"
    case Else => "ELSE"
    case LBrace => "LBRACE"
    case RBrace => "RBRACE"
  }

  /** The kind whose name has the given length, first and last character, if any: no two
      names agree on all three. */
  function KindWithShape(n: int, first: char, last: char): Option<TokenType>
  {
    if n == 2 then
      if first == 'O' then Some(Or) else if first == 'I' then Some(If) else None
    else if n == 3 then
      if first == 'A' then Some(And) else if first == 'V' then Some(Var) else None
    else if n == 4 then
      if first == 'T' then Some(True) else if first == 'P' then Some(Plus)
      else if first == 'S' then Some(Star) else if first == 'L' then Some(Less)
      else if first == 'B' then Some(Bang) else if first == 'E' then Some(Else) else None
    else if n == 5 then
      if first == 'F' then Some(False) else if first == 'M' then Some(Minus)
      else if first == 'S' then Some(Slash) else if first == 'P' then Some(Print) else None
    else if n == 6 then
      if first == 'L' then (if last == 'N' then Some(LParen) else Some(LBrace))
      else if first == 'R' then (if last == 'N' then Some(RParen) else Some(RBrace))
      else if first == 'A' then Some(Assign) else None
    else if n == 7 then
      if first == 'G' then Some(Greater) else None
    else if n == 9 then
      if first == 'E' then Some(EofToken) else if first == 'S' then Some(Semicolon) else None
    else if n == 10 then
      if first == 'L' then Some(LessEqual) else if first == 'B' then Some(BangEqual)
      else if first == 'I' then Some(Identifier) else None
    else if n == 11 then
      if first == 'I' then Some(IntLiteral) else if first == 'E' then Some(EqualEqual) else None
    else if n == 13 then
      if first == 'F' then Some(FloatLiteral) else if first == 'G' then Some(GreaterEqual) else None
    else if n == 14 then
      if first == 'S' then Some(StringLiteral) else None
    else None
  }

  /** The kind a printed name stands for: the inverse of TypeName. */
  function TypeNamed(s: string): (r: Option<TokenType>)
    ensures r.Some? ==> TypeName(r.value) == s
  {
    if s == [] then None
    else
      match KindWithShape(|s|, s[0], s[|s| - 1])
      case Some(k) => if TypeName(k) == s then Some(k) else None
      case None => None
  }

  /** Every kind's name reads back as that kind, and no kind falls to the "UNKNOWN" default
      arm of the switch (Tokens.h:107): every enumerator has its own case. */
  lemma TypeNameRoundTrip(k: TokenType)
    ensures TypeNamed(TypeName(k)) == Some(k)
    ensures TypeName(k) != "UNKNOWN"
  {
    var n := TypeName(k);
    assert KindWithShape(|n|, n[0], n[|n| - 1]) == Some(k);
    assert |n| != 7 || n[0] != 'U';
  }

  /** The 30 names are pairwise distinct. */
  lemma TypeNameInjective(a: TokenType, b: TokenType)
    requires TypeName(a) == TypeName(b)
    ensures a == b
  {
    TypeNameRoundTrip(a);
    TypeNameRoundTrip(b);
  }

  /** `Token::toString`: `Token(NAME, "value", L<line>:C<col>)`, value inserted unescaped. */
  function ToString(t: Token): (r: string)
    ensures |r| > 6 + |TypeName(t.kind)| + |t.value|
    ensures r[..6] == "Token(" && r[|r| - 1] == ')'
  {
    "Token(" + TypeName(t.kind) + ", \"" + t.value + "\", L" + Decimal.IntToString(t.line)
      + ":C" + Decimal.IntToString(t.column) + ")"
  }

  /** Where the lexeme starts inside the rendering. */
  function ValueOffset(k: TokenType): nat
  {
    |"Token("| + |TypeName(k)| + |", \""|
  }

  /** The rendering starts with the kind's name and carries the lexeme verbatim (not
      escaped) right after `, "`, followed by `", L`. */
  lemma ToStringLayout(t: Token)
    ensures var r := ToString(t); var k := ValueOffset(t.kind);
      && k + |t.value| + 4 <= |r|
      && r[..6] == "Token("
      && r[6..6 + |TypeName(t.kind)|] == TypeName(t.kind)
      && r[6 + |TypeName(t.kind)|] == ','
      && r[k..k + |t.value|] == t.value
      && r[k + |t.value|..k + |t.value| + 4] == "\", L"
  {
    var tail := Decimal.IntToString(t.line) + ":C" + Decimal.IntToString(t.column) + ")";
    assert ToString(t) == "Token(" + TypeName(t.kind) + ", \"" + t.value + "\", L" + tail;
    FieldLayout(TypeName(t.kind), t.value, tail);
  }

  /** Where the pieces of a rendering sit, whatever the name, lexeme and position text. */
  lemma FieldLayout(name: string, value: string, tail: string)
    ensures var r := "Token(" + name + ", \"" + value + "\", L" + tail;
      var k := 6 + |name| + 3;
      && k + |value| + 4 <= |r|
      && r[..6] == "Token("
      && r[6..6 + |name|] == name
      && r[6 + |name|] == ','
      && r[k..k + |value|] == value
      && r[k + |value|..k + |value| + 4] == "\", L"
  {
  }

  /** Two tokens of different kinds never render alike. */
  lemma ToStringDistinguishesKinds(a: Token, b: Token)
    requires ToString(a) == ToString(b)
    ensures a.kind == b.kind
  {
    ToStringLayout(a);
    ToStringLayout(b);
    NameHasNoComma(a.kind);
    NameHasNoComma(b.kind);
    FieldEndsAtComma(ToString(a), TypeName(a.kind), TypeName(b.kind));
    TypeNameInjective(a.kind, b.kind);
  }

  /** Two comma-free fields starting at offset 6 of one string and each followed there by a
      ',' are the same field. */
  lemma FieldEndsAtComma(r: string, x: string, y: string)
    requires 6 + |x| < |r| && 6 + |y| < |r|
    requires r[6..6 + |x|] == x && r[6 + |x|] == ','
    requires r[6..6 + |y|] == y && r[6 + |y|] == ','
    requires ',' !in x && ',' !in y
    ensures x == y
  {
    CommaWithin(r, x, y);
    CommaWithin(r, y, x);
  }

  /** A field starting at offset 6 that is longer than one ending there at a ',' holds
      that ','. */
  lemma CommaWithin(r: string, x: string, y: string)
    requires 6 + |x| < |r| && 6 + |y| <= |r|
    requires r[6 + |x|] == ',' && r[6..6 + |y|] == y
    ensures |x| < |y| ==> ',' in y
  {
    if |x| < |y| {
      assert y[|x|] == r[6 + |x|];
    }
  }

  lemma NameHasNoComma(k: TokenType)
    ensures ',' !in TypeName(k)
  {
    match k
    case EofToken => case IntLiteral => case FloatLiteral => case StringLiteral =>
    case True => case False => case Plus => case Minus => case Star => case Slash =>
    case Greater => case Less => case GreaterEqual => case LessEqual => case EqualEqual =>
    case BangEqual => case Bang => case And => case Or => case LParen => case RParen =>
    case Var => case Print => case Identifier => case Assign => case Semicolon =>
    case If => case Else => case LBrace => case RBrace =>
  }
}
