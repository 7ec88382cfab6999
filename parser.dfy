/** The recursive-descent parser (src/Parser.h, src/Parser.cpp): tokens in, a syntax tree out,
    or nothing when a statement cannot be parsed.

    Each grammar function becomes a pure function from the token list and a position to the
    node it builds (if any) and the position it stops at; the class `Parser` does the same
    work by moving its position field, and each of its methods is proved to end where its
    function says. */
module Syntax {
  import opened Options
  import opened Tokens
  import A = Ast

  /** A node, or null, and the position after it. */
  datatype Parsed<T> = Parsed(node: Option<T>, pos: nat)

  /** What `peek` returns past the last token (Parser.cpp:7-9). */
  const EndToken := Token(EofToken, "", 0, 0)

  /** `peek` (Parser.cpp:6-11). */
  function PeekAt(ts: seq<Token>, p: nat): (t: Token)
    ensures p < |ts| ==> t == ts[p]
    ensures p >= |ts| ==> t == EndToken
  {
    if p < |ts| then ts[p] else EndToken
  }

  /** `consume` (Parser.cpp:33-41): the token and one step on when it has the expected kind;
      otherwise an end-of-file token at the current token's line and column, and no step. */
  function ConsumeAt(ts: seq<Token>, p: nat, kind: TokenType): (r: (Token, nat))
    requires p <= |ts| && kind != EofToken
    ensures p <= r.1 <= |ts|
    ensures PeekAt(ts, p).kind == kind <==> r.1 == p + 1
  {
    var t := PeekAt(ts, p);
    if t.kind == kind then (t, p + 1) else (Token(EofToken, "", t.line, t.column), p)
  }

  /** The binary precedence levels, tightest first: `factor` (1), `term` (2), `comparison`
      (3), `logical_and` (4), `logical_or` (5); 0 for a kind that is no binary operator
      (Parser.cpp:110, 127, 144-146, 163, 180). */
  function LevelOf(k: TokenType): nat {
    match k
    case Star | Slash => 1
    case Plus | Minus => 2
    case Greater | Less | GreaterEqual | LessEqual | EqualEqual | BangEqual => 3
    case And => 4
    case Or => 5
    case _ => 0
  }

  const LoosestLevel: nat := 5

  // ----- Expressions -----

  /** `parseIdentifier` (Parser.cpp:47-51). */
  function IdentifierAt(ts: seq<Token>, p: nat): (r: Parsed<A.Expr>)
    requires p <= |ts|
    ensures r.node.Some? <==> PeekAt(ts, p).kind == Identifier
    ensures r.node.Some? ==> r == Parsed(Some(A.Ident(ts[p])), p + 1)
  {
    var t := ConsumeAt(ts, p, Identifier).0;
    if t.kind == EofToken then Parsed(None, p) else Parsed(Some(A.Ident(t)), p + 1)
  }

  /** `primary` (Parser.cpp:57-82). */
  function PrimaryAt(ts: seq<Token>, p: nat): (r: Parsed<A.Expr>)
    requires p <= |ts|
    ensures p <= r.pos <= |ts|
    ensures r.node.Some? ==> r.pos > p
    decreases |ts| - p, 2
  {
    var t := PeekAt(ts, p);
    if t.kind == IntLiteral || t.kind == FloatLiteral || t.kind == StringLiteral then
      Parsed(Some(A.Literal(t)), p + 1)
    else if t.kind == True || t.kind == False then Parsed(Some(A.BoolLiteral(t)), p + 1)
    else if t.kind == Identifier then Parsed(Some(A.Ident(t)), p + 1)
    else ParenthesisedAt(ts, p)
  }

  /** The last alternative of `primary` (Parser.cpp:70-81): a parenthesised expression, or
      null. */
  function ParenthesisedAt(ts: seq<Token>, p: nat): (r: Parsed<A.Expr>)
    requires p <= |ts|
    ensures p <= r.pos <= |ts|
    ensures r.node.Some? ==> r.pos > p
    decreases |ts| - p, 1
  {
    if PeekAt(ts, p).kind == LParen then GroupAt(ts, p + 1) else Parsed(None, p)
  }

  /** A parenthesised expression after its `(` (Parser.cpp:71-78): null without the `)`. */
  function GroupAt(ts: seq<Token>, p: nat): (r: Parsed<A.Expr>)
    requires p <= |ts|
    ensures p <= r.pos <= |ts|
    ensures r.node.Some? ==> r.pos > p
    decreases |ts| - p + 1, 0
  {
    var inner := ExpressionAt(ts, p);
    if PeekAt(ts, inner.pos).kind == RParen then Parsed(inner.node, inner.pos + 1)
    else Parsed(None, inner.pos)
  }

  /** `unary` (Parser.cpp:93-101): prefix `!` and `-`, nesting to the right. */
  function UnaryAt(ts: seq<Token>, p: nat): (r: Parsed<A.Expr>)
    requires p <= |ts|
    ensures p <= r.pos <= |ts|
    ensures r.node.Some? ==> r.pos > p
    decreases |ts| - p, 3
  {
    var t := PeekAt(ts, p);
    if t.kind == Bang || t.kind == Minus then
      var right := UnaryAt(ts, p + 1);
      if right.node.None? then Parsed(None, right.pos)
      else Parsed(Some(A.Unary(t, right.node.value)), right.pos)
    else PrimaryAt(ts, p)
  }

  /** The binary level `level` (`factor` … `logical_or`, Parser.cpp:107-188), with level 0
      standing for `unary`: an operand of the next tighter level, then the loop. */
  function LevelAt(ts: seq<Token>, p: nat, level: nat): (r: Parsed<A.Expr>)
    requires p <= |ts| && level <= LoosestLevel
    ensures p <= r.pos <= |ts|
    ensures r.node.Some? ==> r.pos > p
    decreases |ts| - p, 2 * level + 4
  {
    if level == 0 then UnaryAt(ts, p)
    else
      var left := LevelAt(ts, p, level - 1);
      LoopAt(ts, left.pos, level, left.node)
  }

  /** The `while (match(op) ...)` loop of a binary level: each operator of the level and
      its right operand extend the tree to the left, and a null operand makes the whole
      level null. */
  function LoopAt(ts: seq<Token>, p: nat, level: nat, acc: Option<A.Expr>): (r: Parsed<A.Expr>)
    requires p <= |ts| && 1 <= level <= LoosestLevel
    ensures p <= r.pos <= |ts|
    ensures r.node.Some? ==> acc.Some?
    decreases |ts| - p, 2 * level + 3
  {
    var t := PeekAt(ts, p);
    if LevelOf(t.kind) == level then
      var right := LevelAt(ts, p + 1, level - 1);
      if acc.None? || right.node.None? then Parsed(None, right.pos)
      else LoopAt(ts, right.pos, level, Some(A.Binary(acc.value, t, right.node.value)))
    else Parsed(acc, p)
  }

  /** `assignment` (Parser.cpp:194-211): right-associative, and only onto an identifier. */
  function AssignmentAt(ts: seq<Token>, p: nat): (r: Parsed<A.Expr>)
    requires p <= |ts|
    ensures p <= r.pos <= |ts|
    ensures r.node.Some? ==> r.pos > p
    decreases |ts| - p, 2 * LoosestLevel + 5
  {
    var left := LevelAt(ts, p, LoosestLevel);
    if PeekAt(ts, left.pos).kind == Assign then
      if left.node.Some? && left.node.value.Ident? then
        var value := AssignmentAt(ts, left.pos + 1);
        if value.node.None? then Parsed(None, value.pos)
        else Parsed(Some(A.Assignment(left.node.value.name, value.node.value)), value.pos)
      else Parsed(None, left.pos + 1)
    else left
  }

  /** `expression` (Parser.cpp:217-219). */
  function ExpressionAt(ts: seq<Token>, p: nat): (r: Parsed<A.Expr>)
    requires p <= |ts|
    ensures p <= r.pos <= |ts|
    ensures r.node.Some? ==> r.pos > p
    decreases |ts| - p, 2 * LoosestLevel + 6
  {
    AssignmentAt(ts, p)
  }

  // ----- Statements -----

  /** `parseVariableDeclaration` (Parser.cpp:226-241): the closing `;` is consumed when
      present but its absence does not stop the declaration from being built. */
  function VarDeclAt(ts: seq<Token>, p: nat): (r: Parsed<A.Stmt>)
    requires p <= |ts|
    ensures p <= r.pos <= |ts|
    ensures r.node.Some? ==> r.pos > p && r.node.value.VarDecl?
    decreases |ts| - p, 2 * LoosestLevel + 7
  {
    var p1 := ConsumeAt(ts, p, Var).1;
    var name := ConsumeAt(ts, p1, Identifier).0;
    var p2 := ConsumeAt(ts, p1, Identifier).1;
    if name.kind == EofToken then Parsed(None, p2)
    else
      var init := InitializerAt(ts, p2);
      if init.node.None? then Parsed(None, init.pos)
      else Parsed(Some(A.VarDecl(name, init.node.value)), ConsumeAt(ts, init.pos, Semicolon).1)
  }

  /** The optional `= expression` of a variable declaration (Parser.cpp:231-235); the outer
      option is null when the expression fails. */
  function InitializerAt(ts: seq<Token>, p: nat): (r: Parsed<Option<A.Expr>>)
    requires p <= |ts|
    ensures p <= r.pos <= |ts|
  {
    if PeekAt(ts, p).kind == Assign then
      var init := ExpressionAt(ts, p + 1);
      if init.node.None? then Parsed(None, init.pos) else Parsed(Some(init.node), init.pos)
    else Parsed(Some(None), p)
  }

  /** `parsePrintStatement` (Parser.cpp:298-306): the `)` and `;` are consumed when present
      but not required. */
  function PrintAt(ts: seq<Token>, p: nat): (r: Parsed<A.Stmt>)
    requires p <= |ts|
    ensures p <= r.pos <= |ts|
    ensures r.node.Some? ==> r.pos > p && r.node.value.Print?
    decreases |ts| - p, 2 * LoosestLevel + 7
  {
    var p1 := ConsumeAt(ts, p, Print).1;
    var p2 := ConsumeAt(ts, p1, LParen).1;
    var e := ExpressionAt(ts, p2);
    if e.node.None? then Parsed(None, e.pos)
    else
      var p3 := ConsumeAt(ts, e.pos, RParen).1;
      Parsed(Some(A.Print(e.node.value)), ConsumeAt(ts, p3, Semicolon).1)
  }

  /** `parseIfStatement` (Parser.cpp:269-291): the condition, then the branches. */
  function IfAt(ts: seq<Token>, p: nat): (r: Parsed<A.Stmt>)
    requires p <= |ts|
    ensures p <= r.pos <= |ts|
    ensures r.node.Some? ==> r.pos > p && r.node.value.If?
    decreases |ts| - p, 2 * LoosestLevel + 7
  {
    var p1 := ConsumeAt(ts, p, If).1;
    var p2 := ConsumeAt(ts, p1, LParen).1;
    var cond := ExpressionAt(ts, p2);
    if cond.node.None? then Parsed(None, cond.pos)
    else BranchesAt(ts, ConsumeAt(ts, cond.pos, RParen).1, cond.node.value)
  }

  /** The branches of an if statement (Parser.cpp:276-290): the then-branch is a block. */
  function BranchesAt(ts: seq<Token>, p: nat, cond: A.Expr): (r: Parsed<A.Stmt>)
    requires p <= |ts|
    ensures p <= r.pos <= |ts|
    ensures r.node.Some? ==> r.node.value.If? && r.node.value.cond == cond
    decreases |ts| - p, 2 * LoosestLevel + 11
  {
    var thenBranch := BlockAt(ts, p);
    if thenBranch.node.None? then Parsed(None, thenBranch.pos)
    else
      var elseClause := ElseAt(ts, thenBranch.pos);
      if elseClause.node.None? then Parsed(None, elseClause.pos)
      else Parsed(Some(A.If(cond, thenBranch.node.value, elseClause.node.value)), elseClause.pos)
  }

  /** The optional else clause of an if statement (Parser.cpp:279-287): none without `else`;
      after `else`, another if statement when `if` follows (an `else if`), a block otherwise.
      The outer option is null on failure. */
  function ElseAt(ts: seq<Token>, p: nat): (r: Parsed<Option<A.Stmt>>)
    requires p <= |ts|
    ensures p <= r.pos <= |ts|
    ensures r.node.Some? && r.node.value.Some? ==> r.node.value.value.If? || r.node.value.value.Block?
    decreases |ts| - p, 0
  {
    if PeekAt(ts, p).kind == Else then
      var branch := if PeekAt(ts, p + 1).kind == If then IfAt(ts, p + 1) else BlockAt(ts, p + 1);
      if branch.node.None? then Parsed(None, branch.pos) else Parsed(Some(branch.node), branch.pos)
    else Parsed(Some(None), p)
  }

  /** `parseStatement` (Parser.cpp:312-325): chosen by the first token; anything else is an
      expression statement, whose `;` is consumed when present but not required. */
  function StatementAt(ts: seq<Token>, p: nat): (r: Parsed<A.Stmt>)
    requires p <= |ts|
    ensures p <= r.pos <= |ts|
    ensures r.node.Some? ==> r.pos > p && !r.node.value.Block?
    decreases |ts| - p, 2 * LoosestLevel + 8
  {
    var k := PeekAt(ts, p).kind;
    if k == Var then VarDeclAt(ts, p)
    else if k == If then IfAt(ts, p)
    else if k == Print then PrintAt(ts, p)
    else
      var e := ExpressionAt(ts, p);
      if e.node.None? then Parsed(None, e.pos)
      else Parsed(Some(A.ExprStmt(e.node.value)), ConsumeAt(ts, e.pos, Semicolon).1)
  }

  /** The statement loop of `block` (Parser.cpp:250-261), after the statements so far. */
  function BlockLoopAt(ts: seq<Token>, p: nat, stmts: seq<A.Stmt>): (r: Parsed<A.Stmt>)
    requires p <= |ts|
    ensures p <= r.pos <= |ts|
    ensures r.node.Some? ==> r.node.value.Block?
    decreases |ts| - p, 2 * LoosestLevel + 9
  {
    var k := PeekAt(ts, p).kind;
    if k != RBrace && k != EofToken then
      var s := StatementAt(ts, p);
      if s.node.None? then Parsed(None, s.pos)
      else BlockLoopAt(ts, s.pos, stmts + [s.node.value])
    else Parsed(Some(A.Block(stmts)), ConsumeAt(ts, p, RBrace).1)
  }

  /** `block` (Parser.cpp:247-262): the braces are consumed when present but not required. */
  function BlockAt(ts: seq<Token>, p: nat): (r: Parsed<A.Stmt>)
    requires p <= |ts|
    ensures p <= r.pos <= |ts|
    ensures r.node.Some? ==> r.node.value.Block?
    decreases |ts| - p, 2 * LoosestLevel + 10
  {
    BlockLoopAt(ts, ConsumeAt(ts, p, LBrace).1, [])
  }

  /** The statement loop of `parse` (Parser.cpp:337-346), after the statements so far: up to
      an end-of-file token, and null as soon as one statement fails. */
  function StatementsAt(ts: seq<Token>, p: nat, stmts: seq<A.Stmt>): (r: Option<seq<A.Stmt>>)
    requires p <= |ts|
    ensures r.Some? ==> |stmts| <= |r.value| && r.value[..|stmts|] == stmts
    ensures r.Some? ==> (|r.value| == |stmts| <==> PeekAt(ts, p).kind == EofToken)
    ensures r.Some? && |stmts| < |r.value| ==> !r.value[|stmts|].Block?
    decreases |ts| - p
  {
    if PeekAt(ts, p).kind != EofToken then
      var s := StatementAt(ts, p);
      if s.node.None? then None
      else
        var more := stmts + [s.node.value];
        assert more[..|stmts|] == stmts && !more[|stmts|].Block?;
        var rest := StatementsAt(ts, s.pos, more);
        assert rest.Some? ==> rest.value[|stmts|] == more[|stmts|] by {
          if rest.Some? { assert rest.value[..|more|][|stmts|] == rest.value[|stmts|]; }
        }
        rest
    else Some(stmts)
  }

  /** `parse` from a position (Parser.cpp:335-355): null for no statements or a failed one,
      the statement itself when there is one, a block of them otherwise. */
  function ParseFrom(ts: seq<Token>, p: nat): (r: Option<A.Stmt>)
    requires p <= |ts|
    ensures PeekAt(ts, p).kind == EofToken ==> r.None?
    ensures r.Some? && r.value.Block? ==> |r.value.stmts| >= 2
  {
    match StatementsAt(ts, p, [])
    case None => None
    case Some(ss) =>
      if |ss| == 0 then None else if |ss| == 1 then Some(ss[0]) else Some(A.Block(ss))
  }

  /** What a fresh parser's `parse` returns. */
  function ParseTokens(ts: seq<Token>): (r: Option<A.Stmt>)
    ensures (ts == [] || ts[0].kind == EofToken) ==> r.None?
    ensures r.Some? && r.value.Block? ==> |r.value.stmts| >= 2
  {
    ParseFrom(ts, 0)
  }

  /** The parser object (Parser.h): the token list and the current position. */
  class Parser {
    const tokens: seq<Token>
    var pos: nat

    /** Parser.cpp:4. */
    constructor (ts: seq<Token>)
      ensures tokens == ts && pos == 0 && Valid()
    {
      tokens := ts;
      pos := 0;
    }

    predicate Valid()
      reads this
    {
      pos <= |tokens|
    }

    /** `peek` (Parser.cpp:6-11). */
    function Peek(): Token
      reads this
    {
      PeekAt(tokens, pos)
    }

    /** `advance` (Parser.cpp:13-17): one step on, whatever the token. */
    method Advance() returns (t: Token)
      modifies this
      ensures pos == old(pos) + 1 && t == PeekAt(tokens, old(pos))
    {
      t := Peek();
      pos := pos + 1;
    }

    /** `match` (Parser.cpp:19-25): one step on exactly when the kind matches. */
    method Match(kind: TokenType) returns (matched: bool)
      requires Valid() && kind != EofToken
      modifies this
      ensures Valid() && matched == (PeekAt(tokens, old(pos)).kind == kind)
      ensures pos == if matched then old(pos) + 1 else old(pos)
    {
      if Peek().kind == kind {
        var _ := Advance();
        return true;
      }
      return false;
    }

    /** The `match(op1) || match(op2) || ...` guard of a binary level's loop. */
    method MatchLevel(level: nat) returns (matched: bool)
      requires Valid() && 1 <= level
      modifies this
      ensures Valid() && matched == (LevelOf(PeekAt(tokens, old(pos)).kind) == level)
      ensures pos == if matched then old(pos) + 1 else old(pos)
    {
      if LevelOf(Peek().kind) == level {
        var _ := Advance();
        return true;
      }
      return false;
    }

    /** `consume` (Parser.cpp:33-41); the error message goes to the error stream. */
    method Consume(kind: TokenType) returns (t: Token)
      requires Valid() && kind != EofToken
      modifies this
      ensures Valid() && (t, pos) == ConsumeAt(tokens, old(pos), kind)
    {
      if Peek().kind == kind {
        t := Advance();
        return;
      }
      t := Token(EofToken, "", Peek().line, Peek().column);
    }

    /** `parseIdentifier` (Parser.cpp:47-51). */
    method ParseIdentifier() returns (e: Option<A.Expr>)
      requires Valid()
      modifies this
      ensures Valid() && Parsed(e, pos) == IdentifierAt(tokens, old(pos))
    {
      var t := Consume(Identifier);
      if t.kind == EofToken {
        return None;
      }
      return Some(A.Ident(t));
    }

    /** `primary` (Parser.cpp:57-82). */
    method Primary() returns (e: Option<A.Expr>)
      requires Valid()
      modifies this
      ensures Valid() && Parsed(e, pos) == PrimaryAt(tokens, old(pos))
      decreases |tokens| - pos, 2
    {
      var m := Match(IntLiteral);
      if !m {
        m := Match(FloatLiteral);
      }
      if !m {
        m := Match(StringLiteral);
      }
      if m {
        return Some(A.Literal(tokens[pos - 1]));
      }
      m := Match(True);
      if !m {
        m := Match(False);
      }
      if m {
        return Some(A.BoolLiteral(tokens[pos - 1]));
      }
      m := Match(Identifier);
      if m {
        return Some(A.Ident(tokens[pos - 1]));
      }
      e := Parenthesised();
    }

    /** The last alternative of `primary` (Parser.cpp:70-81). */
    method Parenthesised() returns (e: Option<A.Expr>)
      requires Valid()
      modifies this
      ensures Valid() && Parsed(e, pos) == ParenthesisedAt(tokens, old(pos))
      decreases |tokens| - pos, 1
    {
      var m := Match(LParen);
      if m {
        e := Group();
        return;
      }
      return None;
    }

    /** The parenthesised expression of `primary` after its `(` (Parser.cpp:71-78). */
    method Group() returns (e: Option<A.Expr>)
      requires Valid()
      modifies this
      ensures Valid() && Parsed(e, pos) == GroupAt(tokens, old(pos))
      decreases |tokens| - pos + 1, 0
    {
      var inner := Expression();
      var m := Match(RParen);
      if m {
        return inner;
      }
      return None;
    }

    /** `unary` (Parser.cpp:93-101). */
    method Unary() returns (e: Option<A.Expr>)
      requires Valid()
      modifies this
      ensures Valid() && Parsed(e, pos) == UnaryAt(tokens, old(pos))
      decreases |tokens| - pos, 3
    {
      var m := Match(Bang);
      if !m {
        m := Match(Minus);
      }
      if m {
        var op := tokens[pos - 1];
        var right := Unary();
        if right.None? {
          return None;
        }
        return Some(A.Unary(op, right.value));
      }
      e := Primary();
    }

    /** `factor`, `term`, `comparison`, `logical_and` and `logical_or` (Parser.cpp:107-188),
        one level each; level 0 is `unary`. */
    method Level(level: nat) returns (e: Option<A.Expr>)
      requires Valid() && level <= LoosestLevel
      modifies this
      ensures Valid() && Parsed(e, pos) == LevelAt(tokens, old(pos), level)
      decreases |tokens| - pos, 2 * level + 4
    {
      if level == 0 {
        e := Unary();
        return;
      }
      e := Level(level - 1);
      while true
        invariant Valid() && old(pos) <= pos
        invariant LoopAt(tokens, pos, level, e) == LevelAt(tokens, old(pos), level)
        decreases |tokens| - pos
      {
        var matched := MatchLevel(level);
        if !matched {
          break;
        }
        var op := tokens[pos - 1];
        var right := Level(level - 1);
        if e.None? || right.None? {
          return None;
        }
        e := Some(A.Binary(e.value, op, right.value));
      }
    }

    /** `assignment` (Parser.cpp:194-211). */
    method Assignment() returns (e: Option<A.Expr>)
      requires Valid()
      modifies this
      ensures Valid() && Parsed(e, pos) == AssignmentAt(tokens, old(pos))
      decreases |tokens| - pos, 2 * LoosestLevel + 5
    {
      var expr := Level(LoosestLevel);
      var m := Match(Assign);
      if m {
        if expr.None? || !expr.value.Ident? {
          return None;
        }
        var value := Assignment();
        if value.None? {
          return None;
        }
        return Some(A.Assignment(expr.value.name, value.value));
      }
      return expr;
    }

    /** `expression` (Parser.cpp:217-219). */
    method Expression() returns (e: Option<A.Expr>)
      requires Valid()
      modifies this
      ensures Valid() && Parsed(e, pos) == ExpressionAt(tokens, old(pos))
      decreases |tokens| - pos, 2 * LoosestLevel + 6
    {
      e := Assignment();
    }

    /** `parseVariableDeclaration` (Parser.cpp:226-241). */
    method VariableDeclaration() returns (s: Option<A.Stmt>)
      requires Valid()
      modifies this
      ensures Valid() && Parsed(s, pos) == VarDeclAt(tokens, old(pos))
      decreases |tokens| - pos, 2 * LoosestLevel + 7
    {
      var _ := Consume(Var);
      var identifier := Consume(Identifier);
      if identifier.kind == EofToken {
        return None;
      }
      var initializer := Initializer();
      if initializer.None? {
        return None;
      }
      var _ := Consume(Semicolon);
      return Some(A.VarDecl(identifier, initializer.value));
    }

    /** The optional `= expression` of `parseVariableDeclaration` (Parser.cpp:231-235). */
    method Initializer() returns (init: Option<Option<A.Expr>>)
      requires Valid()
      modifies this
      ensures Valid() && Parsed(init, pos) == InitializerAt(tokens, old(pos))
    {
      var m := Match(Assign);
      if !m {
        return Some(None);
      }
      var e := Expression();
      if e.None? {
        return None;
      }
      return Some(e);
    }

    /** `block` (Parser.cpp:247-262). */
    method Block() returns (s: Option<A.Stmt>)
      requires Valid()
      modifies this
      ensures Valid() && Parsed(s, pos) == BlockAt(tokens, old(pos))
      decreases |tokens| - pos, 2 * LoosestLevel + 10
    {
      var _ := Consume(LBrace);
      var statements: seq<A.Stmt> := [];
      while Peek().kind != RBrace && Peek().kind != EofToken
        invariant Valid() && old(pos) <= pos
        invariant BlockLoopAt(tokens, pos, statements) == BlockAt(tokens, old(pos))
        decreases |tokens| - pos
      {
        var statement := Statement();
        if statement.None? {
          return None;
        }
        statements := statements + [statement.value];
      }
      var _ := Consume(RBrace);
      return Some(A.Block(statements));
    }

    /** `parseIfStatement` (Parser.cpp:269-291). */
    method IfStatement() returns (s: Option<A.Stmt>)
      requires Valid()
      modifies this
      ensures Valid() && Parsed(s, pos) == IfAt(tokens, old(pos))
      decreases |tokens| - pos, 2 * LoosestLevel + 7
    {
      var _ := Consume(If);
      var _ := Consume(LParen);
      var condition := Expression();
      if condition.None? {
        return None;
      }
      var _ := Consume(RParen);
      s := Branches(condition.value);
    }

    /** The branches of `parseIfStatement` (Parser.cpp:276-290). */
    method Branches(condition: A.Expr) returns (s: Option<A.Stmt>)
      requires Valid()
      modifies this
      ensures Valid() && Parsed(s, pos) == BranchesAt(tokens, old(pos), condition)
      decreases |tokens| - pos, 2 * LoosestLevel + 11
    {
      var thenBranch := Block();
      if thenBranch.None? {
        return None;
      }
      var elseBranch := ElseClause();
      if elseBranch.None? {
        return None;
      }
      return Some(A.If(condition, thenBranch.value, elseBranch.value));
    }

    /** The optional else clause of `parseIfStatement` (Parser.cpp:279-287). */
    method ElseClause() returns (s: Option<Option<A.Stmt>>)
      requires Valid()
      modifies this
      ensures Valid() && Parsed(s, pos) == ElseAt(tokens, old(pos))
      decreases |tokens| - pos, 0
    {
      var m := Match(Else);
      if !m {
        return Some(None);
      }
      var branch: Option<A.Stmt>;
      if Peek().kind == If {
        branch := IfStatement();
      } else {
        branch := Block();
      }
      if branch.None? {
        return None;
      }
      return Some(branch);
    }

    /** `parsePrintStatement` (Parser.cpp:298-306). */
    method PrintStatement() returns (s: Option<A.Stmt>)
      requires Valid()
      modifies this
      ensures Valid() && Parsed(s, pos) == PrintAt(tokens, old(pos))
      decreases |tokens| - pos, 2 * LoosestLevel + 7
    {
      var _ := Consume(Print);
      var _ := Consume(LParen);
      var expr := Expression();
      if expr.None? {
        return None;
      }
      var _ := Consume(RParen);
      var _ := Consume(Semicolon);
      return Some(A.Print(expr.value));
    }

    /** `parseStatement` (Parser.cpp:312-325). */
    method Statement() returns (s: Option<A.Stmt>)
      requires Valid()
      modifies this
      ensures Valid() && Parsed(s, pos) == StatementAt(tokens, old(pos))
      decreases |tokens| - pos, 2 * LoosestLevel + 8
    {
      if Peek().kind == Var {
        s := VariableDeclaration();
        return;
      } else if Peek().kind == If {
        s := IfStatement();
        return;
      } else if Peek().kind == Print {
        s := PrintStatement();
        return;
      }
      var expr := Expression();
      if expr.None? {
        return None;
      }
      var _ := Consume(Semicolon);
      return Some(A.ExprStmt(expr.value));
    }

    /** `parse` (Parser.cpp:335-355). */
    method Parse() returns (root: Option<A.Stmt>)
      requires Valid()
      modifies this
      ensures Valid() && root == ParseFrom(tokens, old(pos))
    {
      var statements: seq<A.Stmt> := [];
      while Peek().kind != EofToken
        invariant Valid()
        invariant StatementsAt(tokens, pos, statements) == StatementsAt(tokens, old(pos), [])
        decreases |tokens| - pos
      {
        var statement := Statement();
        if statement.None? {
          return None;
        }
        statements := statements + [statement.value];
      }
      if |statements| == 0 {
        return None;
      } else if |statements| == 1 {
        return Some(statements[0]);
      }
      return Some(A.Block(statements));
    }
  }
}
