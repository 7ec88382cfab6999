/** What the parser of src/Parser.cpp guarantees: the trees it builds have a fixed shape,
    every tree of that shape comes back from its fully parenthesised spelling, and the
    grammar's precedence and associativity are the ones its comments promise. */
module SyntaxFacts {
  import opened Options
  import opened Tokens
  import opened Syntax
  import A = Ast

  // ----- Token access -----

  /** `peek` past the last token gives the end-of-file token at line 0, column 0
      (Parser.cpp:7-9), and `consume` of an absent kind gives an end-of-file token at the
      current token's position without moving (Parser.cpp:38-40). */
  lemma ConsumeReportsMismatch(ts: seq<Token>, p: nat, kind: TokenType)
    requires p <= |ts| && kind != EofToken
    ensures PeekAt(ts, |ts|) == Token(EofToken, "", 0, 0)
    ensures PeekAt(ts, p).kind == kind ==> ConsumeAt(ts, p, kind) == (ts[p], p + 1)
    ensures PeekAt(ts, p).kind != kind ==>
              ConsumeAt(ts, p, kind) == (Token(EofToken, "", PeekAt(ts, p).line, PeekAt(ts, p).column), p)
  {
  }

  // ----- The shape of what the parser builds -----

  /** The expressions the parser can build: literals from literal tokens, identifiers from
      identifier tokens, `!` and `-` as the only unary operators, an identifier as the only
      assignment target, and binary operators from the five binary levels. */
  predicate WellFormed(e: A.Expr) {
    match e
    case Literal(t) => t.kind == IntLiteral || t.kind == FloatLiteral || t.kind == StringLiteral
    case BoolLiteral(t) => t.kind == True || t.kind == False
    case Ident(t) => t.kind == Identifier
    case Unary(op, r) => (op.kind == Bang || op.kind == Minus) && WellFormed(r)
    case Assignment(t, v) => t.kind == Identifier && WellFormed(v)
    case Binary(l, op, r) => 1 <= LevelOf(op.kind) && WellFormed(l) && WellFormed(r)
  }

  /** The statements the parser can build: every then-branch is a block, every else-branch a
      block or another if statement, every declared name an identifier, and every expression
      well formed. */
  predicate WellFormedStmt(s: A.Stmt) {
    match s
    case ExprStmt(e) => WellFormed(e)
    case VarDecl(name, init) => name.kind == Identifier && (init.Some? ==> WellFormed(init.value))
    case If(c, t, els) =>
      WellFormed(c) && t.Block? && WellFormedStmt(t) &&
      (els.Some? ==> (els.value.Block? || els.value.If?) && WellFormedStmt(els.value))
    case Block(ss) => forall i :: 0 <= i < |ss| ==> WellFormedStmt(ss[i])
    case Print(e) => WellFormed(e)
  }

  predicate AllWellFormed(ss: seq<A.Stmt>) {
    forall i :: 0 <= i < |ss| ==> WellFormedStmt(ss[i])
  }

  lemma {:induction false} PrimaryWellFormed(ts: seq<Token>, p: nat)
    requires p <= |ts|
    ensures PrimaryAt(ts, p).node.Some? ==> WellFormed(PrimaryAt(ts, p).node.value)
    decreases |ts| - p, 2
  {
    ParenthesisedWellFormed(ts, p);
  }

  lemma {:induction false} ParenthesisedWellFormed(ts: seq<Token>, p: nat)
    requires p <= |ts|
    ensures ParenthesisedAt(ts, p).node.Some? ==> WellFormed(ParenthesisedAt(ts, p).node.value)
    decreases |ts| - p, 1
  {
    if PeekAt(ts, p).kind == LParen {
      GroupWellFormed(ts, p + 1);
    }
  }

  lemma {:induction false} GroupWellFormed(ts: seq<Token>, p: nat)
    requires p <= |ts|
    ensures GroupAt(ts, p).node.Some? ==> WellFormed(GroupAt(ts, p).node.value)
    decreases |ts| - p + 1, 0
  {
    ExpressionWellFormed(ts, p);
  }

  lemma {:induction false} UnaryWellFormed(ts: seq<Token>, p: nat)
    requires p <= |ts|
    ensures UnaryAt(ts, p).node.Some? ==> WellFormed(UnaryAt(ts, p).node.value)
    decreases |ts| - p, 3
  {
    var t := PeekAt(ts, p);
    if t.kind == Bang || t.kind == Minus {
      UnaryWellFormed(ts, p + 1);
    } else {
      PrimaryWellFormed(ts, p);
    }
  }

  lemma {:induction false} LevelWellFormed(ts: seq<Token>, p: nat, level: nat)
    requires p <= |ts| && level <= LoosestLevel
    ensures LevelAt(ts, p, level).node.Some? ==> WellFormed(LevelAt(ts, p, level).node.value)
    decreases |ts| - p, 2 * level + 4
  {
    if level == 0 {
      UnaryWellFormed(ts, p);
    } else {
      var left := LevelAt(ts, p, level - 1);
      LevelWellFormed(ts, p, level - 1);
      LoopWellFormed(ts, left.pos, level, left.node);
    }
  }

  lemma {:induction false} LoopWellFormed(ts: seq<Token>, p: nat, level: nat, acc: Option<A.Expr>)
    requires p <= |ts| && 1 <= level <= LoosestLevel
    requires acc.Some? ==> WellFormed(acc.value)
    ensures LoopAt(ts, p, level, acc).node.Some? ==> WellFormed(LoopAt(ts, p, level, acc).node.value)
    decreases |ts| - p, 2 * level + 3
  {
    var t := PeekAt(ts, p);
    if LevelOf(t.kind) == level {
      var right := LevelAt(ts, p + 1, level - 1);
      LevelWellFormed(ts, p + 1, level - 1);
      if acc.Some? && right.node.Some? {
        LoopWellFormed(ts, right.pos, level, Some(A.Binary(acc.value, t, right.node.value)));
      }
    }
  }

  lemma {:induction false} AssignmentWellFormed(ts: seq<Token>, p: nat)
    requires p <= |ts|
    ensures AssignmentAt(ts, p).node.Some? ==> WellFormed(AssignmentAt(ts, p).node.value)
    decreases |ts| - p, 2 * LoosestLevel + 5
  {
    var left := LevelAt(ts, p, LoosestLevel);
    LevelWellFormed(ts, p, LoosestLevel);
    if PeekAt(ts, left.pos).kind == Assign {
      AssignmentWellFormed(ts, left.pos + 1);
    }
  }

  /** Every expression the parser builds is well formed (Parser.cpp:57-219). */
  lemma {:induction false} ExpressionWellFormed(ts: seq<Token>, p: nat)
    requires p <= |ts|
    ensures ExpressionAt(ts, p).node.Some? ==> WellFormed(ExpressionAt(ts, p).node.value)
    decreases |ts| - p, 2 * LoosestLevel + 6
  {
    AssignmentWellFormed(ts, p);
  }

  lemma InitializerWellFormed(ts: seq<Token>, p: nat)
    requires p <= |ts|
    ensures var r := InitializerAt(ts, p);
            r.node.Some? && r.node.value.Some? ==> WellFormed(r.node.value.value)
  {
    if PeekAt(ts, p).kind == Assign {
      ExpressionWellFormed(ts, p + 1);
    }
  }

  lemma {:induction false} StatementWellFormed(ts: seq<Token>, p: nat)
    requires p <= |ts|
    ensures StatementAt(ts, p).node.Some? ==> WellFormedStmt(StatementAt(ts, p).node.value)
    decreases |ts| - p, 2 * LoosestLevel + 8
  {
    var k := PeekAt(ts, p).kind;
    if k == Var {
      var p1 := ConsumeAt(ts, p, Var).1;
      InitializerWellFormed(ts, ConsumeAt(ts, p1, Identifier).1);
    } else if k == If {
      IfWellFormed(ts, p);
    } else if k == Print {
      ExpressionWellFormed(ts, ConsumeAt(ts, ConsumeAt(ts, p, Print).1, LParen).1);
    } else {
      ExpressionWellFormed(ts, p);
    }
  }

  lemma {:induction false} IfWellFormed(ts: seq<Token>, p: nat)
    requires p <= |ts|
    ensures IfAt(ts, p).node.Some? ==> WellFormedStmt(IfAt(ts, p).node.value)
    decreases |ts| - p, 2 * LoosestLevel + 7
  {
    var p2 := ConsumeAt(ts, ConsumeAt(ts, p, If).1, LParen).1;
    var cond := ExpressionAt(ts, p2);
    ExpressionWellFormed(ts, p2);
    if cond.node.Some? {
      BranchesWellFormed(ts, ConsumeAt(ts, cond.pos, RParen).1, cond.node.value);
    }
  }

  lemma {:induction false} BranchesWellFormed(ts: seq<Token>, p: nat, cond: A.Expr)
    requires p <= |ts| && WellFormed(cond)
    ensures BranchesAt(ts, p, cond).node.Some? ==> WellFormedStmt(BranchesAt(ts, p, cond).node.value)
    decreases |ts| - p, 2 * LoosestLevel + 11
  {
    var thenBranch := BlockAt(ts, p);
    BlockWellFormed(ts, p);
    if thenBranch.node.Some? {
      ElseWellFormed(ts, thenBranch.pos);
    }
  }

  lemma {:induction false} ElseWellFormed(ts: seq<Token>, p: nat)
    requires p <= |ts|
    ensures var r := ElseAt(ts, p);
            r.node.Some? && r.node.value.Some? ==> WellFormedStmt(r.node.value.value)
    decreases |ts| - p, 0
  {
    if PeekAt(ts, p).kind == Else {
      IfWellFormed(ts, p + 1);
      BlockWellFormed(ts, p + 1);
    }
  }

  lemma {:induction false} BlockLoopWellFormed(ts: seq<Token>, p: nat, stmts: seq<A.Stmt>)
    requires p <= |ts| && AllWellFormed(stmts)
    ensures BlockLoopAt(ts, p, stmts).node.Some? ==> WellFormedStmt(BlockLoopAt(ts, p, stmts).node.value)
    decreases |ts| - p, 2 * LoosestLevel + 9
  {
    var k := PeekAt(ts, p).kind;
    if k != RBrace && k != EofToken {
      var s := StatementAt(ts, p);
      StatementWellFormed(ts, p);
      if s.node.Some? {
        BlockLoopWellFormed(ts, s.pos, stmts + [s.node.value]);
      }
    }
  }

  lemma {:induction false} BlockWellFormed(ts: seq<Token>, p: nat)
    requires p <= |ts|
    ensures BlockAt(ts, p).node.Some? ==> WellFormedStmt(BlockAt(ts, p).node.value)
    decreases |ts| - p, 2 * LoosestLevel + 10
  {
    BlockLoopWellFormed(ts, ConsumeAt(ts, p, LBrace).1, []);
  }

  lemma {:induction false} StatementsWellFormed(ts: seq<Token>, p: nat, stmts: seq<A.Stmt>)
    requires p <= |ts| && AllWellFormed(stmts)
    ensures StatementsAt(ts, p, stmts).Some? ==> AllWellFormed(StatementsAt(ts, p, stmts).value)
    decreases |ts| - p
  {
    if PeekAt(ts, p).kind != EofToken {
      var s := StatementAt(ts, p);
      StatementWellFormed(ts, p);
      if s.node.Some? {
        StatementsWellFormed(ts, s.pos, stmts + [s.node.value]);
      }
    }
  }

  /** Whatever `parse` returns is well formed (Parser.cpp:335-355). */
  lemma ParsedTreesWellFormed(ts: seq<Token>, p: nat)
    requires p <= |ts|
    ensures ParseFrom(ts, p).Some? ==> WellFormedStmt(ParseFrom(ts, p).value)
  {
    StatementsWellFormed(ts, p, []);
  }

  // ----- Printing an expression back to tokens -----

  const OpenParen := Token(LParen, "(", 0, 0)
  const CloseParen := Token(RParen, ")", 0, 0)
  const Equals := Token(Assign, "=", 0, 0)

  /** The number of tokens in the fully parenthesised spelling of an expression. */
  function Width(e: A.Expr): (n: nat)
    ensures n >= 1
  {
    match e
    case Literal(_) => 1
    case BoolLiteral(_) => 1
    case Ident(_) => 1
    case Unary(_, right) => Width(right) + 3
    case Assignment(_, v) => Width(v) + 4
    case Binary(l, _, right) => Width(l) + Width(right) + 3
  }

  /** The fully parenthesised spelling of an expression: every operator application and
      every assignment inside its own pair of parentheses. */
  function Unparse(e: A.Expr): (r: seq<Token>)
    ensures |r| == Width(e)
  {
    match e
    case Literal(t) => [t]
    case BoolLiteral(t) => [t]
    case Ident(t) => [t]
    case Unary(op, right) => [OpenParen, op] + Unparse(right) + [CloseParen]
    case Assignment(t, v) => [OpenParen, t, Equals] + Unparse(v) + [CloseParen]
    case Binary(l, op, right) => [OpenParen] + Unparse(l) + [op] + Unparse(right) + [CloseParen]
  }

  /** The spelling of `e` sits at position `p`, stated token by token along the tree. */
  predicate SpelledAt(ts: seq<Token>, p: nat, e: A.Expr)
    decreases e
  {
    p + Width(e) <= |ts| &&
    match e
    case Literal(t) => ts[p] == t
    case BoolLiteral(t) => ts[p] == t
    case Ident(t) => ts[p] == t
    case Unary(op, right) =>
      ts[p] == OpenParen && ts[p + 1] == op && SpelledAt(ts, p + 2, right) &&
      ts[p + 2 + Width(right)] == CloseParen
    case Assignment(t, v) =>
      ts[p] == OpenParen && ts[p + 1] == t && ts[p + 2] == Equals && SpelledAt(ts, p + 3, v) &&
      ts[p + 3 + Width(v)] == CloseParen
    case Binary(l, op, right) =>
      ts[p] == OpenParen && SpelledAt(ts, p + 1, l) && ts[p + 1 + Width(l)] == op &&
      SpelledAt(ts, p + 1 + Width(l) + 1, right) &&
      ts[p + 1 + Width(l) + 1 + Width(right)] == CloseParen
  }

  /** The tokens from position `p` on begin with `u`. */
  predicate Spells(ts: seq<Token>, p: nat, u: seq<Token>)
    decreases u
  {
    p + |u| <= |ts| && (|u| == 0 || (ts[p] == u[0] && Spells(ts, p + 1, u[1..])))
  }

  /** Spelling a concatenation is spelling its two halves one after the other. */
  lemma {:induction false} SpellsAppend(ts: seq<Token>, p: nat, a: seq<Token>, b: seq<Token>)
    ensures Spells(ts, p, a + b) <==> Spells(ts, p, a) && Spells(ts, p + |a|, b)
    decreases a
  {
    if |a| == 0 {
      assert a + b == b;
    } else {
      assert (a + b)[1..] == a[1..] + b;
      SpellsAppend(ts, p + 1, a[1..], b);
    }
  }

  /** A sequence spells its own prefix. */
  lemma {:induction false} SpellsPrefix(ts: seq<Token>, p: nat, u: seq<Token>)
    requires p + |u| <= |ts| && forall i :: 0 <= i < |u| ==> ts[p + i] == u[i]
    ensures Spells(ts, p, u)
    decreases u
  {
    if |u| > 0 {
      assert ts[p + 0] == u[0];
      forall i | 0 <= i < |u[1..]|
        ensures ts[p + 1 + i] == u[1..][i]
      {
        assert ts[p + (i + 1)] == u[i + 1];
      }
      SpellsPrefix(ts, p + 1, u[1..]);
    }
  }

  lemma SpellsUnary(ts: seq<Token>, p: nat, op: Token, a: seq<Token>)
    requires Spells(ts, p, [OpenParen, op] + a + [CloseParen])
    ensures p + 2 + |a| + 1 <= |ts|
    ensures ts[p] == OpenParen && ts[p + 1] == op && ts[p + 2 + |a|] == CloseParen
    ensures Spells(ts, p + 2, a)
  {
    SpellsAppend(ts, p, [OpenParen, op] + a, [CloseParen]);
    SpellsAppend(ts, p, [OpenParen, op], a);
    assert [OpenParen, op][1..] == [op];
  }

  lemma SpellsAssignment(ts: seq<Token>, p: nat, t: Token, a: seq<Token>)
    requires Spells(ts, p, [OpenParen, t, Equals] + a + [CloseParen])
    ensures p + 3 + |a| + 1 <= |ts|
    ensures ts[p] == OpenParen && ts[p + 1] == t && ts[p + 2] == Equals
    ensures ts[p + 3 + |a|] == CloseParen && Spells(ts, p + 3, a)
  {
    SpellsAppend(ts, p, [OpenParen, t, Equals] + a, [CloseParen]);
    SpellsAppend(ts, p, [OpenParen, t, Equals], a);
    SpellsAppend(ts, p, [OpenParen], [t, Equals]);
    SpellsAppend(ts, p + 1, [t], [Equals]);
    assert [OpenParen, t, Equals] == [OpenParen] + [t, Equals];
    assert [t, Equals] == [t] + [Equals];
  }

  lemma SpellsBinary(ts: seq<Token>, p: nat, a: seq<Token>, op: Token, b: seq<Token>)
    requires Spells(ts, p, [OpenParen] + a + [op] + b + [CloseParen])
    ensures p + 1 + |a| + 1 + |b| + 1 <= |ts|
    ensures ts[p] == OpenParen && ts[p + 1 + |a|] == op && ts[p + 1 + |a| + 1 + |b|] == CloseParen
    ensures Spells(ts, p + 1, a) && Spells(ts, p + 1 + |a| + 1, b)
  {
    SpellsAppend(ts, p, [OpenParen] + a + [op] + b, [CloseParen]);
    SpellsAppend(ts, p, [OpenParen] + a + [op], b);
    SpellsAppend(ts, p, [OpenParen] + a, [op]);
    SpellsAppend(ts, p, [OpenParen], a);
  }

  /** Tokens that begin with the spelling of `e` hold it token by token along the tree. */
  lemma {:induction false} SpelledFromSpells(ts: seq<Token>, p: nat, e: A.Expr)
    ensures Spells(ts, p, Unparse(e)) ==> SpelledAt(ts, p, e)
    decreases e, 1
  {
    match e
    case Literal(t) =>
    case BoolLiteral(t) =>
    case Ident(t) =>
    case Unary(op, right) => SpelledUnary(ts, p, op, right);
    case Assignment(t, v) => SpelledAssignment(ts, p, t, v);
    case Binary(l, op, right) => SpelledBinary(ts, p, l, op, right);
  }

  lemma {:induction false} SpelledUnary(ts: seq<Token>, p: nat, op: Token, right: A.Expr)
    ensures Spells(ts, p, [OpenParen, op] + Unparse(right) + [CloseParen]) ==>
            SpelledAt(ts, p, A.Unary(op, right))
    decreases A.Unary(op, right), 0
  {
    if Spells(ts, p, [OpenParen, op] + Unparse(right) + [CloseParen]) {
      SpellsUnary(ts, p, op, Unparse(right));
      SpelledFromSpells(ts, p + 2, right);
    }
  }

  lemma {:induction false} SpelledAssignment(ts: seq<Token>, p: nat, t: Token, v: A.Expr)
    ensures Spells(ts, p, [OpenParen, t, Equals] + Unparse(v) + [CloseParen]) ==>
            SpelledAt(ts, p, A.Assignment(t, v))
    decreases A.Assignment(t, v), 0
  {
    if Spells(ts, p, [OpenParen, t, Equals] + Unparse(v) + [CloseParen]) {
      SpellsAssignment(ts, p, t, Unparse(v));
      SpelledFromSpells(ts, p + 3, v);
    }
  }

  lemma {:induction false} SpelledBinary(ts: seq<Token>, p: nat, l: A.Expr, op: Token, right: A.Expr)
    ensures Spells(ts, p, [OpenParen] + Unparse(l) + [op] + Unparse(right) + [CloseParen]) ==>
            SpelledAt(ts, p, A.Binary(l, op, right))
    decreases A.Binary(l, op, right), 0
  {
    if Spells(ts, p, [OpenParen] + Unparse(l) + [op] + Unparse(right) + [CloseParen]) {
      SpellsBinary(ts, p, Unparse(l), op, Unparse(right));
      SpelledFromSpells(ts, p + 1, l);
      SpelledFromSpells(ts, p + 1 + Width(l) + 1, right);
    }
  }

  /** A finished operand stays finished as the looser levels take it over, as long as the
      next token is no operator of those levels. */
  lemma {:induction false} Lift(ts: seq<Token>, p: nat, e: A.Expr, q: nat, k: nat, m: nat)
    requires p <= |ts| && k <= m <= LoosestLevel
    requires LevelAt(ts, p, k) == Parsed(Some(e), q)
    requires LevelOf(PeekAt(ts, q).kind) <= k || LevelOf(PeekAt(ts, q).kind) > m
    ensures LevelAt(ts, p, m) == Parsed(Some(e), q)
    decreases m
  {
    if m > k {
      Lift(ts, p, e, q, k, m - 1);
    }
  }

  /** A token that ends an expression: no binary operator and no `=`. */
  predicate Ends(t: Token) {
    LevelOf(t.kind) == 0 && t.kind != Assign
  }

  /** An operand of the loosest binary level not followed by `=` is a whole expression. */
  lemma LevelIsExpression(ts: seq<Token>, p: nat, e: A.Expr, q: nat)
    requires p <= |ts| && LevelAt(ts, p, LoosestLevel) == Parsed(Some(e), q)
    requires PeekAt(ts, q).kind != Assign
    ensures ExpressionAt(ts, p) == Parsed(Some(e), q)
  {
  }

  /** An operand followed by a token that cannot continue it is a whole expression. */
  lemma Whole(ts: seq<Token>, p: nat, e: A.Expr, q: nat)
    requires p <= |ts| && UnaryAt(ts, p) == Parsed(Some(e), q) && Ends(PeekAt(ts, q))
    ensures ExpressionAt(ts, p) == Parsed(Some(e), q)
  {
    Lift(ts, p, e, q, 0, LoosestLevel);
    LevelIsExpression(ts, p, e, q);
  }

  /** An expression between `(` and `)` is a primary. */
  lemma Enclosed(ts: seq<Token>, p: nat, e: A.Expr, q: nat)
    requires p < |ts| && ts[p] == OpenParen
    requires ExpressionAt(ts, p + 1) == Parsed(Some(e), q) && q < |ts| && ts[q] == CloseParen
    ensures UnaryAt(ts, p) == Parsed(Some(e), q + 1)
  {
    assert PeekAt(ts, p) == OpenParen;
    assert GroupAt(ts, p + 1) == Parsed(Some(e), q + 1);
    assert PrimaryAt(ts, p) == ParenthesisedAt(ts, p) == GroupAt(ts, p + 1);
  }

  /** A literal, a boolean or an identifier token is an operand on its own. */
  lemma AtomParses(ts: seq<Token>, p: nat, e: A.Expr, t: Token)
    requires e == A.Literal(t) || e == A.BoolLiteral(t) || e == A.Ident(t)
    ensures WellFormed(e) && SpelledAt(ts, p, e) ==> UnaryAt(ts, p) == Parsed(Some(e), p + 1)
  {
    if WellFormed(e) && SpelledAt(ts, p, e) {
      assert PeekAt(ts, p) == t;
    }
  }

  lemma UnaryCore(ts: seq<Token>, p: nat, op: Token, right: A.Expr, n: nat)
    requires op.kind == Bang || op.kind == Minus
    ensures p + 2 + n + 1 <= |ts| && ts[p] == OpenParen && ts[p + 1] == op &&
            ts[p + 2 + n] == CloseParen && UnaryAt(ts, p + 2) == Parsed(Some(right), p + 2 + n) ==>
            UnaryAt(ts, p) == Parsed(Some(A.Unary(op, right)), p + 2 + n + 1)
  {
    var q := p + 2 + n;
    if q + 1 <= |ts| && ts[p] == OpenParen && ts[p + 1] == op && ts[q] == CloseParen &&
       UnaryAt(ts, p + 2) == Parsed(Some(right), q)
    {
      assert UnaryAt(ts, p + 1) == Parsed(Some(A.Unary(op, right)), q);
      Whole(ts, p + 1, A.Unary(op, right), q);
      Enclosed(ts, p, A.Unary(op, right), q);
    }
  }

  lemma AssignmentCore(ts: seq<Token>, p: nat, t: Token, v: A.Expr, n: nat)
    requires t.kind == Identifier
    ensures p + 3 + n + 1 <= |ts| && ts[p] == OpenParen && ts[p + 1] == t && ts[p + 2] == Equals &&
            ts[p + 3 + n] == CloseParen && UnaryAt(ts, p + 3) == Parsed(Some(v), p + 3 + n) ==>
            UnaryAt(ts, p) == Parsed(Some(A.Assignment(t, v)), p + 3 + n + 1)
  {
    var q := p + 3 + n;
    if q + 1 <= |ts| && ts[p] == OpenParen && ts[p + 1] == t && ts[p + 2] == Equals &&
       ts[q] == CloseParen && UnaryAt(ts, p + 3) == Parsed(Some(v), q)
    {
      Whole(ts, p + 3, v, q);
      AssignsTo(ts, p + 1, t, v, q);
      Enclosed(ts, p, A.Assignment(t, v), q);
    }
  }

  /** An identifier, `=` and an expression make an assignment. */
  lemma AssignsTo(ts: seq<Token>, p: nat, t: Token, v: A.Expr, q: nat)
    requires p + 1 < |ts| && ts[p] == t && t.kind == Identifier && ts[p + 1].kind == Assign
    requires ExpressionAt(ts, p + 2) == Parsed(Some(v), q)
    ensures ExpressionAt(ts, p) == Parsed(Some(A.Assignment(t, v)), q)
  {
    TargetParses(ts, p, t);
    assert PeekAt(ts, p + 1) == ts[p + 1];
  }

  /** An identifier followed by `=` is a finished operand of the loosest level. */
  lemma TargetParses(ts: seq<Token>, p: nat, t: Token)
    requires p + 1 < |ts| && ts[p] == t && t.kind == Identifier && ts[p + 1].kind == Assign
    ensures LevelAt(ts, p, LoosestLevel) == Parsed(Some(A.Ident(t)), p + 1)
  {
    assert UnaryAt(ts, p) == Parsed(Some(A.Ident(t)), p + 1);
    assert PeekAt(ts, p + 1) == ts[p + 1];
    Lift(ts, p, A.Ident(t), p + 1, 0, LoosestLevel);
  }

  /** One pass of a binary level's loop over `op right` followed by a token of level 0. */
  lemma LoopStep(ts: seq<Token>, q1: nat, l: A.Expr, op: Token, right: A.Expr, q2: nat)
    requires 1 <= LevelOf(op.kind) && q1 < |ts| && ts[q1] == op
    requires LevelAt(ts, q1 + 1, LevelOf(op.kind) - 1) == Parsed(Some(right), q2)
    requires q2 < |ts| && LevelOf(ts[q2].kind) == 0
    ensures LoopAt(ts, q1, LevelOf(op.kind), Some(l)) == Parsed(Some(A.Binary(l, op, right)), q2)
  {
    assert LoopAt(ts, q1, LevelOf(op.kind), Some(l))
        == LoopAt(ts, q2, LevelOf(op.kind), Some(A.Binary(l, op, right)));
  }

  /** `l op right` at the level of `op`, with both operands already parsed as operands. */
  lemma BinaryLevel(ts: seq<Token>, s: nat, l: A.Expr, op: Token, right: A.Expr, q1: nat, q2: nat)
    requires 1 <= LevelOf(op.kind)
    ensures s <= q1 < q2 < |ts| && ts[q1] == op && LevelOf(ts[q2].kind) == 0 &&
            UnaryAt(ts, s) == Parsed(Some(l), q1) &&
            UnaryAt(ts, q1 + 1) == Parsed(Some(right), q2) ==>
            LevelAt(ts, s, LevelOf(op.kind)) == Parsed(Some(A.Binary(l, op, right)), q2)
  {
    if s <= q1 < q2 < |ts| && ts[q1] == op && LevelOf(ts[q2].kind) == 0 &&
       UnaryAt(ts, s) == Parsed(Some(l), q1) &&
       UnaryAt(ts, q1 + 1) == Parsed(Some(right), q2)
    {
      var k := LevelOf(op.kind);
      assert PeekAt(ts, q1) == op;
      Lift(ts, s, l, q1, 0, k - 1);
      Lift(ts, q1 + 1, right, q2, 0, k - 1);
      LoopStep(ts, q1, l, op, right, q2);
    }
  }

  /** An operand of any binary level between `(` and `)` is a primary. */
  lemma LevelEnclosed(ts: seq<Token>, p: nat, e: A.Expr, k: nat, q: nat)
    requires 1 <= k <= LoosestLevel
    ensures p < q < |ts| && ts[p] == OpenParen && ts[q] == CloseParen &&
            LevelAt(ts, p + 1, k) == Parsed(Some(e), q) ==>
            UnaryAt(ts, p) == Parsed(Some(e), q + 1)
  {
    if p < q < |ts| && ts[p] == OpenParen && ts[q] == CloseParen &&
       LevelAt(ts, p + 1, k) == Parsed(Some(e), q)
    {
      assert PeekAt(ts, q) == CloseParen;
      Lift(ts, p + 1, e, q, k, LoosestLevel);
      LevelIsExpression(ts, p + 1, e, q);
      Enclosed(ts, p, e, q);
    }
  }

  lemma BinaryCore(ts: seq<Token>, p: nat, l: A.Expr, op: Token, right: A.Expr, m: nat, n: nat)
    requires 1 <= LevelOf(op.kind)
    ensures p + 1 + m + 1 + n + 1 <= |ts| && ts[p] == OpenParen && ts[p + 1 + m] == op &&
            ts[p + 1 + m + 1 + n] == CloseParen &&
            UnaryAt(ts, p + 1) == Parsed(Some(l), p + 1 + m) &&
            UnaryAt(ts, p + 1 + m + 1) == Parsed(Some(right), p + 1 + m + 1 + n) ==>
            UnaryAt(ts, p) == Parsed(Some(A.Binary(l, op, right)), p + 1 + m + 1 + n + 1)
  {
    var q1, q2 := p + 1 + m, p + 1 + m + 1 + n;
    if q2 + 1 <= |ts| && ts[p] == OpenParen && ts[q1] == op && ts[q2] == CloseParen &&
       UnaryAt(ts, p + 1) == Parsed(Some(l), q1) &&
       UnaryAt(ts, q1 + 1) == Parsed(Some(right), q2)
    {
      BinaryLevel(ts, p + 1, l, op, right, q1, q2);
      LevelEnclosed(ts, p, A.Binary(l, op, right), LevelOf(op.kind), q2);
    }
  }

  /** The spelling of a well-formed expression parses back to it as an operand, ending
      right after its last token. */
  lemma {:induction false} UnparseParses(ts: seq<Token>, p: nat, e: A.Expr)
    ensures WellFormed(e) && SpelledAt(ts, p, e) ==>
            UnaryAt(ts, p) == Parsed(Some(e), p + Width(e))
    decreases e, 2
  {
    match e
    case Literal(t) => AtomParses(ts, p, e, t);
    case BoolLiteral(t) => AtomParses(ts, p, e, t);
    case Ident(t) => AtomParses(ts, p, e, t);
    case Unary(op, right) => UnparseUnary(ts, p, op, right);
    case Assignment(t, v) => UnparseAssignment(ts, p, t, v);
    case Binary(l, op, right) => UnparseBinary(ts, p, l, op, right);
  }

  lemma {:induction false} UnparseUnary(ts: seq<Token>, p: nat, op: Token, right: A.Expr)
    ensures WellFormed(A.Unary(op, right)) && SpelledAt(ts, p, A.Unary(op, right)) ==>
            UnaryAt(ts, p) == Parsed(Some(A.Unary(op, right)), p + Width(right) + 3)
    decreases A.Unary(op, right), 1
  {
    UnparseParses(ts, p + 2, right);
    UnaryLink(ts, p, op, right);
  }

  lemma {:induction false} UnparseAssignment(ts: seq<Token>, p: nat, t: Token, v: A.Expr)
    ensures WellFormed(A.Assignment(t, v)) && SpelledAt(ts, p, A.Assignment(t, v)) ==>
            UnaryAt(ts, p) == Parsed(Some(A.Assignment(t, v)), p + Width(v) + 4)
    decreases A.Assignment(t, v), 1
  {
    UnparseParses(ts, p + 3, v);
    AssignmentLink(ts, p, t, v);
  }

  lemma {:induction false} UnparseBinary(ts: seq<Token>, p: nat, l: A.Expr, op: Token, right: A.Expr)
    ensures WellFormed(A.Binary(l, op, right)) && SpelledAt(ts, p, A.Binary(l, op, right)) ==>
            UnaryAt(ts, p) ==
            Parsed(Some(A.Binary(l, op, right)), p + Width(l) + Width(right) + 3)
    decreases A.Binary(l, op, right), 1
  {
    if WellFormed(A.Binary(l, op, right)) && SpelledAt(ts, p, A.Binary(l, op, right)) {
      BinaryOperands(ts, p, l, op, right);
      UnparseParses(ts, p + 1, l);
      UnparseRightOperand(ts, p, l, op, right);
    }
  }

  /** Once the left operand is parsed, the right operand and the closing parenthesis follow. */
  lemma {:induction false} UnparseRightOperand(ts: seq<Token>, p: nat, l: A.Expr, op: Token, right: A.Expr)
    ensures WellFormed(A.Binary(l, op, right)) && SpelledAt(ts, p, A.Binary(l, op, right)) &&
            UnaryAt(ts, p + 1) == Parsed(Some(l), p + 1 + Width(l)) ==>
            UnaryAt(ts, p) ==
            Parsed(Some(A.Binary(l, op, right)), p + Width(l) + Width(right) + 3)
    decreases A.Binary(l, op, right), 0
  {
    if WellFormed(A.Binary(l, op, right)) && SpelledAt(ts, p, A.Binary(l, op, right)) {
      BinaryOperands(ts, p, l, op, right);
      UnparseParses(ts, p + 1 + Width(l) + 1, right);
      BinaryCore(ts, p, l, op, right, Width(l), Width(right));
    }
  }

  /** The tokens around the operands of a spelled binary operation, and its operands. */
  lemma BinaryOperands(ts: seq<Token>, p: nat, l: A.Expr, op: Token, right: A.Expr)
    ensures WellFormed(A.Binary(l, op, right)) && SpelledAt(ts, p, A.Binary(l, op, right)) ==>
            ts[p] == OpenParen && ts[p + 1 + Width(l)] == op &&
            ts[p + 1 + Width(l) + 1 + Width(right)] == CloseParen &&
            WellFormed(l) && SpelledAt(ts, p + 1, l) &&
            WellFormed(right) && SpelledAt(ts, p + 1 + Width(l) + 1, right)
  {
  }

  /** The step from a parsed operand to the parsed prefix operation around it. */
  lemma UnaryLink(ts: seq<Token>, p: nat, op: Token, right: A.Expr)
    ensures WellFormed(A.Unary(op, right)) && SpelledAt(ts, p, A.Unary(op, right)) &&
            UnaryAt(ts, p + 2) == Parsed(Some(right), p + 2 + Width(right)) ==>
            UnaryAt(ts, p) == Parsed(Some(A.Unary(op, right)), p + Width(right) + 3)
  {
    if WellFormed(A.Unary(op, right)) && SpelledAt(ts, p, A.Unary(op, right)) &&
       UnaryAt(ts, p + 2) == Parsed(Some(right), p + 2 + Width(right))
    {
      assert ts[p] == OpenParen && ts[p + 1] == op && ts[p + 2 + Width(right)] == CloseParen;
      UnaryCore(ts, p, op, right, Width(right));
    }
  }

  /** The step from a parsed value to the parsed assignment around it. */
  lemma AssignmentLink(ts: seq<Token>, p: nat, t: Token, v: A.Expr)
    ensures WellFormed(A.Assignment(t, v)) && SpelledAt(ts, p, A.Assignment(t, v)) &&
            UnaryAt(ts, p + 3) == Parsed(Some(v), p + 3 + Width(v)) ==>
            UnaryAt(ts, p) == Parsed(Some(A.Assignment(t, v)), p + Width(v) + 4)
  {
    if WellFormed(A.Assignment(t, v)) && SpelledAt(ts, p, A.Assignment(t, v)) &&
       UnaryAt(ts, p + 3) == Parsed(Some(v), p + 3 + Width(v))
    {
      assert ts[p] == OpenParen && ts[p + 1] == t && ts[p + 2] == Equals &&
             ts[p + 3 + Width(v)] == CloseParen;
      AssignmentCore(ts, p, t, v, Width(v));
    }
  }

  /** Parsing the fully parenthesised spelling of a well-formed expression, followed by
      anything that cannot continue it, gives the expression back and stops right after
      it: together with `ExpressionWellFormed`, the trees `expression` can return are
      exactly the well-formed ones. */
  lemma ExpressionRoundTrip(e: A.Expr, rest: seq<Token>)
    requires WellFormed(e) && Ends(PeekAt(rest, 0))
    ensures ExpressionAt(Unparse(e) + rest, 0) == Parsed(Some(e), |Unparse(e)|)
  {
    var ts := Unparse(e) + rest;
    SpellsPrefix(ts, 0, Unparse(e));
    SpelledFromSpells(ts, 0, e);
    UnparseParses(ts, 0, e);
    assert PeekAt(ts, |Unparse(e)|) == PeekAt(rest, 0);
    Whole(ts, 0, e, |Unparse(e)|);
  }

  // ----- Precedence, associativity and error recovery -----

  /** A token that is an operand on its own. */
  predicate IsAtom(t: Token) {
    t.kind in {IntLiteral, FloatLiteral, StringLiteral, True, False, Identifier}
  }

  /** The operand an atom token parses to. */
  function AtomOf(t: Token): (e: A.Expr)
    requires IsAtom(t)
    ensures WellFormed(e) && Unparse(e) == [t]
  {
    if t.kind == Identifier then A.Ident(t)
    else if t.kind == True || t.kind == False then A.BoolLiteral(t)
    else A.Literal(t)
  }

  lemma AtomOperand(ts: seq<Token>, p: nat)
    requires p < |ts| && IsAtom(ts[p])
    ensures UnaryAt(ts, p) == Parsed(Some(AtomOf(ts[p])), p + 1)
  {
    assert PeekAt(ts, p) == ts[p];
  }

  /** One turn of a binary level's loop: the operator and its right operand. */
  lemma LoopOnce(ts: seq<Token>, q1: nat, k: nat, l: A.Expr, right: A.Expr, q2: nat)
    requires 1 <= k <= LoosestLevel && q1 < |ts| && LevelOf(ts[q1].kind) == k
    requires LevelAt(ts, q1 + 1, k - 1) == Parsed(Some(right), q2)
    ensures LoopAt(ts, q1, k, Some(l)) == LoopAt(ts, q2, k, Some(A.Binary(l, ts[q1], right)))
  {
    assert PeekAt(ts, q1) == ts[q1];
  }

  /** A binary level's loop stops at a token that is not one of its operators. */
  lemma LoopDone(ts: seq<Token>, q: nat, k: nat, acc: Option<A.Expr>)
    requires q <= |ts| && 1 <= k <= LoosestLevel && LevelOf(PeekAt(ts, q).kind) != k
    ensures LoopAt(ts, q, k, acc) == Parsed(acc, q)
  {
  }

  /** `x o1 y o2 z` groups to the left when `o1` binds at least as tightly as `o2`: the
      operators of one level are left-associative, and a tighter level goes first. */
  lemma GroupsLeft(x: Token, o1: Token, y: Token, o2: Token, z: Token, stop: Token)
    requires IsAtom(x) && IsAtom(y) && IsAtom(z) && Ends(stop)
    requires 1 <= LevelOf(o1.kind) <= LevelOf(o2.kind)
    ensures ExpressionAt([x, o1, y, o2, z, stop], 0) ==
            Parsed(Some(A.Binary(A.Binary(AtomOf(x), o1, AtomOf(y)), o2, AtomOf(z))), 5)
  {
    var ts := [x, o1, y, o2, z, stop];
    var k1, k2 := LevelOf(o1.kind), LevelOf(o2.kind);
    var inner := A.Binary(AtomOf(x), o1, AtomOf(y));
    var outer := A.Binary(inner, o2, AtomOf(z));
    AtomOperand(ts, 0);
    AtomOperand(ts, 2);
    AtomOperand(ts, 4);
    Lift(ts, 0, AtomOf(x), 1, 0, k1 - 1);
    Lift(ts, 2, AtomOf(y), 3, 0, k1 - 1);
    Lift(ts, 4, AtomOf(z), 5, 0, k2 - 1);
    LoopOnce(ts, 1, k1, AtomOf(x), AtomOf(y), 3);
    if k1 == k2 {
      SameLevelGroupsLeft(ts, AtomOf(x), inner, AtomOf(z), k1, outer);
    } else {
      TighterGroupsLeft(ts, AtomOf(x), inner, AtomOf(z), k1, k2, outer);
    }
    Lift(ts, 0, outer, 5, k2, LoosestLevel);
    LevelIsExpression(ts, 0, outer, 5);
  }

  /** `x o1 y o2 z` with `o1` and `o2` of one level `k`: the loop takes both in turn. */
  lemma SameLevelGroupsLeft(ts: seq<Token>, x: A.Expr, inner: A.Expr, z: A.Expr, k: nat,
                            outer: A.Expr)
    requires |ts| == 6 && 1 <= k <= LoosestLevel && LevelOf(ts[3].kind) == k && Ends(ts[5])
    requires LevelAt(ts, 0, k - 1) == Parsed(Some(x), 1)
    requires LoopAt(ts, 1, k, Some(x)) == LoopAt(ts, 3, k, Some(inner))
    requires LevelAt(ts, 4, k - 1) == Parsed(Some(z), 5)
    requires outer == A.Binary(inner, ts[3], z)
    ensures LevelAt(ts, 0, k) == Parsed(Some(outer), 5)
  {
    LoopOnce(ts, 3, k, inner, z, 5);
    LoopDone(ts, 5, k, Some(outer));
  }

  /** `x o1 y o2 z` with `o1` at the tighter level `k1`: its loop ends before `o2`, and the
      level `k2` of `o2` takes the result as its left operand. */
  lemma TighterGroupsLeft(ts: seq<Token>, x: A.Expr, inner: A.Expr, z: A.Expr, k1: nat, k2: nat,
                          outer: A.Expr)
    requires |ts| == 6 && 1 <= k1 < k2 <= LoosestLevel && LevelOf(ts[3].kind) == k2
    requires Ends(ts[5])
    requires LevelAt(ts, 0, k1 - 1) == Parsed(Some(x), 1)
    requires LoopAt(ts, 1, k1, Some(x)) == LoopAt(ts, 3, k1, Some(inner))
    requires LevelAt(ts, 4, k2 - 1) == Parsed(Some(z), 5)
    requires outer == A.Binary(inner, ts[3], z)
    ensures LevelAt(ts, 0, k2) == Parsed(Some(outer), 5)
  {
    LoopDone(ts, 3, k1, Some(inner));
    assert LevelAt(ts, 0, k1) == Parsed(Some(inner), 3);
    Lift(ts, 0, inner, 3, k1, k2 - 1);
    LoopOnce(ts, 3, k2, inner, z, 5);
    LoopDone(ts, 5, k2, Some(outer));
  }

  /** `x o1 y o2 z` groups to the right when `o2` binds more tightly than `o1`. */
  lemma GroupsRight(x: Token, o1: Token, y: Token, o2: Token, z: Token, stop: Token)
    requires IsAtom(x) && IsAtom(y) && IsAtom(z) && Ends(stop)
    requires 1 <= LevelOf(o2.kind) < LevelOf(o1.kind)
    ensures ExpressionAt([x, o1, y, o2, z, stop], 0) ==
            Parsed(Some(A.Binary(AtomOf(x), o1, A.Binary(AtomOf(y), o2, AtomOf(z)))), 5)
  {
    var ts := [x, o1, y, o2, z, stop];
    var k1, k2 := LevelOf(o1.kind), LevelOf(o2.kind);
    var inner := A.Binary(AtomOf(y), o2, AtomOf(z));
    var outer := A.Binary(AtomOf(x), o1, inner);
    AtomOperand(ts, 0);
    AtomOperand(ts, 2);
    AtomOperand(ts, 4);
    Lift(ts, 2, AtomOf(y), 3, 0, k2 - 1);
    Lift(ts, 4, AtomOf(z), 5, 0, k2 - 1);
    LoopOnce(ts, 3, k2, AtomOf(y), AtomOf(z), 5);
    LoopDone(ts, 5, k2, Some(inner));
    Lift(ts, 2, inner, 5, k2, k1 - 1);
    Lift(ts, 0, AtomOf(x), 1, 0, k1 - 1);
    LoopOnce(ts, 1, k1, AtomOf(x), inner, 5);
    LoopDone(ts, 5, k1, Some(outer));
    assert LevelAt(ts, 0, k1) == Parsed(Some(outer), 5);
    Lift(ts, 0, outer, 5, k1, LoosestLevel);
    LevelIsExpression(ts, 0, outer, 5);
  }

  /** A prefix operator binds more tightly than any binary operator: `-x * y` is
      `(-x) * y`. */
  lemma PrefixBindsTighter(m: Token, x: Token, o: Token, y: Token, stop: Token)
    requires (m.kind == Bang || m.kind == Minus) && IsAtom(x) && IsAtom(y) && Ends(stop)
    requires 1 <= LevelOf(o.kind)
    ensures ExpressionAt([m, x, o, y, stop], 0) ==
            Parsed(Some(A.Binary(A.Unary(m, AtomOf(x)), o, AtomOf(y))), 4)
  {
    var ts := [m, x, o, y, stop];
    var b := A.Binary(A.Unary(m, AtomOf(x)), o, AtomOf(y));
    AtomOperand(ts, 1);
    AtomOperand(ts, 3);
    assert UnaryAt(ts, 0) == Parsed(Some(A.Unary(m, AtomOf(x))), 2);
    BinaryLevel(ts, 0, A.Unary(m, AtomOf(x)), o, AtomOf(y), 2, 4);
    Lift(ts, 0, b, 4, LevelOf(o.kind), LoosestLevel);
    LevelIsExpression(ts, 0, b, 4);
  }

  /** Assignment is right-associative: `a = b = z` assigns `z` to `b`, then to `a`. */
  lemma AssignmentGroupsRight(a: Token, eq1: Token, b: Token, eq2: Token, z: Token, stop: Token)
    requires a.kind == Identifier && b.kind == Identifier && eq1.kind == Assign && eq2.kind == Assign
    requires IsAtom(z) && Ends(stop)
    ensures ExpressionAt([a, eq1, b, eq2, z, stop], 0) ==
            Parsed(Some(A.Assignment(a, A.Assignment(b, AtomOf(z)))), 5)
  {
    var ts := [a, eq1, b, eq2, z, stop];
    AtomOperand(ts, 4);
    Whole(ts, 4, AtomOf(z), 5);
    AssignsTo(ts, 2, b, AtomOf(z), 5);
    AssignsTo(ts, 0, a, A.Assignment(b, AtomOf(z)), 5);
  }

  /** Only an identifier can be assigned to: `x o y = z` is rejected. */
  lemma InvalidTargetRejected(x: Token, o: Token, y: Token, eq: Token, z: Token)
    requires IsAtom(x) && IsAtom(y) && 1 <= LevelOf(o.kind) && eq.kind == Assign
    ensures ExpressionAt([x, o, y, eq, z], 0).node == None
  {
    var ts := [x, o, y, eq, z];
    var b := A.Binary(AtomOf(x), o, AtomOf(y));
    AtomOperand(ts, 0);
    AtomOperand(ts, 2);
    BinaryLevel(ts, 0, AtomOf(x), o, AtomOf(y), 1, 3);
    Lift(ts, 0, b, 3, LevelOf(o.kind), LoosestLevel);
    assert PeekAt(ts, 3) == eq;
  }

  /** `print(x` with the closing `)` and `;` missing still gives the print statement: the
      missing tokens are reported, not fatal. */
  lemma PrintToleratesMissingTokens(pr: Token, lp: Token, x: Token, stop: Token)
    requires pr.kind == Print && lp.kind == LParen && IsAtom(x)
    requires Ends(stop) && stop.kind != RParen && stop.kind != Semicolon
    ensures StatementAt([pr, lp, x, stop], 0) == Parsed(Some(A.Print(AtomOf(x))), 3)
  {
    var ts := [pr, lp, x, stop];
    AtomOperand(ts, 2);
    Whole(ts, 2, AtomOf(x), 3);
    PrintWithout(ts, 0, AtomOf(x), 3);
  }

  /** A print statement whose expression is followed by neither `)` nor `;` ends right
      after the expression. */
  lemma PrintWithout(ts: seq<Token>, p: nat, e: A.Expr, q: nat)
    ensures p + 2 <= |ts| && ts[p].kind == Print && ts[p + 1].kind == LParen &&
            ExpressionAt(ts, p + 2) == Parsed(Some(e), q) &&
            PeekAt(ts, q).kind != RParen && PeekAt(ts, q).kind != Semicolon ==>
            StatementAt(ts, p) == Parsed(Some(A.Print(e)), q)
  {
    if p + 2 <= |ts| && ts[p].kind == Print && ts[p + 1].kind == LParen &&
       ExpressionAt(ts, p + 2) == Parsed(Some(e), q) &&
       PeekAt(ts, q).kind != RParen && PeekAt(ts, q).kind != Semicolon
    {
      ConsumeMatches(ts, p, Print);
      ConsumeMatches(ts, p + 1, LParen);
      ConsumeMisses(ts, q, RParen);
      ConsumeMisses(ts, q, Semicolon);
      assert PrintAt(ts, p) == Parsed(Some(A.Print(e)), q);
    }
  }

  /** `var n = x` with the `;` missing still declares `n`; `var` without a name is rejected. */
  lemma VarDeclarationRecovery(v: Token, n: Token, eq: Token, x: Token, stop: Token)
    requires v.kind == Var && eq.kind == Assign && IsAtom(x) && Ends(stop) && stop.kind != Semicolon
    ensures n.kind == Identifier ==>
            StatementAt([v, n, eq, x, stop], 0) ==
            Parsed(Some(A.VarDecl(n, Some(AtomOf(x)))), 4)
    ensures n.kind != Identifier ==> StatementAt([v, n, eq, x, stop], 0).node == None
  {
    var ts := [v, n, eq, x, stop];
    if n.kind == Identifier {
      AtomOperand(ts, 3);
      Whole(ts, 3, AtomOf(x), 4);
      assert InitializerAt(ts, 2) == Parsed(Some(Some(AtomOf(x))), 4);
      assert VarDeclAt(ts, 0) == Parsed(Some(A.VarDecl(n, Some(AtomOf(x)))), 4);
    } else {
      assert VarDeclAt(ts, 0).node == None;
    }
  }

  // ----- Whole programs -----

  const Semi := Token(Semicolon, ";", 0, 0)
  const IfKeyword := Token(If, "if", 0, 0)
  const ElseKeyword := Token(Else, "else", 0, 0)
  const OpenBrace := Token(LBrace, "{", 0, 0)
  const CloseBrace := Token(RBrace, "}", 0, 0)

  /** The spelling of a well-formed expression never starts with a statement keyword. */
  lemma UnparseStartsExpression(e: A.Expr)
    requires WellFormed(e)
    ensures Unparse(e)[0] == OpenParen || IsAtom(Unparse(e)[0])
  {
  }

  /** An expression followed by `;` is an expression statement. */
  lemma ExpressionStatement(ts: seq<Token>, p: nat, e: A.Expr, q: nat)
    requires p <= |ts| && ExpressionAt(ts, p) == Parsed(Some(e), q)
    requires PeekAt(ts, p).kind !in {Var, If, Print}
    requires q < |ts| && ts[q].kind == Semicolon
    ensures StatementAt(ts, p) == Parsed(Some(A.ExprStmt(e)), q + 1)
  {
  }

  /** A statement that ends the tokens is the whole program. */
  lemma {:induction false} OnlyStatement(ts: seq<Token>, p: nat, st: A.Stmt)
    requires p < |ts| && ts[p].kind != EofToken && StatementAt(ts, p) == Parsed(Some(st), |ts|)
    ensures ParseFrom(ts, p) == Some(st)
  {
    StatementsStep(ts, p, [], st, |ts|);
    assert [] + [st] == [st];
    assert PeekAt(ts, |ts|) == EndToken;
    assert StatementsAt(ts, |ts|, [st]) == Some([st]);
  }

  /** A program made of one expression statement, spelled with full parentheses, parses to
      that statement: `parse` returns a lone statement itself. */
  lemma ProgramRoundTrip(e: A.Expr)
    requires WellFormed(e)
    ensures ParseTokens(Unparse(e) + [Semi]) == Some(A.ExprStmt(e))
  {
    var u := Unparse(e);
    var ts := u + [Semi];
    ExpressionRoundTrip(e, [Semi]);
    UnparseStartsExpression(e);
    assert ts[0] == u[0] && ts[|u|] == Semi;
    ExpressionStatement(ts, 0, e, |u|);
    OnlyStatement(ts, 0, A.ExprStmt(e));
  }

  /** The spelling of a well-formed expression anywhere in the tokens, followed by a token
      that ends expressions, parses back to it and ends right after its last token. */
  lemma ExpressionSpelledAt(ts: seq<Token>, p: nat, e: A.Expr)
    requires WellFormed(e) && p + |Unparse(e)| <= |ts|
    requires forall i :: 0 <= i < |Unparse(e)| ==> ts[p + i] == Unparse(e)[i]
    requires Ends(PeekAt(ts, p + |Unparse(e)|))
    ensures ExpressionAt(ts, p) == Parsed(Some(e), p + |Unparse(e)|)
  {
    SpellsPrefix(ts, p, Unparse(e));
    SpelledFromSpells(ts, p, e);
    UnparseParses(ts, p, e);
    Whole(ts, p, e, p + |Unparse(e)|);
  }

  /** One turn of `parse`'s loop: a statement that parses is kept and the loop goes on after
      it. */
  lemma StatementsStep(ts: seq<Token>, p: nat, stmts: seq<A.Stmt>, st: A.Stmt, q: nat)
    requires p < |ts| && ts[p].kind != EofToken && StatementAt(ts, p) == Parsed(Some(st), q)
    ensures StatementsAt(ts, p, stmts) == StatementsAt(ts, q, stmts + [st])
  {
    assert PeekAt(ts, p) == ts[p];
  }

  /** Two statements that end the tokens: `parse` wraps them in a block. */
  lemma {:induction false} TwoStatements(ts: seq<Token>, s1: A.Stmt, q: nat, s2: A.Stmt)
    requires 0 < |ts| && ts[0].kind != EofToken && StatementAt(ts, 0) == Parsed(Some(s1), q)
    requires q < |ts| && ts[q].kind != EofToken && StatementAt(ts, q) == Parsed(Some(s2), |ts|)
    ensures ParseTokens(ts) == Some(A.Block([s1, s2]))
  {
    StatementsStep(ts, 0, [], s1, q);
    StatementsStep(ts, q, [s1], s2, |ts|);
    assert [] + [s1] == [s1];
    assert [s1] + [s2] == [s1, s2];
    assert PeekAt(ts, |ts|) == EndToken;
    assert StatementsAt(ts, |ts|, [s1, s2]) == Some([s1, s2]);
  }

  /** A program of two expression statements, spelled with full parentheses, parses to a
      block of the two: `parse` wraps several statements in a block. */
  lemma TwoStatementProgram(e1: A.Expr, e2: A.Expr)
    requires WellFormed(e1) && WellFormed(e2)
    ensures ParseTokens(Unparse(e1) + [Semi] + Unparse(e2) + [Semi])
            == Some(A.Block([A.ExprStmt(e1), A.ExprStmt(e2)]))
  {
    var u1, u2 := Unparse(e1), Unparse(e2);
    var ts := u1 + [Semi] + u2 + [Semi];
    TwoSpellings(u1, u2);
    TwoSpelledStatements(ts, e1, e2, |u1| + 1);
  }

  /** Two spelled expression statements that make up the whole of the tokens. */
  lemma TwoSpelledStatements(ts: seq<Token>, e1: A.Expr, e2: A.Expr, q: nat)
    requires WellFormed(e1) && WellFormed(e2)
    requires q == |Unparse(e1)| + 1 && |ts| == q + |Unparse(e2)| + 1
    requires ts[q - 1] == Semi && ts[|ts| - 1] == Semi
    requires forall i :: 0 <= i < |Unparse(e1)| ==> ts[i] == Unparse(e1)[i]
    requires forall i :: 0 <= i < |Unparse(e2)| ==> ts[q + i] == Unparse(e2)[i]
    ensures ParseTokens(ts) == Some(A.Block([A.ExprStmt(e1), A.ExprStmt(e2)]))
  {
    SpelledStatementAt(ts, 0, e1);
    SpelledStatementAt(ts, q, e2);
    TwoStatements(ts, A.ExprStmt(e1), q, A.ExprStmt(e2));
  }

  /** Where each half of `u1 ; u2 ;` sits. */
  lemma TwoSpellings(u1: seq<Token>, u2: seq<Token>)
    ensures var ts := u1 + [Semi] + u2 + [Semi];
            |ts| == |u1| + |u2| + 2 && ts[|u1|] == Semi && ts[|u1| + 1 + |u2|] == Semi
            && (forall i :: 0 <= i < |u1| ==> ts[i] == u1[i])
            && (forall i :: 0 <= i < |u2| ==> ts[|u1| + 1 + i] == u2[i])
  {
  }

  /** A spelled expression followed by `;` is an expression statement. */
  lemma SpelledStatementAt(ts: seq<Token>, p: nat, e: A.Expr)
    requires WellFormed(e) && p + |Unparse(e)| < |ts|
    requires forall i :: 0 <= i < |Unparse(e)| ==> ts[p + i] == Unparse(e)[i]
    requires ts[p + |Unparse(e)|] == Semi
    ensures ts[p].kind != EofToken
    ensures StatementAt(ts, p) == Parsed(Some(A.ExprStmt(e)), p + |Unparse(e)| + 1)
  {
    var u := Unparse(e);
    UnparseStartsExpression(e);
    assert PeekAt(ts, p + |u|) == Semi;
    ExpressionSpelledAt(ts, p, e);
    assert PeekAt(ts, p) == u[0];
    ExpressionStatement(ts, p, e, p + |u|);
  }

  /** `if (c)` followed by branches. */
  lemma IfStatement(ts: seq<Token>, p: nat, c: A.Expr, q: nat, st: A.Stmt, r: nat)
    ensures p + 1 < |ts| && ts[p].kind == If && ts[p + 1].kind == LParen &&
            q < |ts| && ts[q].kind == RParen && p + 2 <= q &&
            ExpressionAt(ts, p + 2) == Parsed(Some(c), q) &&
            BranchesAt(ts, q + 1, c) == Parsed(Some(st), r) ==>
            IfAt(ts, p) == Parsed(Some(st), r)
  {
    if p + 1 < |ts| && ts[p].kind == If && ts[p + 1].kind == LParen &&
       q < |ts| && ts[q].kind == RParen && p + 2 <= q
    {
      ConsumeMatches(ts, p, If);
      ConsumeMatches(ts, p + 1, LParen);
      ConsumeMatches(ts, q, RParen);
    }
  }

  lemma ConsumeMisses(ts: seq<Token>, p: nat, kind: TokenType)
    requires p <= |ts| && PeekAt(ts, p).kind != kind && kind != EofToken
    ensures ConsumeAt(ts, p, kind).1 == p
  {
  }

  lemma ConsumeMatches(ts: seq<Token>, p: nat, kind: TokenType)
    requires p < |ts| && ts[p].kind == kind && kind != EofToken
    ensures ConsumeAt(ts, p, kind).1 == p + 1
  {
    assert PeekAt(ts, p) == ts[p];
  }

  /** A then-block followed by its `else` clause. */
  lemma Branches(ts: seq<Token>, p: nat, c: A.Expr, b: A.Stmt, r: nat,
                 otherwise: Option<A.Stmt>, r2: nat)
    requires p <= |ts| && BlockAt(ts, p) == Parsed(Some(b), r)
    requires ElseAt(ts, r) == Parsed(Some(otherwise), r2)
    ensures BranchesAt(ts, p, c) == Parsed(Some(A.If(c, b, otherwise)), r2)
  {
  }

  lemma EmptyBlock(ts: seq<Token>, p: nat)
    requires p + 1 < |ts| && ts[p].kind == LBrace && ts[p + 1].kind == RBrace
    ensures BlockAt(ts, p) == Parsed(Some(A.Block([])), p + 2)
  {
    assert PeekAt(ts, p) == ts[p] && PeekAt(ts, p + 1) == ts[p + 1];
  }

  lemma ElseIf(ts: seq<Token>, p: nat, st: A.Stmt, q: nat)
    requires p + 1 < |ts| && ts[p].kind == Else && ts[p + 1].kind == If
    requires IfAt(ts, p + 1) == Parsed(Some(st), q)
    ensures ElseAt(ts, p) == Parsed(Some(Some(st)), q)
  {
    assert PeekAt(ts, p) == ts[p] && PeekAt(ts, p + 1) == ts[p + 1];
  }

  /** The tokens of `if (x) {} else if (y) {}`. */
  function ElseIfProgram(x: Token, y: Token): (ts: seq<Token>)
    ensures |ts| == 13
  {
    [IfKeyword, OpenParen, x, CloseParen, OpenBrace, CloseBrace, ElseKeyword,
     IfKeyword, OpenParen, y, CloseParen, OpenBrace, CloseBrace]
  }

  lemma SecondIfParses(x: Token, y: Token)
    requires IsAtom(y)
    ensures IfAt(ElseIfProgram(x, y), 7) ==
            Parsed(Some(A.If(AtomOf(y), A.Block([]), None)), 13)
  {
    var ts := ElseIfProgram(x, y);
    AtomOperand(ts, 9);
    Whole(ts, 9, AtomOf(y), 10);
    EmptyBlock(ts, 11);
    assert ElseAt(ts, 13) == Parsed(Some(None), 13);
    Branches(ts, 11, AtomOf(y), A.Block([]), 13, None, 13);
    IfStatement(ts, 7, AtomOf(y), 10, A.If(AtomOf(y), A.Block([]), None), 13);
  }

  lemma FirstIfParses(x: Token, y: Token)
    requires IsAtom(x) && IsAtom(y)
    ensures IfAt(ElseIfProgram(x, y), 0) ==
            Parsed(Some(A.If(AtomOf(x), A.Block([]), Some(A.If(AtomOf(y), A.Block([]), None)))), 13)
  {
    var ts := ElseIfProgram(x, y);
    var second := A.If(AtomOf(y), A.Block([]), None);
    SecondIfParses(x, y);
    AtomOperand(ts, 2);
    Whole(ts, 2, AtomOf(x), 3);
    EmptyBlock(ts, 4);
    ElseIf(ts, 6, second, 13);
    Branches(ts, 4, AtomOf(x), A.Block([]), 6, Some(second), 13);
    IfStatement(ts, 0, AtomOf(x), 3, A.If(AtomOf(x), A.Block([]), Some(second)), 13);
  }

  /** `if (x) {} else if (y) {}` nests the second `if` as the `else` branch of the first. */
  lemma ElseIfNests(x: Token, y: Token)
    requires IsAtom(x) && IsAtom(y)
    ensures ParseTokens(ElseIfProgram(x, y)) ==
            Some(A.If(AtomOf(x), A.Block([]), Some(A.If(AtomOf(y), A.Block([]), None))))
  {
    var ts := ElseIfProgram(x, y);
    var first := A.If(AtomOf(x), A.Block([]), Some(A.If(AtomOf(y), A.Block([]), None)));
    FirstIfParses(x, y);
    assert StatementAt(ts, 0) == IfAt(ts, 0);
    OnlyStatement(ts, 0, first);
  }
}
