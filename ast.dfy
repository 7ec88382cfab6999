/** The abstract syntax tree (include/AST.h) as value datatypes, and each node's `getType`.
    The C++ class hierarchy of heap-allocated nodes becomes two datatypes: expressions and
    statements (an expression used as a statement is wrapped in ExprStmt). */
module Ast {
  import opened Options
  import T = Tokens

  /** `ASTNode::Type`: the node-kind tags, which also serve as the semantic types. */
  datatype NodeType =
    | Integer | Float | Unknown
    | IdentifierExpression | AssignmentExpression | VariableDeclaration
    | IfStatement | BlockStatement | PrintStatement
    | StringLiteral | BooleanLiteral | UnaryExpression

  datatype Expr =
    | Literal(token: T.Token)
    | BoolLiteral(token: T.Token)
    | Ident(name: T.Token)
    | Unary(op: T.Token, right: Expr)
    | Assignment(target: T.Token, value: Expr)
    | Binary(left: Expr, op: T.Token, right: Expr)

  datatype Stmt =
    | ExprStmt(expr: Expr)
    | VarDecl(name: T.Token, init: Option<Expr>)
    | If(cond: Expr, thenBranch: Stmt, elseBranch: Option<Stmt>)
    | Block(stmts: seq<Stmt>)
    | Print(expr: Expr)

  /** The tags an expression node can report. */
  predicate IsExprTag(t: NodeType) {
    t in {Integer, Float, Unknown, IdentifierExpression, StringLiteral, BooleanLiteral}
  }

  /** `Literal::getType` (AST.h:70-76). */
  function LiteralType(k: T.TokenType): (t: NodeType)
    ensures t == Integer <==> k == T.IntLiteral
    ensures t == Float <==> k == T.FloatLiteral
    ensures t == StringLiteral <==> k == T.StringLiteral
    ensures t == Unknown <==> k !in {T.IntLiteral, T.FloatLiteral, T.StringLiteral}
  {
    if k == T.IntLiteral then Integer
    else if k == T.FloatLiteral then Float
    else if k == T.StringLiteral then StringLiteral
    else Unknown
  }

  /** The two numeric tags. */
  predicate IsNumber(t: NodeType) {
    t == Integer || t == Float
  }

  /** `BinaryExpression::getType` (AST.h:148-176) on the operand types. */
  function BinaryType(op: T.TokenType, l: NodeType, r: NodeType): (t: NodeType)
    ensures t in {StringLiteral, Float, Integer, BooleanLiteral, Unknown}
    ensures t == StringLiteral <==> op == T.Plus && l == StringLiteral && r == StringLiteral
    ensures l == Unknown || r == Unknown ==> t == Unknown
    ensures t == Float <==> (l == Float || r == Float) && l != Unknown && r != Unknown
                            && !(op == T.Plus && (l == StringLiteral || r == StringLiteral))
    ensures t == Integer <==> (l == Integer || r == Integer) && l !in {Unknown, Float}
                              && r !in {Unknown, Float}
                              && !(op == T.Plus && (l == StringLiteral || r == StringLiteral))
    ensures t == BooleanLiteral <==> (l == BooleanLiteral || r == BooleanLiteral)
                                     && l !in {Unknown, Float, Integer}
                                     && r !in {Unknown, Float, Integer}
  {
    if op == T.Plus && l == StringLiteral && r == StringLiteral then StringLiteral
    else if op == T.Plus && ((l == StringLiteral && IsNumber(r))
                             || (IsNumber(l) && r == StringLiteral)) then Unknown
    else if l == Unknown || r == Unknown then Unknown
    else if l == Float || r == Float then Float
    else if l == Integer || r == Integer then Integer
    else if l == BooleanLiteral || r == BooleanLiteral then BooleanLiteral
    else Unknown
  }

  /** `getType` of an expression node. Identifiers report their own tag (their type is
      found only later, in the symbol table); unary and assignment nodes pass their operand's
      type through. */
  function ExprType(e: Expr): (t: NodeType)
    ensures IsExprTag(t)
  {
    match e
    case Literal(tok) => LiteralType(tok.kind)
    case BoolLiteral(_) => BooleanLiteral
    case Ident(_) => IdentifierExpression
    case Unary(_, right) => ExprType(right)
    case Assignment(_, value) => ExprType(value)
    case Binary(left, op, right) => BinaryType(op.kind, ExprType(left), ExprType(right))
  }

  /** `getType` of a statement node: its own kind tag (AST.h:204, 238, 265, 285). */
  function StmtType(s: Stmt): (t: NodeType)
    ensures !s.ExprStmt? ==> t !in {Integer, Float, Unknown, IdentifierExpression,
                                    StringLiteral, BooleanLiteral}
  {
    match s
    case ExprStmt(e) => ExprType(e)
    case VarDecl(_, _) => VariableDeclaration
    case If(_, _, _) => IfStatement
    case Block(_) => BlockStatement
    case Print(_) => PrintStatement
  }

  /** The innermost operand under a chain of unary and assignment nodes. Those nodes are
      transparent to getType, so an expression reports IDENTIFIER_EXPRESSION exactly when this
      operand is an identifier: `-x` has the identifier tag whatever x's declared type is. */
  function Core(e: Expr): (r: Expr)
    ensures !r.Unary? && !r.Assignment?
    ensures ExprType(r) == ExprType(e)
    ensures ExprType(e) == IdentifierExpression <==> r.Ident?
  {
    match e
    case Unary(_, right) => Core(right)
    case Assignment(_, value) => Core(value)
    case _ => e
  }

  /** The numeric ranking behind the binary rule: boolean < integer < float. */
  function NumericRank(t: NodeType): nat
  {
    if t == BooleanLiteral then 1 else if t == Integer then 2 else if t == Float then 3 else 0
  }

  function RankTag(n: nat): NodeType
  {
    if n == 3 then Float else if n == 2 then Integer else if n == 1 then BooleanLiteral
    else Unknown
  }

  function Max(a: nat, b: nat): nat { if a < b then b else a }

  /** An independent statement of the binary rule outside the string cases of `+`: an
      UNKNOWN operand poisons the result, and otherwise the result is the higher-ranked of
      the numeric/boolean operand types (UNKNOWN when neither is numeric or boolean). */
  lemma BinaryTypeByRank(op: T.TokenType, l: NodeType, r: NodeType)
    requires op != T.Plus || (l != StringLiteral && r != StringLiteral)
    ensures BinaryType(op, l, r)
            == if l == Unknown || r == Unknown then Unknown
               else RankTag(Max(NumericRank(l), NumericRank(r)))
  {
  }

  /** `+` yields STRING_LITERAL exactly on two strings, and a string next to a number makes
      it UNKNOWN. */
  lemma ConcatenationType(l: NodeType, r: NodeType)
    ensures BinaryType(T.Plus, l, r) == StringLiteral <==> l == StringLiteral && r == StringLiteral
    ensures (l == StringLiteral && IsNumber(r)) || (IsNumber(l) && r == StringLiteral) ==>
            BinaryType(T.Plus, l, r) == Unknown
  {
  }

  /** The binary rule does not depend on operand order. */
  lemma BinaryTypeSymmetric(op: T.TokenType, l: NodeType, r: NodeType)
    ensures BinaryType(op, l, r) == BinaryType(op, r, l)
  {
    if op != T.Plus || (l != StringLiteral && r != StringLiteral) {
      BinaryTypeByRank(op, l, r);
      BinaryTypeByRank(op, r, l);
    }
  }
}
