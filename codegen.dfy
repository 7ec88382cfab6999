/** The single-pass compiler (src/Compiler.cpp): type checks operands against the symbol table,
    emits stack bytecode, lowers `&&`/`||` to short-circuit jumps, backpatches jump targets and
    interns string literals into a pool.

    As in the source, failure is signalled by clearing the instruction buffer, and every
    caller treats an empty buffer after a sub-lowering as failure (so a statement that emits
    nothing into an empty buffer, such as `var x;`, aborts what follows it).

    The lowering is first given as functions over a `State` (buffer, symbol table, pool), then
    as the `Compiler` class whose methods update those fields in place, each proved equal to
    its function. */
module CodeGen {
  import opened Options
  import opened Bytecode
  import T = Tokens
  import A = Ast
  import S = Symbols
  import Decimal

  /** The compiler's fields: `bytecode`, `symbolTable` and `string_literals`. */
  datatype State = State(code: seq<Instr>, table: S.Table, pool: seq<string>)

  /** What one lowering step may do to the state: an emptied buffer, or the old buffer kept
      as a prefix; the pool only grows at its end; the address counter never goes back. */
  predicate Grows(s: State, r: State)
  {
    && (r.code != [] ==> s.code <= r.code)
    && s.pool <= r.pool
    && s.table.nextAddress <= r.table.nextAddress
  }

  /** Growth composes, provided the middle buffer was not emptied when the last one is not. */
  lemma GrowsTransitive(a: State, b: State, c: State)
    requires Grows(a, b) && Grows(b, c) && (c.code != [] ==> b.code != [])
    ensures Grows(a, c)
  {

  }

  /** Backpatching a jump emitted after `a` keeps `a`'s buffer as a prefix. */
  lemma PatchGrows(a: State, s: State, at: nat)
    requires Grows(a, s) && s.code != [] && |a.code| <= at < |s.code|
    ensures Grows(a, PatchToEnd(s, at))
  {
    var r := PatchToEnd(s, at);
    assert a.code <= r.code by {
      assert forall i :: 0 <= i < |a.code| ==> r.code[i] == r.code[..at][i];
    }
  }

  function Emit(s: State, instrs: seq<Instr>): (r: State)
    ensures r.code == s.code + instrs && r.table == s.table && r.pool == s.pool
  {
    s.(code := s.code + instrs)
  }

  function Fail(s: State): (r: State)
    ensures r.code == [] && r.table == s.table && r.pool == s.pool
  {
    s.(code := [])
  }

  /** `bytecode[at].operand = bytecode.size()`: the jump at `at` is pointed at the next free
      slot. */
  function PatchToEnd(s: State, at: nat): (r: State)
    requires at < |s.code|
    ensures |r.code| == |s.code| && r.code[..at] == s.code[..at]
    ensures r.code[at] == s.code[at].(operand := |s.code| as real)
    ensures r.code[at + 1..] == s.code[at + 1..]
    ensures r.table == s.table && r.pool == s.pool
  {
    s.(code := s.code[at := s.code[at].(operand := |s.code| as real)])
  }

  /** `getLiteralType`: like the literal's own getType, except that the boolean keyword
      tokens count as booleans. */
  function LiteralType(k: T.TokenType): (t: A.NodeType)
    ensures t == A.BooleanLiteral <==> k in {T.True, T.False}
    ensures k !in {T.True, T.False} ==> t == A.LiteralType(k)
  {
    if k == T.IntLiteral then A.Integer
    else if k == T.FloatLiteral then A.Float
    else if k == T.StringLiteral then A.StringLiteral
    else if k == T.True || k == T.False then A.BooleanLiteral
    else A.Unknown
  }

  predicate IsNumeric(t: A.NodeType) { t == A.Integer || t == A.Float }

  predicate IsNumericOrBool(t: A.NodeType) { t == A.Integer || t == A.Float || t == A.BooleanLiteral }

  /** `resolveExpressionType`: identifiers take the type recorded in the symbol table,
      binary nodes combine their operands' resolved types, and every other node reports its
      own getType (so a unary or assignment node over an identifier reports
      IDENTIFIER_EXPRESSION). A binary node never resolves to BOOLEAN_LITERAL: booleans are
      read as integers. */
  function ResolveType(e: A.Expr, t: S.Table): (r: A.NodeType)
    ensures e.Binary? ==> r in {A.StringLiteral, A.Float, A.Integer, A.Unknown}
    ensures e.Ident? ==> r == (if S.Lookup(t, e.name.value).Some? then S.Lookup(t, e.name.value).value.kind
                               else A.Unknown)
    ensures e.Binary? ==> (r == A.StringLiteral <==> e.op.kind == T.Plus && ResolveType(e.left, t) == A.StringLiteral
                                                     && ResolveType(e.right, t) == A.StringLiteral)
    ensures e.Binary? && r != A.StringLiteral ==>
      var lr, rr := A.NumericRank(ResolveType(e.left, t)), A.NumericRank(ResolveType(e.right, t));
      r == if lr == 0 || rr == 0 then A.Unknown else if A.Max(lr, rr) == 3 then A.Float else A.Integer
    ensures !e.Ident? && !e.Binary? ==> r == A.ExprType(e)
  {
    match e
    case Ident(name) =>
      (match S.Lookup(t, name.value)
       case Some(sym) => sym.kind
       case None => A.Unknown)
    case Binary(left, op, right) => ResolveBinary(op.kind, ResolveType(left, t), ResolveType(right, t))
    case _ => A.ExprType(e)
  }

  /** The binary rule of `resolveExpressionType`, on the operands' resolved types: `+` of two
      strings is a string; otherwise two numeric or boolean operands give the higher-ranked
      type, booleans read as integers; anything else is UNKNOWN. */
  function ResolveBinary(op: T.TokenType, lt: A.NodeType, rt: A.NodeType): (r: A.NodeType)
    ensures r in {A.StringLiteral, A.Float, A.Integer, A.Unknown}
    ensures r == A.StringLiteral <==> op == T.Plus && lt == A.StringLiteral && rt == A.StringLiteral
    ensures r != A.StringLiteral ==>
      var lr, rr := A.NumericRank(lt), A.NumericRank(rt);
      r == if lr == 0 || rr == 0 then A.Unknown else if A.Max(lr, rr) == 3 then A.Float else A.Integer
  {
    if op == T.Plus && lt == A.StringLiteral && rt == A.StringLiteral then A.StringLiteral
    else if IsNumericOrBool(lt) && IsNumericOrBool(rt) then
      (if lt == A.Float || rt == A.Float then A.Float else A.Integer)
    else A.Unknown
  }

  /** The operand type the binary lowering checks: literal operands go through
      getLiteralType, all others through resolveExpressionType. */
  function OperandType(e: A.Expr, t: S.Table): (r: A.NodeType)
    ensures !(e.Literal? && e.token.kind in {T.True, T.False}) ==> r == ResolveType(e, t)
    ensures e.Literal? && e.token.kind in {T.True, T.False} ==> r == A.BooleanLiteral
  {
    if e.Literal? then LiteralType(e.token.kind) else ResolveType(e, t)
  }

  /** The declared type of `var x = init;` with the null dereference repaired: when the
      initializer's getType is IDENTIFIER_EXPRESSION, the identifier it stands for (the
      innermost operand under unary and assignment nodes) is looked up. None: that identifier
      is undeclared. */
  function DeclType(init: A.Expr, t: S.Table): (r: Option<A.NodeType>)
    ensures A.ExprType(init) != A.IdentifierExpression ==> r == Some(A.ExprType(init))
    ensures r.None? <==> A.ExprType(init) == A.IdentifierExpression && A.Core(init).Ident?
                         && S.Lookup(t, A.Core(init).name.value).None?
  {
    var k := A.ExprType(init);
    if k == A.IdentifierExpression then
      match S.Lookup(t, A.Core(init).name.value)
      case Some(sym) => Some(sym.kind)
      case None => None
    else Some(k)
  }

  /** The outcomes of the declaration-type code exactly as written. */
  datatype DeclOutcome = Typed(kind: A.NodeType) | UndeclaredInit | NullDereference

  /** The declaration-type code as written: a `dynamic_cast` to IdentifierExpression of any
      initializer whose getType is IDENTIFIER_EXPRESSION, dereferenced without a null check. */
  function DeclTypeAsWritten(init: A.Expr, t: S.Table): (r: DeclOutcome)
    ensures r == NullDereference <==> A.ExprType(init) == A.IdentifierExpression && !init.Ident?
    ensures r.Typed? ==> DeclType(init, t) == Some(r.kind)
    ensures r == UndeclaredInit ==> DeclType(init, t).None?
  {
    var k := A.ExprType(init);
    if k == A.IdentifierExpression then
      if init.Ident? then
        match S.Lookup(t, init.name.value)
        case Some(sym) => Typed(sym.kind)
        case None => UndeclaredInit
      else NullDereference
    else Typed(k)
  }

  // ---------------------------------------------------------------------------------------
  // Lowering, as functions of the compiler state.

  /** `compileNode` on an expression node: dispatches on the node's kind. */
  function CompileExpr(e: A.Expr, s: State): (r: State)
    ensures Grows(s, r) && S.SameShape(s.table, r.table)
    decreases e, 2
  {
    match e
    case Literal(tok) => CompileLiteral(tok, s)
    case BoolLiteral(tok) => CompileBool(tok, s)
    case Ident(name) => CompileIdent(name, s)
    case Assignment(_, _) => CompileAssignment(e, s)
    case Binary(_, _, _) => CompileBinary(e, s)
    case Unary(_, _) => CompileUnary(e, s)
  }

  /** A literal: an integer or float constant is pushed, a string is appended to the pool
      and pushed by its index; a literal of any other kind emits nothing. */
  function CompileLiteral(tok: T.Token, s: State): (r: State)
    ensures r.table == s.table
    ensures tok.kind !in {T.IntLiteral, T.FloatLiteral, T.StringLiteral} ==> r == s
    ensures tok.kind in {T.IntLiteral, T.FloatLiteral, T.StringLiteral}
            ==> |r.code| == |s.code| + 1 && s.code <= r.code
    ensures tok.kind == T.StringLiteral <==> r.pool != s.pool
    ensures tok.kind == T.StringLiteral ==> r.pool == s.pool + [tok.value]
  {
    if tok.kind == T.IntLiteral then Emit(s, [WithInt(PushInt, Decimal.StoiValue(tok.value))])
    else if tok.kind == T.FloatLiteral then
      Emit(s, [WithFloat(PushFloat, Decimal.StofValue(tok.value))])
    else if tok.kind == T.StringLiteral then
      State(s.code + [WithInt(PushString, |s.pool|)], s.table, s.pool + [tok.value])
    else s
  }

  /** `true` pushes 1, any other boolean literal 0. */
  function CompileBool(tok: T.Token, s: State): (r: State)
    ensures r == Emit(s, [WithInt(PushInt, if tok.kind == T.True then 1 else 0)])
  {
    Emit(s, [WithInt(PushInt, if tok.kind == T.True then 1 else 0)])
  }

  /** An identifier loads from its symbol's address, and fails when it is undeclared. */
  function CompileIdent(name: T.Token, s: State): (r: State)
    ensures r.table == s.table && r.pool == s.pool
    ensures r.code == [] <==> S.Lookup(s.table, name.value).None?
    ensures r.code != [] ==>
      r.code == s.code + [WithInt(PushInt, S.Lookup(s.table, name.value).value.address), Bare(Load)]
  {
    match S.Lookup(s.table, name.value)
    case None => Fail(s)
    case Some(sym) => Emit(s, [WithInt(PushInt, sym.address), Bare(Load)])
  }

  /** `!` emits NOT and `-` NEGATE after the operand; any other unary operator fails. */
  function CompileUnary(e: A.Expr, s: State): (r: State)
    requires e.Unary?
    ensures Grows(s, r) && S.SameShape(s.table, r.table)
    decreases e, 1
  {
    var s1 := CompileExpr(e.right, s);
    if s1.code == [] then s1
    else if e.op.kind == T.Bang then Emit(s1, [Bare(Not)])
    else if e.op.kind == T.Minus then Emit(s1, [Bare(Negate)])
    else Fail(s1)
  }

  /** Assignment: the target must be declared; the right-hand side is lowered; its resolved
      type must agree with the symbol's unless either is UNKNOWN; a symbol of type UNKNOWN
      adopts it; then the value is stored at the symbol's address. */
  function CompileAssignment(e: A.Expr, s: State): (r: State)
    requires e.Assignment?
    ensures Grows(s, r) && S.SameShape(s.table, r.table)
    decreases e, 1
  {
    var name := e.target.value;
    match S.Innermost(s.table.scopes, name)
    case None => Fail(s)
    case Some(i) =>
      var s1 := CompileExpr(e.value, s);
      if s1.code == [] then s1
      else
        assert name in s1.table.scopes[i];
        var sym := s1.table.scopes[i][name];
        var rhsType := ResolveType(e.value, s1.table);
        if sym.kind != A.Unknown && rhsType != A.Unknown && sym.kind != rhsType then Fail(s1)
        else
          var t2 := if sym.kind == A.Unknown then S.RetypeAt(s1.table, i, name, rhsType) else s1.table;
          assert S.SameShape(s.table, t2) by {
            if sym.kind == A.Unknown {
              S.RetypeKeepsShape(s1.table, i, name, rhsType);
              S.SameShapeTransitive(s.table, s1.table, t2);
            }
          }
          State(s1.code + [WithInt(PushInt, sym.address), Bare(Store)], t2, s1.pool)
  }

  predicate IsLogicalOperand(t: A.NodeType) { t == A.BooleanLiteral || t == A.Integer }

  /** The opcode of `-`, `*` and `/`. */
  function ArithmeticOpcode(k: T.TokenType): (r: Opcode)
    ensures r == Sub || r == Mul || r == Div
    ensures r == Sub <==> k == T.Minus
    ensures r == Mul <==> k == T.Star
  {
    if k == T.Minus then Sub else if k == T.Star then Mul else Div
  }

  /** The opcode of a comparison token: the one printed under the token's own name. */
  function ComparisonOpcode(k: T.TokenType): (r: Opcode)
    ensures k in ComparisonTokens ==> Name(r) == T.TypeName(k)
  {
    match k
    case Greater => Bytecode.Greater
    case Less => Bytecode.Less
    case GreaterEqual => Bytecode.GreaterEqual
    case LessEqual => Bytecode.LessEqual
    case EqualEqual => Bytecode.EqualEqual
    case _ => Bytecode.BangEqual
  }

  const ComparisonTokens: set<T.TokenType> :=
    {T.Greater, T.Less, T.GreaterEqual, T.LessEqual, T.EqualEqual, T.BangEqual}

  /** A binary node: the operand types are checked first (against the table as it stands
      before either operand is lowered), then the operands are lowered left to right. */
  function CompileBinary(e: A.Expr, s: State): (r: State)
    requires e.Binary?
    ensures Grows(s, r) && S.SameShape(s.table, r.table)
    decreases e, 1
  {
    var lt := OperandType(e.left, s.table);
    var rt := OperandType(e.right, s.table);
    var op := e.op.kind;
    if op == T.And || op == T.Or then
      if IsLogicalOperand(lt) && IsLogicalOperand(rt) then CompileShortCircuit(e, s) else Fail(s)
    else if op == T.Plus then
      if lt == A.StringLiteral && rt == A.StringLiteral then CompileOperands(e, s, ConcatString)
      else if IsNumeric(lt) && IsNumeric(rt) then CompileOperands(e, s, Add)
      else Fail(s)
    else if op in {T.Minus, T.Star, T.Slash} then
      if IsNumeric(lt) && IsNumeric(rt) then CompileOperands(e, s, ArithmeticOpcode(op)) else Fail(s)
    else if op in ComparisonTokens then
      if IsNumeric(lt) && IsNumeric(rt) then CompileOperands(e, s, ComparisonOpcode(op)) else Fail(s)
    else Fail(s)
  }

  /** Left operand, right operand, then the operator's instruction. */
  function CompileOperands(e: A.Expr, s: State, opcode: Opcode): (r: State)
    requires e.Binary?
    ensures Grows(s, r) && S.SameShape(s.table, r.table)
    decreases e, 0
  {
    var s1 := CompileExpr(e.left, s);
    if s1.code == [] then s1
    else
      var s2 := CompileExpr(e.right, s1);
      if s2.code == [] then s2 else Emit(s2, [Bare(opcode)])
  }

  /** `&&` and `||`: code(L), a conditional jump to the constant, code(R), a jump over the
      constant, the constant (0 for `&&`, 1 for `||`); both jump targets are backpatched. */
  function CompileShortCircuit(e: A.Expr, s: State): (r: State)
    requires e.Binary?
    ensures Grows(s, r) && S.SameShape(s.table, r.table)
    decreases e, 0
  {
    var isAnd := e.op.kind == T.And;
    var s1 := CompileExpr(e.left, s);
    if s1.code == [] then s1
    else
      var j := |s1.code|;
      var s2 := Emit(s1, [WithInt(if isAnd then JumpIfFalse else JumpIfTrue, 0)]);
      var s3 := CompileExpr(e.right, s2);
      if s3.code == [] then s3
      else
        var k := |s3.code|;
        var s4 := Emit(s3, [WithInt(Jump, 0)]);
        var s5 := PatchToEnd(s4, j);
        var s6 := Emit(s5, [WithInt(PushInt, if isAnd then 0 else 1)]);
        GrowsTransitive(s, s1, s2);
        GrowsTransitive(s, s2, s3);
        GrowsTransitive(s, s3, s4);
        PatchGrows(s, s4, j);
        GrowsTransitive(s, s5, s6);
        PatchGrows(s, s6, k);
        S.SameShapeTransitive(s.table, s1.table, s3.table);
        PatchToEnd(s6, k)
  }

  /** `compileNode` on a statement node (an expression statement is lowered as its
      expression, with nothing popped afterwards). */
  function CompileStmt(st: A.Stmt, s: State): (r: State)
    ensures Grows(s, r)
    decreases st, 2
  {
    match st
    case ExprStmt(e) => CompileExpr(e, s)
    case VarDecl(_, _) => CompileVarDecl(st, s)
    case If(_, _, _) => CompileIf(st, s)
    case Block(_) => CompileBlock(st, s)
    case Print(_) => CompilePrint(st, s)
  }

  /** A block: enters a scope, lowers the statements, and leaves the scope unless it stopped
      early. */
  function CompileBlock(st: A.Stmt, s: State): (r: State)
    requires st.Block?
    ensures Grows(s, r)
    decreases st, 1
  {
    var (r, aborted) := CompileItems(st.stmts, s.(table := S.Enter(s.table)));
    if aborted then r else r.(table := S.Exit(r.table))
  }

  /** `print`: the expression, then PRINT_STRING when its resolved type (read after it is
      lowered) is STRING_LITERAL, PRINT_VALUE otherwise. */
  function CompilePrint(st: A.Stmt, s: State): (r: State)
    requires st.Print?
    ensures Grows(s, r)
    decreases st, 1
  {
    var s1 := CompileExpr(st.expr, s);
    if s1.code == [] then s1
    else if ResolveType(st.expr, s1.table) == A.StringLiteral then Emit(s1, [Bare(PrintString)])
    else Emit(s1, [Bare(PrintValue)])
  }

  /** The statement loop of a block: stops, without leaving the block's scope, as soon as the
      buffer is empty after a statement. The flag says whether it stopped early. */
  function CompileItems(stmts: seq<A.Stmt>, s: State): (r: (State, bool))
    ensures Grows(s, r.0)
    ensures r.1 ==> r.0.code == []
    ensures !r.1 && stmts != [] ==> r.0.code != []
    decreases stmts, 2
  {
    if stmts == [] then (s, false)
    else
      var s1 := CompileStmt(stmts[0], s);
      if s1.code == [] then (s1, true) else CompileItems(stmts[1..], s1)
  }

  /** `var x;` and `var x = init;`: the type is found first, the symbol added next (so the
      initializer already sees the new name), then the initializer is lowered and stored. */
  function CompileVarDecl(st: A.Stmt, s: State): (r: State)
    requires st.VarDecl?
    ensures Grows(s, r)
    decreases st, 1
  {
    var kind := if st.init.None? then Some(A.Unknown) else DeclType(st.init.value, s.table);
    match kind
    case None => Fail(s)
    case Some(k) =>
      var (ok, t1) := S.Add(s.table, st.name.value, k);
      if !ok then Fail(s)
      else if st.init.None? then s.(table := t1)
      else CompileInitializer(st, s.(table := t1))
  }

  /** The initializer of a declaration whose symbol is already added: its value is lowered
      and stored at the symbol's address. */
  function CompileInitializer(st: A.Stmt, s: State): (r: State)
    requires st.VarDecl? && st.init.Some?
    ensures Grows(s, r)
    decreases st, 0
  {
    var s1 := CompileExpr(st.init.value, s);
    if s1.code == [] then s1
    else
      match S.Lookup(s1.table, st.name.value)
      case None => Fail(s1)
      case Some(sym) => Emit(s1, [WithInt(PushInt, sym.address), Bare(Store)])
  }

  /** `if`: condition, JUMP_IF_FALSE, then-branch, and with an else-branch a JUMP over it; the
      conditional jump is patched to the slot after the then-branch (after the JUMP when there
      is one), the JUMP to the slot after the else-branch. */
  function CompileIf(st: A.Stmt, s: State): (r: State)
    requires st.If?
    ensures Grows(s, r)
    decreases st, 1
  {
    var s1 := CompileExpr(st.cond, s);
    if s1.code == [] then s1
    else
      var j := |s1.code|;
      var s2 := Emit(s1, [WithInt(JumpIfFalse, 0)]);
      var s3 := CompileStmt(st.thenBranch, s2);
      if s3.code == [] then s3
      else
        GrowsTransitive(s, s1, s2);
        GrowsTransitive(s, s2, s3);
        if st.elseBranch.None? then PatchGrows(s, s3, j); PatchToEnd(s3, j)
        else
          var k := |s3.code|;
          var s4 := Emit(s3, [WithInt(Jump, 0)]);
          var s5 := PatchToEnd(s4, j);
          var s6 := CompileStmt(st.elseBranch.value, s5);
          GrowsTransitive(s, s3, s4);
          PatchGrows(s, s4, j);
          if s6.code == [] then s6
          else
            GrowsTransitive(s, s5, s6);
            PatchGrows(s, s6, k);
            PatchToEnd(s6, k)
  }

  /** `compile`: clears the buffer, enters a scope, lowers the tree, leaves the scope, and
      returns nothing when there was no tree or the buffer is empty, otherwise the buffer with
      one HALT appended (which stays in the buffer). */
  function CompileProgram(ast: Option<A.Stmt>, s: State): (r: (seq<Instr>, State))
    ensures r.0 == [] || (r.0[|r.0| - 1] == Bare(Halt) && ast.Some?)
    ensures r.1.code == r.0
    ensures |s.pool| <= |r.1.pool| && r.1.pool[..|s.pool|] == s.pool
  {
    var s0 := State([], S.Enter(s.table), s.pool);
    var s1 := if ast.Some? then CompileStmt(ast.value, s0) else s0;
    var s2 := s1.(table := S.Exit(s1.table));
    if ast.None? || s2.code == [] then ([], s2)
    else (s2.code + [Bare(Halt)], Emit(s2, [Bare(Halt)]))
  }

  /** The text `getStringLiteral` returns for an index outside the pool. */
  const IndexOutOfBounds: string := "ERROR: String literal index out of bounds"

  /** `getStringLiteral`: the pooled string at `index`, or the fixed error text. */
  function StringLiteralAt(pool: seq<string>, index: int): (r: string)
    ensures 0 <= index < |pool| ==> r == pool[index]
    ensures !(0 <= index < |pool|) ==> r == IndexOutOfBounds
  {
    if 0 <= index < |pool| then pool[index] else IndexOutOfBounds
  }

  // ---------------------------------------------------------------------------------------
  // The compiler object.

  class Compiler {
    var bytecode: seq<Instr>
    const symbolTable: S.SymbolTable
    var stringLiterals: seq<string>

    function Current(): State
      reads this, symbolTable
    {
      State(bytecode, symbolTable.Value(), stringLiterals)
    }

    /** A fresh compiler: empty buffer and pool, a table holding the global scope. */
    constructor ()
      ensures Current() == State([], S.Initial(), [])
      ensures fresh(symbolTable)
    {
      bytecode := [];
      stringLiterals := [];
      symbolTable := new S.SymbolTable();
    }

    method GetStringLiteral(index: int) returns (r: string)
      ensures r == StringLiteralAt(stringLiterals, index)
    {
      if 0 <= index < |stringLiterals| {
        r := stringLiterals[index];
      } else {
        r := IndexOutOfBounds;
      }
    }

    method GetStringLiterals() returns (r: seq<string>)
      ensures r == stringLiterals
    {
      r := stringLiterals;
    }

    method Compile(ast: Option<A.Stmt>) returns (program: seq<Instr>)
      modifies this, symbolTable
      ensures (program, Current()) == CompileProgram(ast, old(Current()))
    {
      bytecode := [];
      symbolTable.EnterScope();
      if ast.Some? {
        CompileNode(ast.value);
      }
      symbolTable.ExitScope();
      if ast.None? || bytecode == [] {
        return [];
      }
      bytecode := bytecode + [Bare(Halt)];
      program := bytecode;
    }

    method CompileNode(st: A.Stmt)
      modifies this, symbolTable
      ensures Current() == CompileStmt(st, old(Current()))
      decreases st, 2
    {
      match st
      case ExprStmt(e) =>
        CompileExpression(e);
      case VarDecl(_, _) =>
        CompileVariableDeclaration(st);
      case If(_, _, _) =>
        CompileIfStatement(st);
      case Block(_) =>
        CompileBlockStatement(st);
      case Print(_) =>
        CompilePrintStatement(st);
    }

    method CompilePrintStatement(st: A.Stmt)
      requires st.Print?
      modifies this, symbolTable
      ensures Current() == CompilePrint(st, old(Current()))
      decreases st, 1
    {
      CompileExpression(st.expr);
      if bytecode == [] {
        return;
      }
      var kind := ResolveType(st.expr, symbolTable.Value());
      if kind == A.StringLiteral {
        bytecode := bytecode + [Bare(PrintString)];
      } else {
        bytecode := bytecode + [Bare(PrintValue)];
      }
    }

    method CompileBlockStatement(st: A.Stmt)
      requires st.Block?
      modifies this, symbolTable
      ensures Current() == CompileBlock(st, old(Current()))
      decreases st, 1
    {
      symbolTable.EnterScope();
      ghost var entered := Current();
      var i := 0;
      while i < |st.stmts|
        invariant 0 <= i <= |st.stmts|
        invariant CompileItems(st.stmts, entered) == CompileItems(st.stmts[i..], Current())
        invariant i > 0 ==> bytecode != []
      {
        assert st.stmts[i..][1..] == st.stmts[i + 1..];
        CompileNode(st.stmts[i]);
        if bytecode == [] {
          return;
        }
        i := i + 1;
      }
      symbolTable.ExitScope();
    }

    method CompileVariableDeclaration(st: A.Stmt)
      requires st.VarDecl?
      modifies this, symbolTable
      ensures Current() == CompileVarDecl(st, old(Current()))
      decreases st, 1
    {
      var name := st.name.value;
      var kind: A.NodeType := A.Unknown;
      if st.init.Some? {
        var init := st.init.value;
        kind := A.ExprType(init);
        if kind == A.IdentifierExpression {
          var where := symbolTable.LookupSymbol(A.Core(init).name.value);
          if where.None? {
            bytecode := [];
            return;
          }
          kind := symbolTable.scopes[where.value][A.Core(init).name.value].kind;
        }
      }
      var ok := symbolTable.AddSymbol(name, kind);
      if !ok {
        bytecode := [];
        return;
      }
      if st.init.Some? {
        CompileInitializerExpression(st);
      }
    }

    method CompileInitializerExpression(st: A.Stmt)
      requires st.VarDecl? && st.init.Some?
      modifies this, symbolTable
      ensures Current() == CompileInitializer(st, old(Current()))
      decreases st, 0
    {
      var name := st.name.value;
      CompileExpression(st.init.value);
      if bytecode == [] {
        return;
      }
      var where := symbolTable.LookupSymbol(name);
      if where.None? {
        bytecode := [];
        return;
      }
      var address := symbolTable.scopes[where.value][name].address;
      bytecode := bytecode + [WithInt(PushInt, address), Bare(Store)];
    }

    method CompileIfStatement(st: A.Stmt)
      requires st.If?
      modifies this, symbolTable
      ensures Current() == CompileIf(st, old(Current()))
      decreases st, 1
    {
      CompileExpression(st.cond);
      if bytecode == [] {
        return;
      }
      ghost var s1 := Current();
      var jumpIfFalseAt := |bytecode|;
      bytecode := bytecode + [WithInt(JumpIfFalse, 0)];
      assert Current() == Emit(s1, [WithInt(JumpIfFalse, 0)]);
      CompileNode(st.thenBranch);
      if bytecode == [] {
        return;
      }
      FinishIfStatement(st, old(Current()), s1, jumpIfFalseAt);
    }

    /** The rest of `compileIfStatement` once the then-branch is lowered: the jump over the
        else-branch, the backpatches, and the else-branch itself. */
    method FinishIfStatement(st: A.Stmt, ghost s: State, ghost s1: State, jumpIfFalseAt: nat)
      requires st.If? && s1 == CompileExpr(st.cond, s) && s1.code != []
      requires jumpIfFalseAt == |s1.code|
      requires Current() == CompileStmt(st.thenBranch, Emit(s1, [WithInt(JumpIfFalse, 0)]))
      requires bytecode != []
      modifies this, symbolTable
      ensures Current() == CompileIf(st, s)
      decreases st, 0
    {
      ghost var s3 := Current();
      assert jumpIfFalseAt < |bytecode|;
      var jumpToEndAt := -1;
      if st.elseBranch.Some? {
        jumpToEndAt := |bytecode|;
        bytecode := bytecode + [WithInt(Jump, 0)];
        assert Current() == Emit(s3, [WithInt(Jump, 0)]);
      }
      bytecode := bytecode[jumpIfFalseAt := bytecode[jumpIfFalseAt].(operand := |bytecode| as real)];
      if st.elseBranch.Some? {
        assert Current() == PatchToEnd(Emit(s3, [WithInt(Jump, 0)]), jumpIfFalseAt);
        CompileNode(st.elseBranch.value);
        if bytecode == [] {
          return;
        }
        bytecode := bytecode[jumpToEndAt := bytecode[jumpToEndAt].(operand := |bytecode| as real)];
      } else {
        assert Current() == PatchToEnd(s3, jumpIfFalseAt);
      }
    }

    method CompileExpression(e: A.Expr)
      modifies this, symbolTable
      ensures Current() == CompileExpr(e, old(Current()))
      decreases e, 2
    {
      match e
      case Literal(tok) => CompileLiteralExpression(tok);
      case BoolLiteral(tok) => CompileBooleanLiteral(tok);
      case Ident(name) => CompileIdentifier(name);
      case Assignment(_, _) => CompileAssignmentExpression(e);
      case Binary(_, _, _) => CompileBinaryExpression(e);
      case Unary(_, _) => CompileUnaryExpression(e);
    }

    method CompileLiteralExpression(tok: T.Token)
      modifies this
      ensures Current() == CompileLiteral(tok, old(Current()))
    {
      if tok.kind == T.IntLiteral {
        bytecode := bytecode + [WithInt(PushInt, Decimal.StoiValue(tok.value))];
      } else if tok.kind == T.FloatLiteral {
        bytecode := bytecode + [WithFloat(PushFloat, Decimal.StofValue(tok.value))];
      } else if tok.kind == T.StringLiteral {
        var index := |stringLiterals|;
        stringLiterals := stringLiterals + [tok.value];
        bytecode := bytecode + [WithInt(PushString, index)];
      }
    }

    method CompileBooleanLiteral(tok: T.Token)
      modifies this
      ensures Current() == CompileBool(tok, old(Current()))
    {
      if tok.kind == T.True {
        bytecode := bytecode + [WithInt(PushInt, 1)];
      } else {
        bytecode := bytecode + [WithInt(PushInt, 0)];
      }
    }

    method CompileIdentifier(name: T.Token)
      modifies this
      ensures Current() == CompileIdent(name, old(Current()))
    {
      var where := symbolTable.LookupSymbol(name.value);
      if where.None? {
        bytecode := [];
        return;
      }
      var address := symbolTable.scopes[where.value][name.value].address;
      bytecode := bytecode + [WithInt(PushInt, address), Bare(Load)];
    }

    method CompileUnaryExpression(e: A.Expr)
      requires e.Unary?
      modifies this, symbolTable
      ensures Current() == CompileUnary(e, old(Current()))
      decreases e, 1
    {
      CompileExpression(e.right);
      if bytecode == [] {
        return;
      }
      if e.op.kind == T.Bang {
        bytecode := bytecode + [Bare(Not)];
      } else if e.op.kind == T.Minus {
        bytecode := bytecode + [Bare(Negate)];
      } else {
        bytecode := [];
      }
    }

    method CompileAssignmentExpression(e: A.Expr)
      requires e.Assignment?
      modifies this, symbolTable
      ensures Current() == CompileAssignment(e, old(Current()))
      decreases e, 1
    {
      var name := e.target.value;
      var where := symbolTable.LookupSymbol(name);
      if where.None? {
        bytecode := [];
        return;
      }
      ghost var before := symbolTable.Value();
      CompileExpression(e.value);
      if bytecode == [] {
        return;
      }
      assert S.SameShape(before, symbolTable.Value());
      var i := where.value;
      var sym := symbolTable.scopes[i][name];
      var rhsType := ResolveType(e.value, symbolTable.Value());
      if sym.kind != A.Unknown && rhsType != A.Unknown && sym.kind != rhsType {
        bytecode := [];
        return;
      }
      if sym.kind == A.Unknown {
        symbolTable.SetSymbolType(i, name, rhsType);
      }
      bytecode := bytecode + [WithInt(PushInt, sym.address), Bare(Store)];
    }

    method CompileBinaryExpression(e: A.Expr)
      requires e.Binary?
      modifies this, symbolTable
      ensures Current() == CompileBinary(e, old(Current()))
      decreases e, 1
    {
      var lt := OperandType(e.left, symbolTable.Value());
      var rt := OperandType(e.right, symbolTable.Value());
      var op := e.op.kind;
      if op == T.And || op == T.Or {
        if !(IsLogicalOperand(lt) && IsLogicalOperand(rt)) {
          bytecode := [];
          return;
        }
        CompileShortCircuitExpression(e);
      } else if op == T.Plus {
        if lt == A.StringLiteral && rt == A.StringLiteral {
          CompileOperandsThen(e, ConcatString);
        } else if IsNumeric(lt) && IsNumeric(rt) {
          CompileOperandsThen(e, Add);
        } else {
          bytecode := [];
        }
      } else if op in {T.Minus, T.Star, T.Slash} {
        if !(IsNumeric(lt) && IsNumeric(rt)) {
          bytecode := [];
          return;
        }
        CompileOperandsThen(e, ArithmeticOpcode(op));
      } else if op in ComparisonTokens {
        if !(IsNumeric(lt) && IsNumeric(rt)) {
          bytecode := [];
          return;
        }
        CompileOperandsThen(e, ComparisonOpcode(op));
      } else {
        bytecode := [];
      }
    }

    method CompileOperandsThen(e: A.Expr, opcode: Opcode)
      requires e.Binary?
      modifies this, symbolTable
      ensures Current() == CompileOperands(e, old(Current()), opcode)
      decreases e, 0
    {
      CompileExpression(e.left);
      if bytecode == [] {
        return;
      }
      CompileExpression(e.right);
      if bytecode == [] {
        return;
      }
      bytecode := bytecode + [Bare(opcode)];
    }

    method CompileShortCircuitExpression(e: A.Expr)
      requires e.Binary?
      modifies this, symbolTable
      ensures Current() == CompileShortCircuit(e, old(Current()))
      decreases e, 0
    {
      var isAnd := e.op.kind == T.And;
      CompileExpression(e.left);
      if bytecode == [] {
        return;
      }
      var jumpAt := |bytecode|;
      bytecode := bytecode + [WithInt(if isAnd then JumpIfFalse else JumpIfTrue, 0)];
      CompileExpression(e.right);
      if bytecode == [] {
        return;
      }
      var jumpToEndAt := |bytecode|;
      bytecode := bytecode + [WithInt(Jump, 0)];
      bytecode := bytecode[jumpAt := bytecode[jumpAt].(operand := |bytecode| as real)];
      bytecode := bytecode + [WithInt(PushInt, if isAnd then 0 else 1)];
      bytecode := bytecode[jumpToEndAt := bytecode[jumpToEndAt].(operand := |bytecode| as real)];
    }
  }
}
