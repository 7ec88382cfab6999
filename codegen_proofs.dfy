/** Properties of the compiler model (src/Compiler.cpp): the emitted code only jumps to slots
    inside the program and only indexes the string pool where it has entries; a successful
    compile leaves the symbol table's scopes as it found them; the short-circuit and `if`
    layouts; how type resolution relates to getType; and the declaration-type defect. */
module CompilerFacts {
  import opened Options
  import opened Bytecode
  import T = Tokens
  import A = Ast
  import S = Symbols
  import opened CodeGen
  import Decimal

  // ---------------------------------------------------------------------------------------
  // Jump targets and pool indexes.

  predicate IsJump(op: Opcode) { op == Jump || op == JumpIfFalse || op == JumpIfTrue }

  /** A whole-number operand in [lo, hi). */
  predicate WholeIn(x: real, lo: int, hi: int) { x == x.Floor as real && lo <= x.Floor < hi }

  /** An instruction of a buffer of `codeSize` instructions over a pool of `poolSize` strings:
      jumps go to a slot of the buffer or the one just past it (where HALT will be), string
      pushes name a pooled string, and the opcodes the compiler never emits do not occur. */
  predicate InstrSound(ins: Instr, codeSize: nat, poolSize: nat)
  {
    && (IsJump(ins.op) ==> WholeIn(ins.operand, 0, codeSize + 1))
    && (ins.op == PushString ==> WholeIn(ins.operand, 0, poolSize))
    && ins.op != Halt && ins.op != Pop && ins.op != And && ins.op != Or
  }

  predicate Sound(s: State)
  {
    forall i :: 0 <= i < |s.code| ==> InstrSound(s.code[i], |s.code|, |s.pool|)
  }

  /** An operator instruction without operand that the compiler appends after operands. */
  predicate PlainOperator(op: Opcode)
  {
    !IsJump(op) && op != PushString && op != Halt && op != Pop && op != And && op != Or
  }

  lemma {:induction false} AppendSound(s: State, r: State, instrs: seq<Instr>)
    requires Sound(s) && r.code == s.code + instrs && |s.pool| <= |r.pool|
    requires forall k :: 0 <= k < |instrs| ==> InstrSound(instrs[k], |r.code|, |r.pool|)
    ensures Sound(r)
  {
    forall i | 0 <= i < |r.code|
      ensures InstrSound(r.code[i], |r.code|, |r.pool|)
    {
      if i < |s.code| {
        assert r.code[i] == s.code[i];
        assert InstrSound(s.code[i], |s.code|, |s.pool|);
      } else {
        assert r.code[i] == instrs[i - |s.code|];
      }
    }
  }

  lemma {:induction false} PatchSound(s: State, at: nat)
    requires Sound(s) && at < |s.code| && IsJump(s.code[at].op)
    ensures Sound(PatchToEnd(s, at))
  {
    var r := PatchToEnd(s, at);
    forall i | 0 <= i < |r.code|
      ensures InstrSound(r.code[i], |r.code|, |r.pool|)
    {
      if i < at {
        assert r.code[i] == r.code[..at][i] == s.code[..at][i] == s.code[i];
      } else if i > at {
        assert r.code[i] == r.code[at + 1..][i - at - 1] == s.code[at + 1..][i - at - 1];
      }
    }
  }

  /** A lowering that succeeds keeps the buffer it was given as a prefix, so an instruction
      already there stays where it was. */
  lemma {:induction false} KeptAt(s: State, r: State, i: nat)
    requires Grows(s, r) && r.code != [] && i < |s.code|
    ensures r.code[i] == s.code[i]
  {
  }

  lemma {:induction false} ExprSound(e: A.Expr, s: State)
    requires Sound(s)
    ensures Sound(CompileExpr(e, s))
    decreases e, 2
  {
    match e
    case Literal(tok) => LiteralSound(tok, s);
    case BoolLiteral(tok) => BoolSound(tok, s);
    case Ident(name) => IdentSound(name, s);
    case Assignment(_, _) => AssignmentSound(e, s);
    case Binary(_, _, _) => BinarySound(e, s);
    case Unary(_, _) => UnarySound(e, s);
  }

  lemma {:induction false} BoolSound(tok: T.Token, s: State)
    requires Sound(s)
    ensures Sound(CompileBool(tok, s))
  {
    var ins := [WithInt(PushInt, if tok.kind == T.True then 1 else 0)];
    AppendSound(s, Emit(s, ins), ins);
  }

  lemma {:induction false} IdentSound(name: T.Token, s: State)
    requires Sound(s)
    ensures Sound(CompileIdent(name, s))
  {
    if S.Lookup(s.table, name.value).Some? {
      var ins := [WithInt(PushInt, S.Lookup(s.table, name.value).value.address), Bare(Load)];
      AppendSound(s, Emit(s, ins), ins);
    }
  }

  lemma {:induction false} UnarySound(e: A.Expr, s: State)
    requires e.Unary? && Sound(s)
    ensures Sound(CompileUnary(e, s))
    decreases e, 1
  {
    ExprSound(e.right, s);
    var s1 := CompileExpr(e.right, s);
    if s1.code != [] {
      AppendSound(s1, Emit(s1, [Bare(Not)]), [Bare(Not)]);
      AppendSound(s1, Emit(s1, [Bare(Negate)]), [Bare(Negate)]);
    }
  }

  lemma {:induction false} LiteralSound(tok: T.Token, s: State)
    requires Sound(s)
    ensures Sound(CompileExpr(A.Literal(tok), s))
  {
    var r := CompileExpr(A.Literal(tok), s);
    if tok.kind == T.IntLiteral {
      var ins := [WithInt(PushInt, Decimal.StoiValue(tok.value))];
      assert r == Emit(s, ins);
      AppendSound(s, r, ins);
    } else if tok.kind == T.FloatLiteral {
      var ins := [WithFloat(PushFloat, Decimal.StofValue(tok.value))];
      assert r == Emit(s, ins);
      AppendSound(s, r, ins);
    } else if tok.kind == T.StringLiteral {
      AppendSound(s, r, [WithInt(PushString, |s.pool|)]);
    }
  }

  lemma {:induction false} AssignmentSound(e: A.Expr, s: State)
    requires e.Assignment? && Sound(s)
    ensures Sound(CompileAssignment(e, s))
    decreases e, 1
  {
    var r := CompileAssignment(e, s);
    ExprSound(e.value, s);
    var s1 := CompileExpr(e.value, s);
    AssignmentAssembles(e, s);
    if r.code != [] {
      StoreTailSound(s1, r);
    }
  }

  /** A buffer that extends a sound one by a push of an address and STORE is sound. */
  lemma {:induction false} StoreTailSound(s1: State, r: State)
    requires Sound(s1) && r.pool == s1.pool
    requires |r.code| == |s1.code| + 2 && r.code[..|s1.code|] == s1.code
    requires r.code[|s1.code|].op == PushInt && r.code[|s1.code| + 1] == Bare(Store)
    ensures Sound(r)
  {
    var n := |s1.code|;
    assert r.code == s1.code + r.code[n..];
    AppendSound(s1, r, r.code[n..]);
  }

  /** A successful assignment appends to its value's code exactly a push of an address and
      STORE, and interns no string of its own. */
  lemma {:induction false} AssignmentAssembles(e: A.Expr, s: State)
    requires e.Assignment?
    ensures var r := CompileAssignment(e, s); var s1 := CompileExpr(e.value, s); var n := |s1.code|;
      r.code != [] ==>
        && r.pool == s1.pool && |r.code| == n + 2 && r.code[..n] == s1.code
        && r.code[n].op == PushInt && r.code[n + 1] == Bare(Store)
  {
  }

  lemma {:induction false} BinarySound(e: A.Expr, s: State)
    requires e.Binary? && Sound(s)
    ensures Sound(CompileBinary(e, s))
    decreases e, 1
  {
    var op := e.op.kind;
    var lt := OperandType(e.left, s.table);
    var rt := OperandType(e.right, s.table);
    if op == T.And || op == T.Or {
      ShortCircuitSound(e, s);
    } else if op == T.Plus {
      if lt == A.StringLiteral && rt == A.StringLiteral {
        OperandsSound(e, s, ConcatString);
      } else {
        OperandsSound(e, s, Add);
      }
    } else if op in {T.Minus, T.Star, T.Slash} {
      OperandsSound(e, s, ArithmeticOpcode(op));
    } else {
      OperandsSound(e, s, ComparisonOpcode(op));
    }
  }

  lemma {:induction false} OperandsSound(e: A.Expr, s: State, opcode: Opcode)
    requires e.Binary? && Sound(s) && PlainOperator(opcode)
    ensures Sound(CompileOperands(e, s, opcode))
    decreases e, 0
  {
    ExprSound(e.left, s);
    var s1 := CompileExpr(e.left, s);
    ExprSound(e.right, s1);
    var s2 := CompileExpr(e.right, s1);
    var r := CompileOperands(e, s, opcode);
    if r.code != [] {
      AppendSound(s2, r, [Bare(opcode)]);
    }
  }

  lemma {:induction false} ShortCircuitSound(e: A.Expr, s: State)
    requires e.Binary? && Sound(s)
    ensures Sound(CompileShortCircuit(e, s))
    decreases e, 0
  {
    ExprSound(e.left, s);
    ShortCircuitAssembles(e, s);
    if CompileExpr(e.left, s).code != [] {
      ShortCircuitRightSound(e, CompileExpr(e.left, s));
    }
  }

  /** The right operand of `&&`/`||`, lowered after the conditional jump, and the tail. */
  lemma {:induction false} ShortCircuitRightSound(e: A.Expr, s1: State)
    requires e.Binary? && Sound(s1)
    ensures var op := if e.op.kind == T.And then JumpIfFalse else JumpIfTrue;
      var s3 := CompileExpr(e.right, Emit(s1, [WithInt(op, 0)]));
      s3.code != [] ==>
        Sound(PatchToEnd(Emit(PatchToEnd(Emit(s3, [WithInt(Jump, 0)]), |s1.code|),
                             [WithInt(PushInt, if e.op.kind == T.And then 0 else 1)]), |s3.code|))
    decreases e.right, 3
  {
    var op := if e.op.kind == T.And then JumpIfFalse else JumpIfTrue;
    var s2 := Emit(s1, [WithInt(op, 0)]);
    AppendSound(s1, s2, [WithInt(op, 0)]);
    ExprSound(e.right, s2);
    var s3 := CompileExpr(e.right, s2);
    if s3.code != [] {
      ShortCircuitTailSound(s1, s3, op, if e.op.kind == T.And then 0 else 1);
    }
  }

  /** Appending and patching the short-circuit tail keeps a buffer sound. */
  lemma {:induction false} ShortCircuitTailSound(s1: State, s3: State, op: Opcode, c: int)
    requires Sound(s3) && s3.code != [] && IsJump(op)
    requires Grows(Emit(s1, [WithInt(op, 0)]), s3)
    ensures var k := |s3.code|;
      Sound(PatchToEnd(Emit(PatchToEnd(Emit(s3, [WithInt(Jump, 0)]), |s1.code|),
                           [WithInt(PushInt, c)]), k))
  {
    var j := |s1.code|;
    var k := |s3.code|;
    KeptAt(Emit(s1, [WithInt(op, 0)]), s3, j);
    var s4 := Emit(s3, [WithInt(Jump, 0)]);
    AppendSound(s3, s4, [WithInt(Jump, 0)]);
    PatchSound(s4, j);
    var s5 := PatchToEnd(s4, j);
    var s6 := Emit(s5, [WithInt(PushInt, c)]);
    AppendSound(s5, s6, [WithInt(PushInt, c)]);
    assert s6.code[k] == s5.code[k] == s4.code[k];
    PatchSound(s6, k);
  }

  lemma {:induction false} StmtSound(st: A.Stmt, s: State)
    requires Sound(s)
    ensures Sound(CompileStmt(st, s))
    decreases st, 2
  {
    match st
    case ExprStmt(e) => ExprSound(e, s);
    case VarDecl(_, _) => VarDeclSound(st, s);
    case If(_, _, _) => IfSound(st, s);
    case Block(stmts) => ItemsSound(stmts, s.(table := S.Enter(s.table)));
    case Print(e) => PrintSound(st, s);
  }

  lemma {:induction false} PrintSound(st: A.Stmt, s: State)
    requires st.Print? && Sound(s)
    ensures Sound(CompilePrint(st, s))
    decreases st, 0
  {
    ExprSound(st.expr, s);
    var s1 := CompileExpr(st.expr, s);
    if s1.code != [] {
      AppendSound(s1, Emit(s1, [Bare(PrintString)]), [Bare(PrintString)]);
      AppendSound(s1, Emit(s1, [Bare(PrintValue)]), [Bare(PrintValue)]);
    }
  }

  lemma {:induction false} ItemsSound(stmts: seq<A.Stmt>, s: State)
    requires Sound(s)
    ensures Sound(CompileItems(stmts, s).0)
    decreases stmts, 2
  {
    if stmts != [] {
      StmtSound(stmts[0], s);
      ItemsSound(stmts[1..], CompileStmt(stmts[0], s));
    }
  }

  lemma {:induction false} VarDeclSound(st: A.Stmt, s: State)
    requires st.VarDecl? && Sound(s)
    ensures Sound(CompileVarDecl(st, s))
    decreases st, 1
  {
    var kind := if st.init.None? then Some(A.Unknown) else DeclType(st.init.value, s.table);
    if kind.Some? {
      var (ok, t1) := S.Add(s.table, st.name.value, kind.value);
      if ok && st.init.Some? {
        InitializerSound(st, s.(table := t1));
      }
    }
  }

  lemma {:induction false} InitializerSound(st: A.Stmt, s: State)
    requires st.VarDecl? && st.init.Some? && Sound(s)
    ensures Sound(CompileInitializer(st, s))
    decreases st, 0
  {
    ExprSound(st.init.value, s);
    var s1 := CompileExpr(st.init.value, s);
    if s1.code != [] {
      match S.Lookup(s1.table, st.name.value)
      case None =>
      case Some(sym) =>
        var ins := [WithInt(PushInt, sym.address), Bare(Store)];
        AppendSound(s1, Emit(s1, ins), ins);
    }
  }

  lemma {:induction false} IfSound(st: A.Stmt, s: State)
    requires st.If? && Sound(s)
    ensures Sound(CompileIf(st, s))
    decreases st, 1
  {
    ExprSound(st.cond, s);
    var s1 := CompileExpr(st.cond, s);
    IfAssembles(st, s);
    if s1.code != [] {
      IfBranchesSound(st, s1);
    }
  }

  /** How a successful `if` is put together from its pieces. */
  lemma {:induction false} IfAssembles(st: A.Stmt, s: State)
    requires st.If?
    ensures var r := CompileIf(st, s);
      var s1 := CompileExpr(st.cond, s);
      var s3 := CompileStmt(st.thenBranch, Emit(s1, [WithInt(JumpIfFalse, 0)]));
      r.code != [] ==>
        && s1.code != [] && s3.code != []
        && (st.elseBranch.None? ==> r == PatchToEnd(s3, |s1.code|))
        && (st.elseBranch.Some? ==>
              var s6 := CompileStmt(st.elseBranch.value, PatchToEnd(Emit(s3, [WithInt(Jump, 0)]), |s1.code|));
              s6.code != [] && r == PatchToEnd(s6, |s3.code|))
  {
  }

  lemma {:induction false} IfBranchesSound(st: A.Stmt, s1: State)
    requires st.If? && Sound(s1) && s1.code != []
    ensures var j := |s1.code|;
      var s3 := CompileStmt(st.thenBranch, Emit(s1, [WithInt(JumpIfFalse, 0)]));
      s3.code != [] ==>
        && j < |s3.code|
        && (st.elseBranch.None? ==> Sound(PatchToEnd(s3, j)))
        && (st.elseBranch.Some? ==>
              var s6 := CompileStmt(st.elseBranch.value, PatchToEnd(Emit(s3, [WithInt(Jump, 0)]), j));
              s6.code != [] ==> Sound(PatchToEnd(s6, |s3.code|)))
    decreases st, 0
  {
    var j := |s1.code|;
    var s2 := Emit(s1, [WithInt(JumpIfFalse, 0)]);
    AppendSound(s1, s2, [WithInt(JumpIfFalse, 0)]);
    StmtSound(st.thenBranch, s2);
    var s3 := CompileStmt(st.thenBranch, s2);
    if s3.code != [] {
      KeptAt(s2, s3, j);
      if st.elseBranch.None? {
        PatchSound(s3, j);
      } else {
        ElseSound(st.elseBranch.value, s3, j);
      }
    }
  }

  /** The else-branch part of an `if`: after the then-branch's buffer `s3`, whose conditional
      jump sits at `j`, a JUMP is appended, the conditional jump patched, the else-branch
      lowered and the JUMP patched. */
  lemma {:induction false} ElseSound(els: A.Stmt, s3: State, j: nat)
    requires Sound(s3) && j < |s3.code| && IsJump(s3.code[j].op)
    ensures var s6 := CompileStmt(els, PatchToEnd(Emit(s3, [WithInt(Jump, 0)]), j));
      s6.code != [] ==> Sound(PatchToEnd(s6, |s3.code|))
    decreases els, 3
  {
    var k := |s3.code|;
    var s4 := Emit(s3, [WithInt(Jump, 0)]);
    AppendSound(s3, s4, [WithInt(Jump, 0)]);
    PatchSound(s4, j);
    var s5 := PatchToEnd(s4, j);
    StmtSound(els, s5);
    var s6 := CompileStmt(els, s5);
    if s6.code != [] {
      KeptAt(s5, s6, k);
      PatchSound(s6, k);
    }
  }

  lemma {:induction false} ProgramIsClosed(ast: Option<A.Stmt>, s: State)
    ensures var (program, r) := CompileProgram(ast, s);
      program != [] ==>
        && program[|program| - 1] == Bare(Halt)
        && (forall i :: 0 <= i < |program| - 1 ==> program[i].op != Halt)
        && (forall i :: (0 <= i < |program| && IsJump(program[i].op))
                          ==> WholeIn(program[i].operand, 0, |program|))
        && (forall i :: (0 <= i < |program| && program[i].op == PushString)
                          ==> WholeIn(program[i].operand, 0, |r.pool|))
  {
    var s0 := State([], S.Enter(s.table), s.pool);
    if ast.Some? {
      StmtSound(ast.value, s0);
      var s1 := CompileStmt(ast.value, s0);
      var s2 := s1.(table := S.Exit(s1.table));
      var (program, r) := CompileProgram(ast, s);
      if program != [] {
        assert program == s1.code + [Bare(Halt)] && r.pool == s1.pool;
        forall i | 0 <= i < |program| - 1
          ensures InstrSound(program[i], |s1.code|, |r.pool|)
        {
          assert program[i] == s1.code[i];
        }
      }
    }
  }

  // ---------------------------------------------------------------------------------------
  // Scopes.

  /** `u` has the scopes of `t`, with names possibly added to the innermost one only. */
  predicate Extends(t: S.Table, u: S.Table)
  {
    && |u.scopes| == |t.scopes|
    && (forall j :: 0 <= j < |t.scopes| - 1 ==> u.scopes[j].Keys == t.scopes[j].Keys)
    && (|t.scopes| > 0 ==> t.scopes[|t.scopes| - 1].Keys <= u.scopes[|t.scopes| - 1].Keys)
  }

  lemma {:induction false} ExtendsTransitive(t: S.Table, u: S.Table, v: S.Table)
    requires Extends(t, u) && Extends(u, v)
    ensures Extends(t, v)
  {
  }

  lemma {:induction false} AddExtends(t: S.Table, name: string, kind: A.NodeType)
    requires S.Add(t, name, kind).0
    ensures Extends(t, S.Add(t, name, kind).1)
  {
  }

  /** Leaving a scope entered before `u` was reached gives back exactly the old scopes. */
  lemma {:induction false} ExitAfterEnter(t: S.Table, u: S.Table)
    requires |t.scopes| >= 1 && Extends(S.Enter(t), u)
    ensures |S.Exit(u).scopes| == |t.scopes|
    ensures forall j :: 0 <= j < |t.scopes| ==> S.Exit(u).scopes[j].Keys == t.scopes[j].Keys
  {
    assert |u.scopes| == |t.scopes| + 1;
    forall j | 0 <= j < |t.scopes|
      ensures S.Exit(u).scopes[j].Keys == t.scopes[j].Keys
    {
      assert S.Enter(t).scopes[j] == t.scopes[j];
    }
  }

  lemma {:induction false} StmtBalanced(st: A.Stmt, s: State)
    requires |s.table.scopes| >= 1
    ensures CompileStmt(st, s).code != [] ==> Extends(s.table, CompileStmt(st, s).table)
    decreases st, 1
  {
    match st
    case ExprStmt(e) =>
    case VarDecl(_, _) => VarDeclBalanced(st, s);
    case If(_, _, _) => IfBalanced(st, s);
    case Block(stmts) =>
      var entered := s.(table := S.Enter(s.table));
      ItemsBalanced(stmts, entered);
      var (r, aborted) := CompileItems(stmts, entered);
      if !aborted && |s.table.scopes| >= 1 {
        ExitAfterEnter(s.table, r.table);
      }
    case Print(e) =>
  }

  lemma {:induction false} ItemsBalanced(stmts: seq<A.Stmt>, s: State)
    requires |s.table.scopes| >= 1
    ensures !CompileItems(stmts, s).1 ==> Extends(s.table, CompileItems(stmts, s).0.table)
    decreases stmts, 2
  {
    if stmts != [] {
      var s1 := CompileStmt(stmts[0], s);
      if s1.code != [] {
        StmtBalanced(stmts[0], s);
        ItemsBalanced(stmts[1..], s1);
        if !CompileItems(stmts, s).1 {
          ExtendsTransitive(s.table, s1.table, CompileItems(stmts, s).0.table);
        }
      }
    }
  }

  lemma {:induction false} VarDeclBalanced(st: A.Stmt, s: State)
    requires st.VarDecl? && |s.table.scopes| >= 1
    ensures CompileStmt(st, s).code != [] ==> Extends(s.table, CompileStmt(st, s).table)
    decreases st, 0
  {
    var kind := if st.init.None? then Some(A.Unknown) else DeclType(st.init.value, s.table);
    if kind.Some? && S.Add(s.table, st.name.value, kind.value).0 {
      var t1 := S.Add(s.table, st.name.value, kind.value).1;
      AddExtends(s.table, st.name.value, kind.value);
      if st.init.Some? {
        var s2 := CompileExpr(st.init.value, s.(table := t1));
        assert Extends(t1, s2.table);
        ExtendsTransitive(s.table, t1, s2.table);
      }
    }
  }

  lemma {:induction false} IfBalanced(st: A.Stmt, s: State)
    requires st.If? && |s.table.scopes| >= 1
    ensures CompileStmt(st, s).code != [] ==> Extends(s.table, CompileStmt(st, s).table)
    decreases st, 0
  {
    IfAssembles(st, s);
    var s1 := CompileExpr(st.cond, s);
    if s1.code != [] {
      var s2 := Emit(s1, [WithInt(JumpIfFalse, 0)]);
      StmtBalanced(st.thenBranch, s2);
      var s3 := CompileStmt(st.thenBranch, s2);
      if s3.code != [] {
        assert Extends(s.table, s1.table);
        ExtendsTransitive(s.table, s1.table, s3.table);
        if st.elseBranch.Some? {
          var s5 := PatchToEnd(Emit(s3, [WithInt(Jump, 0)]), |s1.code|);
          StmtBalanced(st.elseBranch.value, s5);
          var s6 := CompileStmt(st.elseBranch.value, s5);
          if s6.code != [] {
            ExtendsTransitive(s.table, s3.table, s6.table);
          }
        }
      }
    }
  }

  /** A successful `compile` leaves behind none of the names it declared: the table has the
      same scopes binding the same names as before (symbols of outer scopes may have been
      retyped, and the address counter has moved on). */
  lemma {:induction false} CompileLeavesNoDeclarations(ast: Option<A.Stmt>, s: State)
    requires |s.table.scopes| >= 1
    ensures var (program, r) := CompileProgram(ast, s);
      program != [] ==>
        && |r.table.scopes| == |s.table.scopes|
        && forall j :: 0 <= j < |s.table.scopes| ==> r.table.scopes[j].Keys == s.table.scopes[j].Keys
  {
    if ast.Some? {
      var s0 := State([], S.Enter(s.table), s.pool);
      StmtBalanced(ast.value, s0);
      var s1 := CompileStmt(ast.value, s0);
      if s1.code != [] {
        ExitAfterEnter(s.table, s1.table);
      }
    }
  }

  /** A block whose only statement prints an undeclared name fails, and the scope it
      entered is never left. */
  lemma {:induction false} UndeclaredPrintAborts(b: T.Token, s: State)
    requires S.Lookup(S.Enter(s.table), b.value).None?
    ensures CompileStmt(A.Block([A.Print(A.Ident(b))]), s).code == []
    ensures CompileStmt(A.Block([A.Print(A.Ident(b))]), s).table == S.Enter(s.table)
  {
    var entered := s.(table := S.Enter(s.table));
    var p := A.Print(A.Ident(b));
    assert CompileExpr(A.Ident(b), entered) == Fail(entered);
    assert CompileStmt(p, entered) == CompilePrint(p, entered) == Fail(entered);
    assert [p][1..] == [];
    assert CompileItems([p], entered) == (Fail(entered), true);
    assert CompileStmt(A.Block([p]), s) == CompileBlock(A.Block([p]), s) == Fail(entered);
  }

  /** `var a = <integer literal>;` with `a` new to the innermost scope binds it as an
      INTEGER at the next address and emits code. */
  lemma {:induction false} DeclareFreshLiteral(a: T.Token, one: T.Token, s: State)
    requires one.kind == T.IntLiteral && |s.table.scopes| > 0
    requires a.value !in s.table.scopes[|s.table.scopes| - 1]
    ensures CompileStmt(A.VarDecl(a, Some(A.Literal(one))), s).code != []
    ensures CompileStmt(A.VarDecl(a, Some(A.Literal(one))), s).table
            == S.Add(s.table, a.value, A.Integer).1
  {
    var st := A.VarDecl(a, Some(A.Literal(one)));
    assert DeclType(A.Literal(one), s.table) == Some(A.Integer);
    var t1 := S.Add(s.table, a.value, A.Integer).1;
    VarDeclAddsThenInitializes(st, s, A.Integer);
    assert S.Lookup(t1, a.value).Some?;
    LiteralInitializer(st, s.(table := t1));
  }

  /** A declaration whose type is found and whose name is new in the innermost scope adds
      the symbol and goes on with the initializer. */
  lemma {:induction false} VarDeclAddsThenInitializes(st: A.Stmt, s: State, kind: A.NodeType)
    requires st.VarDecl? && st.init.Some? && DeclType(st.init.value, s.table) == Some(kind)
    requires S.Add(s.table, st.name.value, kind).0
    ensures CompileStmt(st, s) == CompileInitializer(st, s.(table := S.Add(s.table, st.name.value, kind).1))
  {
    assert CompileStmt(st, s) == CompileVarDecl(st, s);
  }

  /** An integer literal initializer of a declared name lowers and leaves the table alone. */
  lemma {:induction false} LiteralInitializer(st: A.Stmt, s: State)
    requires st.VarDecl? && st.init.Some? && st.init.value.Literal?
    requires st.init.value.token.kind == T.IntLiteral && S.Lookup(s.table, st.name.value).Some?
    ensures CompileInitializer(st, s).code != [] && CompileInitializer(st, s).table == s.table
  {
    var s2 := CompileExpr(st.init.value, s);
    assert s2 == Emit(s, [WithInt(PushInt, Decimal.StoiValue(st.init.value.token.value))]);
  }

  /** Two statements where the first lowers and the second fails: the sequence stops at
      the second, with its state. */
  lemma {:induction false} SecondItemAborts(x: A.Stmt, y: A.Stmt, s: State)
    requires CompileStmt(x, s).code != []
    requires CompileStmt(y, CompileStmt(x, s)).code == []
    ensures CompileItems([x, y], s) == (CompileStmt(y, CompileStmt(x, s)), true)
  {
    var s1 := CompileStmt(x, s);
    assert [x, y][1..] == [y];
    assert [y][1..] == [];
    assert CompileItems([y], s1) == (CompileStmt(y, s1), true);
  }

  /** A block whose statements stop at a failure keeps the failed state, scope and all. */
  lemma {:induction false} BlockStopsAtFailure(st: A.Stmt, s: State)
    requires st.Block?
    requires CompileItems(st.stmts, s.(table := S.Enter(s.table))).1
    ensures CompileStmt(st, s) == CompileItems(st.stmts, s.(table := S.Enter(s.table))).0
  {
    assert CompileStmt(st, s) == CompileBlock(st, s);
  }

  /** The block `{ var a = 1; { print b; } }`, lowered in a table whose innermost scope is
      empty, stops inside its nested block: the buffer is empty and both the block's scope
      (holding `a`) and the nested block's scope are still entered. */
  lemma {:induction false} NestedFailureKeepsScopes(a: T.Token, one: T.Token, b: T.Token, t: S.Table)
    requires one.kind == T.IntLiteral && a.value != b.value
    requires forall n :: S.Lookup(t, n) == None
    ensures var program := A.Block([A.VarDecl(a, Some(A.Literal(one))),
                                     A.Block([A.Print(A.Ident(b))])]);
      var r := CompileStmt(program, State([], t, []));
      && r.code == []
      && r.table == S.Enter(S.Add(S.Enter(t), a.value, A.Integer).1)
  {
    var decl := A.VarDecl(a, Some(A.Literal(one)));
    var inner := A.Block([A.Print(A.Ident(b))]);
    var outer := State([], S.Enter(t), []);
    S.EnterKeepsLookups(t, b.value);
    DeclareFreshLiteral(a, one, outer);
    var s1 := CompileStmt(decl, outer);
    S.AddLeavesOtherNames(outer.table, a.value, A.Integer, b.value);
    S.EnterKeepsLookups(s1.table, b.value);
    UndeclaredPrintAborts(b, s1);
    SecondItemAborts(decl, inner, outer);
    BlockStopsAtFailure(A.Block([decl, inner]), State([], t, []));
  }

  /** A block that fails part-way is never left, so after a failed `compile` the names
      declared at the top level of the program's block are still bound: here
      `{ var a = 1; { print b; } }` fails on the undeclared `b`, and `a` stays visible in a
      scope the failed call left behind. */
  lemma {:induction false} FailedCompileLeavesNames(a: T.Token, one: T.Token, b: T.Token)
    requires one.kind == T.IntLiteral && a.value != b.value
    ensures var program := A.Block([A.VarDecl(a, Some(A.Literal(one))),
                                     A.Block([A.Print(A.Ident(b))])]);
      var (code, r) := CompileProgram(Some(program), State([], S.Initial(), []));
      && code == []
      && |r.table.scopes| == 3
      && S.Lookup(r.table, a.value) == Some(S.Symbol(a.value, A.Integer, 0))
  {
    var t := S.Enter(S.Initial());
    S.InitialIsWellFormed();
    forall n | true
      ensures S.Lookup(t, n) == None
    {
      S.EnterKeepsLookups(S.Initial(), n);
    }
    NestedFailureKeepsScopes(a, one, b, t);
    var t1 := S.Add(S.Enter(t), a.value, A.Integer).1;
    assert t1.scopes == [map[], map[], map[a.value := S.Symbol(a.value, A.Integer, 0)]];
    assert S.Exit(S.Enter(t1)) == t1;
  }

  // ---------------------------------------------------------------------------------------
  // Layouts.

  /** `code` is the buffer `&&` or `||` ends with, given the left operand's buffer `left`
      and the buffer `right` after the right operand: `left`, the conditional jump `op` to
      the constant, the right operand's own instructions, a JUMP past the constant, and the
      constant `c`. */
  predicate ShortCircuitCode(code: seq<Instr>, left: seq<Instr>, right: seq<Instr>, op: Opcode, c: int)
  {
    var j := |left|;
    var k := |right|;
    && j < k && |code| == k + 2
    && code[..j] == left
    && code[j] == Instr(op, (k + 1) as real)
    && code[j + 1..k] == right[j + 1..]
    && code[k] == Instr(Jump, (k + 2) as real)
    && code[k + 1] == WithInt(PushInt, c)
  }

  /** The buffer `&&` and `||` end with, given the left operand's state `s1` and the right
      operand's state `s3` (lowered after the conditional jump `op` was appended to `s1`): a
      JUMP past the constant, the conditional jump patched to the constant, the constant,
      and the JUMP patched to the end. */
  lemma {:induction false} ShortCircuitShape(s1: State, s3: State, op: Opcode, c: int)
    requires s3.code != [] && Grows(Emit(s1, [WithInt(op, 0)]), s3)
    ensures ShortCircuitCode(PatchToEnd(Emit(PatchToEnd(Emit(s3, [WithInt(Jump, 0)]), |s1.code|),
                                             [WithInt(PushInt, c)]), |s3.code|).code,
                             s1.code, s3.code, op, c)
  {
    var j := |s1.code|;
    var k := |s3.code|;
    var s2 := Emit(s1, [WithInt(op, 0)]);
    assert s3.code[..k] == s3.code;
    assert s3.code[..|s2.code|] == s2.code;
    assert s3.code[j] == s2.code[j];
    assert s3.code[..j] == s1.code by {
      assert s3.code[..j] == s2.code[..j];
    }
    var s5 := PatchToEnd(Emit(s3, [WithInt(Jump, 0)]), j);
    var r := PatchToEnd(Emit(s5, [WithInt(PushInt, c)]), k);
    assert r.code[..k] == s5.code[..k];
    assert s5.code[..k] == s3.code[..j] + [s5.code[j]] + s3.code[j + 1..] by {
      assert s5.code[j + 1..] == s3.code[j + 1..] + [WithInt(Jump, 0)];
    }
  }

  /** `&&` and `||` lower to: the left operand's code, a conditional jump (JUMP_IF_FALSE for
      `&&`, JUMP_IF_TRUE for `||`) to the final constant, the right operand's code, a JUMP
      past the constant, and the constant (0 for `&&`, 1 for `||`). */
  lemma {:induction false} ShortCircuitLayout(e: A.Expr, s: State)
    requires e.Binary?
    ensures var r := CompileShortCircuit(e, s);
      var op := if e.op.kind == T.And then JumpIfFalse else JumpIfTrue;
      var s1 := CompileExpr(e.left, s);
      var s3 := CompileExpr(e.right, Emit(s1, [WithInt(op, 0)]));
      r.code != [] ==>
        s1.code != [] && ShortCircuitCode(r.code, s1.code, s3.code, op, if e.op.kind == T.And then 0 else 1)
  {
    var op := if e.op.kind == T.And then JumpIfFalse else JumpIfTrue;
    var c := if e.op.kind == T.And then 0 else 1;
    var s1 := CompileExpr(e.left, s);
    var s3 := CompileExpr(e.right, Emit(s1, [WithInt(op, 0)]));
    ShortCircuitAssembles(e, s);
    if CompileShortCircuit(e, s).code != [] {
      ShortCircuitShape(s1, s3, op, c);
    }
  }

  lemma {:induction false} ShortCircuitAssembles(e: A.Expr, s: State)
    requires e.Binary?
    ensures var r := CompileShortCircuit(e, s);
      var op := if e.op.kind == T.And then JumpIfFalse else JumpIfTrue;
      var s1 := CompileExpr(e.left, s);
      var s3 := CompileExpr(e.right, Emit(s1, [WithInt(op, 0)]));
      var c := if e.op.kind == T.And then 0 else 1;
      r.code != [] ==>
        && s1.code != [] && s3.code != []
        && r == PatchToEnd(Emit(PatchToEnd(Emit(s3, [WithInt(Jump, 0)]), |s1.code|),
                                [WithInt(PushInt, c)]), |s3.code|)
  {
  }

  /** `if` lowers to: the condition's code, a JUMP_IF_FALSE, the then-branch's code and,
      with an else-branch, a JUMP and the else-branch's code. The conditional jump lands just
      after the then-branch (after its JUMP when there is an else-branch); the JUMP lands at
      the end. */
  lemma {:induction false} IfLayout(st: A.Stmt, s: State)
    requires st.If?
    ensures var r := CompileIf(st, s);
      var s1 := CompileExpr(st.cond, s);
      var s3 := CompileStmt(st.thenBranch, Emit(s1, [WithInt(JumpIfFalse, 0)]));
      r.code != [] ==> s1.code != [] && IfCode(r.code, s1.code, s3.code, st.elseBranch.Some?)
  {
    var s1 := CompileExpr(st.cond, s);
    var s3 := CompileStmt(st.thenBranch, Emit(s1, [WithInt(JumpIfFalse, 0)]));
    IfAssembles(st, s);
    if CompileIf(st, s).code != [] {
      if st.elseBranch.None? {
        IfThenShape(s1, s3);
      } else {
        IfElseShape(s1, s3, CompileStmt(st.elseBranch.value, PatchToEnd(Emit(s3, [WithInt(Jump, 0)]), |s1.code|)));
      }
    }
  }

  /** `code` is the buffer an `if` ends with, given the condition's buffer `cond` and the
      buffer `body` after the then-branch: `cond`, the conditional jump, the then-branch's
      own instructions, and with an else-branch a JUMP to the end at `|body|`; the
      conditional jump lands after the then-branch (after the JUMP when there is one). */
  predicate IfCode(code: seq<Instr>, cond: seq<Instr>, body: seq<Instr>, hasElse: bool)
  {
    var j := |cond|;
    var k := |body|;
    && j < k <= |code|
    && code[..j] == cond
    && code[j + 1..k] == body[j + 1..]
    && (!hasElse ==> |code| == k && code[j] == Instr(JumpIfFalse, k as real))
    && (hasElse ==>
          && k < |code|
          && code[j] == Instr(JumpIfFalse, (k + 1) as real)
          && code[k] == Instr(Jump, |code| as real))
  }

  /** The buffer of an `if` without else-branch, from the condition's state `s1` and the
      then-branch's state `s3`. */
  lemma {:induction false} IfThenShape(s1: State, s3: State)
    requires s3.code != [] && Grows(Emit(s1, [WithInt(JumpIfFalse, 0)]), s3)
    ensures IfCode(PatchToEnd(s3, |s1.code|).code, s1.code, s3.code, false)
  {
    var j := |s1.code|;
    var s2 := Emit(s1, [WithInt(JumpIfFalse, 0)]);
    assert s3.code[..j] == s1.code by {
      assert s3.code[..|s2.code|] == s2.code;
      assert s2.code[..j] == s1.code;
    }
    assert s3.code[j] == s2.code[j];
  }

  /** The buffer of an `if` with an else-branch, from the condition's state `s1`, the
      then-branch's state `s3` and the else-branch's state `s6`. */
  lemma {:induction false} IfElseShape(s1: State, s3: State, s6: State)
    requires s3.code != [] && Grows(Emit(s1, [WithInt(JumpIfFalse, 0)]), s3)
    requires s6.code != [] && |s1.code| < |s3.code|
    requires Grows(PatchToEnd(Emit(s3, [WithInt(Jump, 0)]), |s1.code|), s6)
    ensures IfCode(PatchToEnd(s6, |s3.code|).code, s1.code, s3.code, true)
  {
    var j := |s1.code|;
    var k := |s3.code|;
    var s2 := Emit(s1, [WithInt(JumpIfFalse, 0)]);
    assert s3.code[..j] == s1.code by {
      assert s3.code[..|s2.code|] == s2.code;
      assert s2.code[..j] == s1.code;
    }
    var s4 := Emit(s3, [WithInt(Jump, 0)]);
    var s5 := PatchToEnd(s4, j);
    assert s6.code[..|s5.code|] == s5.code;
    assert s6.code[..k] == s5.code[..k];
    assert s6.code[j] == s5.code[j];
    assert s6.code[k] == s5.code[k];
    assert s5.code[..j] == s1.code;
    assert s5.code[j + 1..k] == s3.code[j + 1..];
  }


  /** A string literal is appended to the pool and pushed by its index, under which
      `getStringLiteral` gives it back. */
  lemma {:induction false} StringLiteralInterned(tok: T.Token, s: State)
    requires tok.kind == T.StringLiteral
    ensures var r := CompileExpr(A.Literal(tok), s);
      && r.code == s.code + [WithInt(PushString, |s.pool|)]
      && r.pool == s.pool + [tok.value]
      && StringLiteralAt(r.pool, Trunc(r.code[|r.code| - 1].operand)) == tok.value
  {
  }

  // ---------------------------------------------------------------------------------------
  // Types.

  /** No identifier occurs in the expression (assignment targets aside). */
  predicate Closed(e: A.Expr)
  {
    match e
    case Ident(_) => false
    case Unary(_, right) => Closed(right)
    case Assignment(_, value) => Closed(value)
    case Binary(left, _, right) => Closed(left) && Closed(right)
    case _ => true
  }

  /** Booleans read as integers. */
  function Erase(t: A.NodeType): A.NodeType
  {
    if t == A.BooleanLiteral then A.Integer else t
  }

  /** On an identifier-free expression, resolveExpressionType gives a string exactly when
      getType does, and wherever it resolves a type at all that type is getType's, with
      booleans read as integers. */
  lemma {:induction false} ResolveAgreesWithGetType(e: A.Expr, t: S.Table)
    requires Closed(e)
    ensures ResolveType(e, t) == A.StringLiteral <==> A.ExprType(e) == A.StringLiteral
    ensures ResolveType(e, t) != A.Unknown ==> Erase(ResolveType(e, t)) == Erase(A.ExprType(e))
    ensures A.ExprType(e) != A.IdentifierExpression
  {
    match e
    case Binary(left, op, right) =>
      ResolveAgreesWithGetType(left, t);
      ResolveAgreesWithGetType(right, t);
      BinaryRulesAgree(op.kind, ResolveType(left, t), ResolveType(right, t), A.ExprType(left), A.ExprType(right));
      assert ResolveType(e, t) == ResolveBinary(op.kind, ResolveType(left, t), ResolveType(right, t));
      assert A.ExprType(e) == A.BinaryType(op.kind, A.ExprType(left), A.ExprType(right));
    case Unary(_, right) => ResolveAgreesWithGetType(right, t);
    case Assignment(_, value) => ResolveAgreesWithGetType(value, t);
    case _ =>
  }

  /** The binary rule of resolution agrees with getType's binary rule on operands whose types
      agree in the same sense. */
  lemma {:induction false} BinaryRulesAgree(op: T.TokenType, l: A.NodeType, r: A.NodeType, gl: A.NodeType, gr: A.NodeType)
    requires gl != A.IdentifierExpression && gr != A.IdentifierExpression
    requires (l == A.StringLiteral <==> gl == A.StringLiteral) && (l != A.Unknown ==> Erase(l) == Erase(gl))
    requires (r == A.StringLiteral <==> gr == A.StringLiteral) && (r != A.Unknown ==> Erase(r) == Erase(gr))
    ensures ResolveBinary(op, l, r) == A.StringLiteral <==> A.BinaryType(op, gl, gr) == A.StringLiteral
    ensures ResolveBinary(op, l, r) != A.Unknown ==> Erase(ResolveBinary(op, l, r)) == Erase(A.BinaryType(op, gl, gr))
  {
  }

  /** On an identifier-free expression, `print` chooses PRINT_STRING exactly when the
      expression's getType is STRING_LITERAL. */
  lemma {:induction false} PrintChoosesByType(e: A.Expr, s: State)
    requires Closed(e)
    ensures var r := CompileStmt(A.Print(e), s);
      r.code != [] ==> (r.code[|r.code| - 1] == Bare(PrintString) <==> A.ExprType(e) == A.StringLiteral)
  {
    ResolveAgreesWithGetType(e, CompileExpr(e, s).table);
  }

  // ---------------------------------------------------------------------------------------
  // Declarations.

  /** The declaration-type code as written dereferences null for `var y = -x;`. */
  lemma {:induction false} NegatedIdentifierInitializerCrashes(minus: T.Token, x: T.Token, t: S.Table)
    ensures DeclTypeAsWritten(A.Unary(minus, A.Ident(x)), t) == NullDereference
  {
    assert A.ExprType(A.Ident(x)) == A.IdentifierExpression;
  }

  /** Exactly the initializers that report IDENTIFIER_EXPRESSION without being identifiers
      (identifiers under unary and assignment nodes) make the code as written crash. */
  lemma {:induction false} AsWrittenCrashesExactlyOnWrappedIdentifiers(init: A.Expr, t: S.Table)
    ensures DeclTypeAsWritten(init, t) == NullDereference
            <==> A.ExprType(init) == A.IdentifierExpression && !init.Ident?
  {
  }

  /** Wherever the code as written does not crash, the repaired declaration type agrees with
      it, the undeclared-initializer error included. */
  lemma {:induction false} DeclTypeRepairsOnlyTheCrash(init: A.Expr, t: S.Table)
    requires DeclTypeAsWritten(init, t) != NullDereference
    ensures DeclTypeAsWritten(init, t).UndeclaredInit? <==> DeclType(init, t).None?
    ensures DeclTypeAsWritten(init, t).Typed? ==> DeclType(init, t) == Some(DeclTypeAsWritten(init, t).kind)
  {
  }

  /** The repaired type of `var y = -x;` is the declared type of `x`. */
  lemma {:induction false} NegatedIdentifierTakesItsType(minus: T.Token, x: T.Token, t: S.Table)
    ensures DeclType(A.Unary(minus, A.Ident(x)), t)
            == match S.Lookup(t, x.value) case Some(sym) => Some(sym.kind) case None => None
  {
    assert A.ExprType(A.Ident(x)) == A.IdentifierExpression;
    assert A.Core(A.Unary(minus, A.Ident(x))) == A.Ident(x);
  }

  /** A name already bound in the innermost scope cannot be declared again: the buffer is
      cleared and the table is left as it was. */
  lemma {:induction false} RedeclarationFails(st: A.Stmt, s: State)
    requires st.VarDecl? && |s.table.scopes| > 0
    requires st.name.value in s.table.scopes[|s.table.scopes| - 1]
    ensures CompileStmt(st, s).code == [] && CompileStmt(st, s).table == s.table
  {
  }

  /** `var x;` emits nothing, so as a whole program it compiles to no program at all. */
  lemma {:induction false} LoneDeclarationCompilesToNothing(x: T.Token, s: State)
    ensures CompileProgram(Some(A.VarDecl(x, None)), s).0 == []
  {
  }

  /** The symbol is added before its initializer is lowered, so in `var x = x;` with `x`
      declared only in an enclosing scope, the initializer loads the new, never-stored slot. */
  lemma {:induction false} SelfInitializerReadsNewSlot(x: T.Token, s: State)
    requires |s.table.scopes| > 0 && x.value !in s.table.scopes[|s.table.scopes| - 1]
    requires S.Lookup(s.table, x.value).Some?
    ensures var a := s.table.nextAddress;
      CompileStmt(A.VarDecl(x, Some(A.Ident(x))), s).code
        == s.code + [WithInt(PushInt, a), Bare(Load), WithInt(PushInt, a), Bare(Store)]
  {
    var st := A.VarDecl(x, Some(A.Ident(x)));
    var kind := S.Lookup(s.table, x.value).value.kind;
    var t1 := S.Add(s.table, x.value, kind).1;
    assert DeclType(A.Ident(x), s.table) == Some(kind);
    VarDeclAddsThenInitializes(st, s, kind);
    assert S.Lookup(t1, x.value) == Some(S.Symbol(x.value, kind, s.table.nextAddress));
    SelfInitializer(st, s.(table := t1));
  }

  /** `var x = x;` once `x` is declared: loads from `x`'s slot and stores back into it. */
  lemma {:induction false} SelfInitializer(st: A.Stmt, s: State)
    requires st.VarDecl? && st.init.Some? && st.init.value == A.Ident(st.name)
    requires S.Lookup(s.table, st.name.value).Some?
    ensures var a := S.Lookup(s.table, st.name.value).value.address;
      CompileInitializer(st, s).code == s.code + [WithInt(PushInt, a), Bare(Load), WithInt(PushInt, a), Bare(Store)]
  {
  }

  // ---------------------------------------------------------------------------------------
  // What each node appends, and when it fails.

  /** `!` appends NOT and `-` NEGATE to the operand's code; the node fails exactly when its
      operand does or its operator is neither. */
  lemma {:induction false} UnaryLayout(e: A.Expr, s: State)
    requires e.Unary?
    ensures var s1 := CompileExpr(e.right, s); var r := CompileUnary(e, s);
      && (r.code == [] <==> s1.code == [] || e.op.kind !in {T.Bang, T.Minus})
      && (r.code != [] ==> && r.code == s1.code + [Bare(if e.op.kind == T.Bang then Not else Negate)]
                           && r.table == s1.table && r.pool == s1.pool)
  {
  }

  /** The instruction a binary operator other than `&&` and `||` appends after its two
      operands, by operator and checked operand types; None where the types are refused. */
  function OperatorInstr(op: T.TokenType, lt: A.NodeType, rt: A.NodeType): Option<Opcode>
  {
    var numeric := IsNumeric(lt) && IsNumeric(rt);
    match op
    case Plus =>
      if lt == A.StringLiteral && rt == A.StringLiteral then Some(ConcatString)
      else if numeric then Some(Add) else None
    case Minus => if numeric then Some(Sub) else None
    case Star => if numeric then Some(Mul) else None
    case Slash => if numeric then Some(Div) else None
    case Greater => if numeric then Some(Bytecode.Greater) else None
    case Less => if numeric then Some(Bytecode.Less) else None
    case GreaterEqual => if numeric then Some(Bytecode.GreaterEqual) else None
    case LessEqual => if numeric then Some(Bytecode.LessEqual) else None
    case EqualEqual => if numeric then Some(Bytecode.EqualEqual) else None
    case BangEqual => if numeric then Some(Bytecode.BangEqual) else None
    case _ => None
  }

  /** The operand-type check of a binary node: `&&` and `||` take booleans or integers,
      every other operator takes what `OperatorInstr` has an instruction for. */
  predicate Accepts(op: T.TokenType, lt: A.NodeType, rt: A.NodeType)
  {
    if op == T.And || op == T.Or then IsLogicalOperand(lt) && IsLogicalOperand(rt)
    else OperatorInstr(op, lt, rt).Some?
  }

  /** A binary node whose operand types are refused fails before lowering anything. An
      accepted arithmetic, concatenation or comparison node appends its instruction to the
      code of its left then right operand, and fails exactly when an operand does. An
      accepted `&&` or `||` takes the short-circuit layout, and fails exactly when an operand
      does. */
  lemma {:induction false} BinaryChecks(e: A.Expr, s: State)
    requires e.Binary?
    ensures var lt, rt := OperandType(e.left, s.table), OperandType(e.right, s.table);
      var op := e.op.kind; var r := CompileBinary(e, s); var s1 := CompileExpr(e.left, s);
      && (!Accepts(op, lt, rt) ==> r == Fail(s))
      && (Accepts(op, lt, rt) && op != T.And && op != T.Or ==>
            var s2 := CompileExpr(e.right, s1);
            && (r.code == [] <==> s1.code == [] || s2.code == [])
            && (r.code != [] ==> && r.code == s2.code + [Bare(OperatorInstr(op, lt, rt).value)]
                                 && r.table == s2.table && r.pool == s2.pool))
      && (Accepts(op, lt, rt) && (op == T.And || op == T.Or) ==>
            var jump := if op == T.And then JumpIfFalse else JumpIfTrue;
            var s3 := CompileExpr(e.right, Emit(s1, [WithInt(jump, 0)]));
            && (r.code == [] <==> s1.code == [] || s3.code == [])
            && (r.code != [] ==> ShortCircuitCode(r.code, s1.code, s3.code, jump, if op == T.And then 0 else 1)))
  {
    var op := e.op.kind;
    BinaryDispatch(e, s);
    if !Accepts(op, OperandType(e.left, s.table), OperandType(e.right, s.table)) {
    } else if op == T.And || op == T.Or {
      ShortCircuitLayout(e, s);
    } else {
      OperandsLayout(e, s, OperatorInstr(op, OperandType(e.left, s.table), OperandType(e.right, s.table)).value);
    }
  }

  /** The type check of a binary node picks the lowering `Accepts` and `OperatorInstr` name. */
  lemma {:induction false} BinaryDispatch(e: A.Expr, s: State)
    requires e.Binary?
    ensures var lt, rt := OperandType(e.left, s.table), OperandType(e.right, s.table);
      var op := e.op.kind;
      CompileBinary(e, s) == if !Accepts(op, lt, rt) then Fail(s)
                             else if op == T.And || op == T.Or then CompileShortCircuit(e, s)
                             else CompileOperands(e, s, OperatorInstr(op, lt, rt).value)
  {
    var lt, rt := OperandType(e.left, s.table), OperandType(e.right, s.table);
    var op := e.op.kind;
    if op == T.And || op == T.Or {
    } else if op == T.Plus {
    } else if op in {T.Minus, T.Star, T.Slash} {
      assert OperatorInstr(op, lt, rt) == if IsNumeric(lt) && IsNumeric(rt) then Some(ArithmeticOpcode(op)) else None;
    } else if op in ComparisonTokens {
      assert OperatorInstr(op, lt, rt) == if IsNumeric(lt) && IsNumeric(rt) then Some(ComparisonOpcode(op)) else None;
    } else {
      assert OperatorInstr(op, lt, rt) == None;
    }
  }

  /** Operands then operator: the left operand's code, the right operand's, the instruction;
      fails exactly when an operand does. */
  lemma {:induction false} OperandsLayout(e: A.Expr, s: State, opcode: Opcode)
    requires e.Binary?
    ensures var s1 := CompileExpr(e.left, s); var s2 := CompileExpr(e.right, s1);
      var r := CompileOperands(e, s, opcode);
      && (r.code == [] <==> s1.code == [] || s2.code == [])
      && (r.code != [] ==> r.code == s2.code + [Bare(opcode)] && r.table == s2.table && r.pool == s2.pool)
  {
  }

  /** An assignment to an undeclared name fails before its value is lowered. Otherwise the
      value is lowered; the node fails when that fails or when the symbol's type and the
      value's resolved type are both known and differ. On success it appends a push of the
      symbol's address and STORE, a symbol of type UNKNOWN takes the value's type, and no
      other name's symbol changes. */
  lemma {:induction false} AssignmentChecks(e: A.Expr, s: State)
    requires e.Assignment?
    ensures var name := e.target.value; var r := CompileAssignment(e, s);
      var s1 := CompileExpr(e.value, s);
      && (S.Lookup(s.table, name).None? ==> r == Fail(s))
      && (S.Lookup(s.table, name).Some? && s1.code == [] ==> r == s1)
      && (S.Lookup(s.table, name).Some? && s1.code != [] ==>
            && S.Lookup(s1.table, name).Some?
            && var sym := S.Lookup(s1.table, name).value;
               var rhs := ResolveType(e.value, s1.table);
               && (r.code == [] <==> sym.kind != A.Unknown && rhs != A.Unknown && sym.kind != rhs)
               && (r.code != [] ==>
                     && r.code == s1.code + [WithInt(PushInt, sym.address), Bare(Store)]
                     && r.pool == s1.pool
                     && S.Lookup(r.table, name) == Some(if sym.kind == A.Unknown then sym.(kind := rhs) else sym)))
    ensures forall other :: other != e.target.value && CompileAssignment(e, s).code != [] ==>
      S.Lookup(CompileAssignment(e, s).table, other) == S.Lookup(CompileExpr(e.value, s).table, other)
  {
    var name := e.target.value;
    var s1 := CompileExpr(e.value, s);
    if S.Lookup(s.table, name).Some? && s1.code != [] {
      S.SameShapeInnermost(s.table, s1.table, name);
      var sym := S.Lookup(s1.table, name).value;
      var rhs := ResolveType(e.value, s1.table);
      forall other | other != name
        ensures S.Lookup(S.RetypeAt(s1.table, S.Innermost(s1.table.scopes, name).value, name, rhs), other)
                == S.Lookup(s1.table, other)
      {
        S.RetypeLookups(s1.table, name, rhs, other);
      }
      S.RetypeLookups(s1.table, name, rhs, name);
    }
  }

  /** `print e` appends to e's code PRINT_STRING when e resolves to STRING_LITERAL in the
      table as it stands after e is lowered, and PRINT_VALUE otherwise; it fails exactly when
      e does. */
  lemma {:induction false} PrintResolvesType(e: A.Expr, s: State)
    ensures var s1 := CompileExpr(e, s); var r := CompilePrint(A.Print(e), s);
      && (r.code == [] <==> s1.code == [])
      && (r.code != [] ==>
            && r.code == s1.code + [Bare(if ResolveType(e, s1.table) == A.StringLiteral then PrintString else PrintValue)]
            && r.table == s1.table && r.pool == s1.pool)
  {
    var s1 := CompileExpr(e, s);
    if s1.code != [] {
      var last := Bare(if ResolveType(e, s1.table) == A.StringLiteral then PrintString else PrintValue);
      assert CompilePrint(A.Print(e), s) == Emit(s1, [last]);
    }
  }

  /** `print x` for a declared string variable `x` loads it and prints it as a string. */
  lemma {:induction false} PrintDeclaredString(x: T.Token, s: State)
    requires S.Lookup(s.table, x.value).Some? && S.Lookup(s.table, x.value).value.kind == A.StringLiteral
    ensures CompileStmt(A.Print(A.Ident(x)), s).code
            == s.code + [WithInt(PushInt, S.Lookup(s.table, x.value).value.address), Bare(Load), Bare(PrintString)]
  {
    PrintResolvesType(A.Ident(x), s);
    assert CompileStmt(A.Print(A.Ident(x)), s) == CompilePrint(A.Print(A.Ident(x)), s);
  }

  /** Two tables of the same shape in which every bound name keeps its address. */
  predicate KeepsSlots(t: S.Table, u: S.Table)
  {
    && S.SameShape(t, u)
    && forall j, n :: 0 <= j < |t.scopes| && n in t.scopes[j] ==> u.scopes[j][n].address == t.scopes[j][n].address
  }

  lemma {:induction false} KeepsSlotsTransitive(t: S.Table, u: S.Table, v: S.Table)
    requires KeepsSlots(t, u) && KeepsSlots(u, v)
    ensures KeepsSlots(t, v)
  {
    forall j, n | 0 <= j < |t.scopes| && n in t.scopes[j]
      ensures v.scopes[j][n].address == t.scopes[j][n].address
    {
      assert n in u.scopes[j];
    }
  }

  /** Lowering an expression moves no symbol: at most it retypes one. */
  lemma {:induction false} ExprKeepsSlots(e: A.Expr, s: State)
    ensures KeepsSlots(s.table, CompileExpr(e, s).table)
    decreases e, 2
  {
    match e
    case Unary(_, right) => ExprKeepsSlots(right, s);
    case Assignment(_, _) => AssignmentKeepsSlots(e, s);
    case Binary(_, _, _) => BinaryKeepsSlots(e, s);
    case _ =>
  }

  lemma {:induction false} AssignmentKeepsSlots(e: A.Expr, s: State)
    requires e.Assignment?
    ensures KeepsSlots(s.table, CompileAssignment(e, s).table)
    decreases e, 1
  {
    var name := e.target.value;
    var s1 := CompileExpr(e.value, s);
    var r := CompileAssignment(e, s);
    match S.Innermost(s.table.scopes, name)
    case None =>
    case Some(i) =>
      ExprKeepsSlots(e.value, s);
      if s1.code != [] && r.table != s1.table {
        var rhs := ResolveType(e.value, s1.table);
        assert r.table == S.RetypeAt(s1.table, i, name, rhs);
        RetypeKeepsSlots(s1.table, i, name, rhs);
        KeepsSlotsTransitive(s.table, s1.table, r.table);
      }
  }

  /** Retyping a symbol moves none. */
  lemma {:induction false} RetypeKeepsSlots(t: S.Table, i: nat, name: string, kind: A.NodeType)
    requires i < |t.scopes| && name in t.scopes[i]
    ensures KeepsSlots(t, S.RetypeAt(t, i, name, kind))
  {
    S.RetypeKeepsShape(t, i, name, kind);
  }

  lemma {:induction false} BinaryKeepsSlots(e: A.Expr, s: State)
    requires e.Binary?
    ensures KeepsSlots(s.table, CompileBinary(e, s).table)
    decreases e, 1
  {
    var lt, rt := OperandType(e.left, s.table), OperandType(e.right, s.table);
    var op := e.op.kind;
    BinaryDispatch(e, s);
    if !Accepts(op, lt, rt) {
    } else if op == T.And || op == T.Or {
      ShortCircuitKeepsSlots(e, s);
    } else {
      OperandsKeepsSlots(e, s, OperatorInstr(op, lt, rt).value);
    }
  }

  lemma {:induction false} OperandsKeepsSlots(e: A.Expr, s: State, opcode: Opcode)
    requires e.Binary?
    ensures KeepsSlots(s.table, CompileOperands(e, s, opcode).table)
    decreases e, 0
  {
    var s1 := CompileExpr(e.left, s);
    ExprKeepsSlots(e.left, s);
    ExprKeepsSlots(e.right, s1);
    KeepsSlotsTransitive(s.table, s1.table, CompileExpr(e.right, s1).table);
  }

  lemma {:induction false} ShortCircuitKeepsSlots(e: A.Expr, s: State)
    requires e.Binary?
    ensures KeepsSlots(s.table, CompileShortCircuit(e, s).table)
    decreases e, 0
  {
    var jump := if e.op.kind == T.And then JumpIfFalse else JumpIfTrue;
    var s1 := CompileExpr(e.left, s);
    var s2 := Emit(s1, [WithInt(jump, 0)]);
    ExprKeepsSlots(e.left, s);
    ExprKeepsSlots(e.right, s2);
    KeepsSlotsTransitive(s.table, s1.table, CompileExpr(e.right, s2).table);
    if CompileShortCircuit(e, s).code != [] {
      ShortCircuitAssembles(e, s);
    }
  }

  /** `var x;` adds `x` and emits nothing. `var x = init;` adds `x` at the next free address
      and appends to the initializer's code (lowered with `x` already in scope) a push of
      that address and STORE. Either fails, leaving the table as it was, when the type of an
      identifier initializer cannot be found or `x` is already bound in the innermost scope;
      the second also fails exactly when its initializer does. */
  lemma {:induction false} VarDeclLayout(st: A.Stmt, s: State)
    requires st.VarDecl?
    ensures var name := st.name.value; var r := CompileVarDecl(st, s);
      var kind := if st.init.None? then Some(A.Unknown) else DeclType(st.init.value, s.table);
      && (kind.None? ==> r == Fail(s))
      && (kind.Some? && !S.Add(s.table, name, kind.value).0 ==> r == Fail(s))
      && (kind.Some? && S.Add(s.table, name, kind.value).0 ==>
            var t1 := S.Add(s.table, name, kind.value).1;
            && S.Lookup(t1, name) == Some(S.Symbol(name, kind.value, s.table.nextAddress))
            && (st.init.None? ==> r == s.(table := t1))
            && (st.init.Some? ==>
                  var s1 := CompileExpr(st.init.value, s.(table := t1));
                  && (r.code == [] <==> s1.code == [])
                  && (r.code != [] ==>
                        && r.code == s1.code + [WithInt(PushInt, s.table.nextAddress), Bare(Store)]
                        && r.table == s1.table && r.pool == s1.pool)))
  {
    var name := st.name.value;
    var kind := if st.init.None? then Some(A.Unknown) else DeclType(st.init.value, s.table);
    if kind.Some? && S.Add(s.table, name, kind.value).0 && st.init.Some? {
      var t1 := S.Add(s.table, name, kind.value).1;
      var s1 := CompileExpr(st.init.value, s.(table := t1));
      ExprKeepsSlots(st.init.value, s.(table := t1));
      S.SameShapeInnermost(t1, s1.table, name);
      var i := S.Innermost(t1.scopes, name).value;
      assert t1.scopes[i][name].address == s.table.nextAddress;
    }
  }
}
