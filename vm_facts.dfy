/** Properties of the virtual machine (src/VM.cpp): each instruction's effect on the stack,
    pc, memory, pool and output, and facts about whole runs. */
module MachineFacts {
  import opened Options
  import opened Bytecode
  import opened Machine

  // ---------------------------------------------------------------------------------------
  // Stack discipline.

  predicate IsJump(op: Opcode)
  {
    match op
    case Jump | JumpIfFalse | JumpIfTrue => true
    case _ => false
  }

  /** How many values each instruction takes off the stack. */
  function Pops(op: Opcode): nat
  {
    match op
    case Add | Sub | Mul | Div | Greater | Less | GreaterEqual | LessEqual | EqualEqual
         | BangEqual | Store | ConcatString => 2
    case Negate | Not | Pop | Load | JumpIfFalse | JumpIfTrue | PrintValue | PrintString => 1
    case PushInt | PushFloat | PushString | Halt | Jump | And | Or => 0
  }

  /** How many values each instruction that lets the loop go on leaves in their place. */
  function Pushes(op: Opcode): nat
  {
    match op
    case PushInt | PushFloat | PushString | Add | Sub | Mul | Div | Greater | Less
         | GreaterEqual | LessEqual | EqualEqual | BangEqual | Negate | Not | Store | Load
         | ConcatString => 1
    case Pop | JumpIfFalse | JumpIfTrue | PrintValue | PrintString | Halt | Jump | And | Or => 0
  }

  /** Printed output and the string pool only grow. */
  predicate Extends(m: State, m1: State)
  {
    m.pool <= m1.pool && m.output <= m1.output
  }

  /** What every instruction of `op` obeys when executed on `m` with outcome `r`: a stack
      underflow is reported exactly when fewer values than it pops are on the stack, and
      then before anything is changed; when the loop goes on, exactly its pops came off the
      top, everything below is untouched and its pushes were added, and only a jump moved
      the pc; whatever happens, the pool and the output only grew. */
  predicate Disciplined(op: Opcode, m: State, r: Step)
  {
    && ((r.Stop? && r.outcome == Failed(StackUnderflow)) <==> |m.stack| < Pops(op))
    && (|m.stack| < Pops(op) ==> r.m == m)
    && (r.Next? ==>
          && Pops(op) <= |m.stack|
          && |r.m.stack| == |m.stack| - Pops(op) + Pushes(op)
          && r.m.stack[..|m.stack| - Pops(op)] == m.stack[..|m.stack| - Pops(op)]
          && (!IsJump(op) ==> r.m.pc == m.pc))
    && Extends(m, r.m)
  }

  lemma {:induction false} BinaryDisciplined(op: Opcode, m: State)
    requires IsArithmetic(op) || IsComparison(op)
    ensures Disciplined(op, m, BinaryStep(op, m))
  {
    if |m.stack| >= 2 {
      assert Below(Below(m.stack)) == m.stack[..|m.stack| - 2];
    }
  }

  lemma {:induction false} UnaryDisciplined(op: Opcode, m: State)
    requires op == Negate || op == Not || op == Pop
    ensures Disciplined(op, m, UnaryStep(op, m))
  {
    if m.stack != [] {
      assert Below(m.stack) == m.stack[..|m.stack| - 1];
    }
  }

  lemma {:induction false} StoreDisciplined(m: State)
    ensures Disciplined(Store, m, StoreStep(m))
  {
    if |m.stack| >= 2 {
      assert Below(Below(m.stack)) == m.stack[..|m.stack| - 2];
    }
  }

  lemma {:induction false} LoadDisciplined(m: State)
    ensures Disciplined(Load, m, LoadStep(m))
  {
    if m.stack != [] {
      assert Below(m.stack) == m.stack[..|m.stack| - 1];
    }
  }

  lemma {:induction false} BranchDisciplined(op: Opcode, target: real, m: State)
    requires op == JumpIfFalse || op == JumpIfTrue
    ensures Disciplined(op, m, BranchStep(op, target, m))
  {
    if m.stack != [] {
      assert Below(m.stack) == m.stack[..|m.stack| - 1];
    }
  }

  lemma {:induction false} ConcatDisciplined(m: State)
    ensures Disciplined(ConcatString, m, ConcatStep(m))
  {
    if |m.stack| >= 2 {
      assert Below(Below(m.stack)) == m.stack[..|m.stack| - 2];
    }
  }

  lemma {:induction false} PrintValueDisciplined(m: State)
    ensures Disciplined(PrintValue, m, PrintValueStep(m))
  {
    if m.stack != [] {
      assert Below(m.stack) == m.stack[..|m.stack| - 1];
    }
  }

  lemma {:induction false} PrintStringDisciplined(m: State)
    ensures Disciplined(PrintString, m, PrintStringStep(m))
  {
    var r := PrintStringStep(m);
    assert Pops(PrintString) == 1 && Pushes(PrintString) == 0 && !IsJump(PrintString);
    if m.stack != [] {
      var below := m.stack[..|m.stack| - 1];
      assert Below(m.stack) == below;
      var i := Trunc(Top(m.stack));
      if 0 <= i < |m.pool| {
        assert r == Next(m.(stack := below, output := m.output + [PrintedText(m.pool[i])]));
        assert m.output <= r.m.output;
        assert r.m.stack[..|m.stack| - 1] == below;
      } else {
        assert r == Stop(m.(stack := Below(m.stack)), Failed(BadStringIndex));
      }
    }
  }

  /** Every instruction keeps the discipline above. */
  lemma {:induction false} ExecuteDisciplined(ins: Instr, m: State)
    ensures Disciplined(ins.op, m, Execute(ins, m))
  {
    match ins.op
    case PushInt | PushFloat | PushString =>
      assert (m.stack + [ins.operand])[..|m.stack|] == m.stack;
    case Add | Sub | Mul | Div | Greater | Less | GreaterEqual | LessEqual | EqualEqual | BangEqual =>
      BinaryDisciplined(ins.op, m);
    case Negate | Not | Pop => UnaryDisciplined(ins.op, m);
    case Store => StoreDisciplined(m);
    case Load => LoadDisciplined(m);
    case Halt =>
    case JumpIfFalse | JumpIfTrue => BranchDisciplined(ins.op, ins.operand, m);
    case Jump =>
    case And | Or =>
    case ConcatString => ConcatDisciplined(m);
    case PrintValue => PrintValueDisciplined(m);
    case PrintString => PrintStringDisciplined(m);
  }

  // ---------------------------------------------------------------------------------------
  // Control.

  /** The pc is incremented before dispatch: an instruction that does not jump moves on to
      the next slot, JUMP goes to its operand, and a conditional jump pops one value and
      goes to its operand exactly when that value is zero (JUMP_IF_FALSE) or non-zero
      (JUMP_IF_TRUE). */
  lemma {:induction false} CycleMovesPc(code: seq<Instr>, m: State)
    requires InRange(code, m.pc)
    ensures var ins := code[m.pc]; var r := Cycle(code, m);
      && (r.Next? && !IsJump(ins.op) ==> r.m.pc == m.pc + 1)
      && (ins.op == Jump ==> r == Next(m.(pc := Trunc(ins.operand))))
      && (ins.op == JumpIfFalse && m.stack != [] ==>
            r == Next(m.(stack := Below(m.stack),
                         pc := if Top(m.stack) == 0.0 then Trunc(ins.operand) else m.pc + 1)))
      && (ins.op == JumpIfTrue && m.stack != [] ==>
            r == Next(m.(stack := Below(m.stack),
                         pc := if Top(m.stack) != 0.0 then Trunc(ins.operand) else m.pc + 1)))
  {
    var ins := code[m.pc];
    ExecuteDisciplined(ins, Fetched(m));
  }

  // ---------------------------------------------------------------------------------------
  // Values.

  /** The two-operand instructions take the value below the top as their left operand
      (`val1`) and the top as their right operand (`val2`), and push `val1 op val2` in
      their place. */
  lemma {:induction false} OperandsInOrder(op: Opcode, m: State)
    requires IsArithmetic(op) || IsComparison(op)
    requires BinaryStep(op, m).Next?
    ensures var v1 := m.stack[|m.stack| - 2]; var v2 := m.stack[|m.stack| - 1];
      && (op == Div ==> v2 != 0.0)
      && BinaryStep(op, m).m.stack == m.stack[..|m.stack| - 2] + [Combine(op, v1, v2)]
  {
    assert Below(Below(m.stack)) == m.stack[..|m.stack| - 2];
    assert Below(m.stack)[|m.stack| - 2] == m.stack[|m.stack| - 2];
  }

  /** The comparisons and NOT push only 0.0 or 1.0: a comparison 1.0 exactly when its
      relation holds, NOT 1.0 exactly when its operand is zero. */
  lemma {:induction false} ComparisonsPushFlags(op: Opcode, m: State)
    requires IsComparison(op) || op == Not
    ensures var r := if op == Not then UnaryStep(op, m) else BinaryStep(op, m);
      r.Next? ==>
        && r.m.stack != [] && (Top(r.m.stack) == 0.0 || Top(r.m.stack) == 1.0)
        && (IsComparison(op) ==>
              (Top(r.m.stack) == 1.0 <==> Compare(op, m.stack[|m.stack| - 2], m.stack[|m.stack| - 1])))
        && (op == Not ==> (Top(r.m.stack) == 1.0 <==> m.stack[|m.stack| - 1] == 0.0))
  {
    if IsComparison(op) && BinaryStep(op, m).Next? {
      OperandsInOrder(op, m);
    }
  }

  /** DIV fails on a zero divisor, with the divisor already popped and the dividend still on
      the stack. */
  lemma {:induction false} DivisionByZeroFails(m: State)
    requires |m.stack| >= 2
    ensures BinaryStep(Div, m).Stop? <==> Top(m.stack) == 0.0
    ensures Top(m.stack) == 0.0 ==>
      BinaryStep(Div, m) == Stop(m.(stack := m.stack[..|m.stack| - 1]), Failed(DivisionByZero))
  {
  }

  /** STORE to address `a` (the truncated top of stack) under the value `v`: a negative
      address fails; otherwise memory grows zero-filled to at least `a + 1` cells, cell `a`
      holds `v`, every other cell keeps its value (or is a new zero), and `v` replaces the
      two popped values. */
  lemma {:induction false} StoreWrites(m: State)
    requires |m.stack| >= 2
    ensures var a := Trunc(m.stack[|m.stack| - 1]);
      var v := m.stack[|m.stack| - 2];
      var r := StoreStep(m);
      && (r.Stop? <==> a < 0)
      && (a >= 0 ==>
            && |r.m.memory| == (if a < |m.memory| then |m.memory| else a + 1)
            && r.m.memory[a] == v
            && (forall i :: 0 <= i < |r.m.memory| && i != a ==>
                  r.m.memory[i] == if i < |m.memory| then m.memory[i] else 0.0)
            && r.m.stack == m.stack[..|m.stack| - 2] + [v])
  {
    assert Below(Below(m.stack)) == m.stack[..|m.stack| - 2];
  }

  /** LOAD of address `a` pushes cell `a` when it exists and fails otherwise. */
  lemma {:induction false} LoadReads(m: State)
    requires m.stack != []
    ensures var a := Trunc(m.stack[|m.stack| - 1]);
      var r := LoadStep(m);
      && (r.Next? <==> 0 <= a < |m.memory|)
      && (0 <= a < |m.memory| ==> r.m.stack == m.stack[..|m.stack| - 1] + [m.memory[a]])
      && r.m.memory == m.memory
  {
  }

  /** A value stored at a non-negative address is what a LOAD of that address then
      pushes. */
  lemma {:induction false} LoadAfterStore(m: State, address: real)
    requires |m.stack| >= 2 && Trunc(m.stack[|m.stack| - 1]) >= 0 && Trunc(address) >= 0
    requires Trunc(address) == Trunc(m.stack[|m.stack| - 1])
    ensures var m1 := StoreStep(m).m;
      var r := LoadStep(m1.(stack := m1.stack + [address]));
      r.Next? && Top(r.m.stack) == m.stack[|m.stack| - 2]
  {
    StoreWrites(m);
  }

  function StringAt(pool: seq<string>, i: int): Option<string>
  {
    if 0 <= i < |pool| then Some(pool[i]) else None
  }

  /** CONCAT_STRING of indices `i1` (below) and `i2` (top) appends `pool[i1] + pool[i2]` as
      the new last entry, pushes its index (the old pool size) and keeps every older entry. */
  lemma {:induction false} ConcatAppends(m: State)
    requires |m.stack| >= 2
    ensures var i1 := Trunc(m.stack[|m.stack| - 2]);
      var i2 := Trunc(m.stack[|m.stack| - 1]);
      var r := ConcatStep(m);
      && (r.Next? <==> StringAt(m.pool, i1).Some? && StringAt(m.pool, i2).Some?)
      && (r.Next? ==>
            && r.m.pool == m.pool + [m.pool[i1] + m.pool[i2]]
            && r.m.stack == m.stack[..|m.stack| - 2] + [|m.pool| as real]
            && StringAt(r.m.pool, Trunc(Top(r.m.stack))) == Some(m.pool[i1] + m.pool[i2]))
  {
    assert Below(Below(m.stack)) == m.stack[..|m.stack| - 2];
    assert Below(m.stack)[|m.stack| - 2] == m.stack[|m.stack| - 2];
    if ConcatStep(m).Next? {
      TruncOfInt(|m.pool|);
    }
  }

  /** PRINT_VALUE writes `false` for 0, `true` for 1 and the number otherwise; PRINT_STRING
      writes the pooled string, or fails on an index outside the pool. */
  lemma {:induction false} PrintsWhatIsOnTop(m: State)
    requires m.stack != []
    ensures var v := m.stack[|m.stack| - 1];
      && PrintValueStep(m).Next?
      && PrintValueStep(m).m.output
         == m.output + [if v == 0.0 then PrintedFalse else if v == 1.0 then PrintedTrue
                        else PrintedNumber(v)]
      && (PrintStringStep(m).Next? <==> StringAt(m.pool, Trunc(v)).Some?)
      && (PrintStringStep(m).Next? ==>
            PrintStringStep(m).m.output == m.output + [PrintedText(m.pool[Trunc(v)])])
  {
  }

  /** HALT ends the run with the top of the stack, or 0 on an empty stack; AND and OR end it
      with -1. */
  lemma {:induction false} HaltAndLogicalOperators(ins: Instr, m: State)
    ensures ins.op == Halt ==>
      Result(Execute(ins, m).outcome) == (if m.stack == [] then 0.0 else m.stack[|m.stack| - 1])
    ensures ins.op == And || ins.op == Or ==>
      Execute(ins, m).Stop? && Result(Execute(ins, m).outcome) == -1.0
  {
  }

  // ---------------------------------------------------------------------------------------
  // Whole runs.

  /** Nothing printed is ever taken back and no pooled string is ever replaced, however
      far a run goes. */
  lemma {:induction false} ExecExtends(code: seq<Instr>, m: State, fuel: nat)
    ensures Extends(m, Exec(code, m, fuel).m)
    decreases fuel
  {
    if InRange(code, m.pc) && fuel > 0 {
      var c := Cycle(code, m);
      ExecStep(code, m, fuel, c);
      CycleExtends(code, m);
      if c.Next? {
        ExecExtends(code, c.m, fuel - 1);
      }
    }
  }

  lemma {:induction false} CycleExtends(code: seq<Instr>, m: State)
    requires InRange(code, m.pc)
    ensures Extends(m, Cycle(code, m).m)
  {
    ExecuteExtends(code[m.pc], Fetched(m));
  }

  lemma {:induction false} ExecuteExtends(ins: Instr, m: State)
    ensures Extends(m, Execute(ins, m).m)
  {
    ExecuteDisciplined(ins, m);
  }

  /** A step taken after `earlier` had already been printed. */
  function After(earlier: seq<Event>, r: Step): Step
  {
    match r
    case Next(m) => Next(m.(output := earlier + m.output))
    case Stop(m, o) => Stop(m.(output := earlier + m.output), o)
  }

  function Behind(earlier: seq<Event>, m: State): State
  {
    m.(output := earlier + m.output)
  }

  lemma {:induction false} PrintsIgnoreOutput(m: State, earlier: seq<Event>)
    ensures PrintValueStep(Behind(earlier, m)) == After(earlier, PrintValueStep(m))
    ensures PrintStringStep(Behind(earlier, m)) == After(earlier, PrintStringStep(m))
  {
    if m.stack != [] {
      var v := Top(m.stack);
      var e := if v == 0.0 then PrintedFalse else if v == 1.0 then PrintedTrue else PrintedNumber(v);
      assert (earlier + m.output) + [e] == earlier + (m.output + [e]);
      var i := Trunc(v);
      if 0 <= i < |m.pool| {
        assert (earlier + m.output) + [PrintedText(m.pool[i])]
               == earlier + (m.output + [PrintedText(m.pool[i])]);
      }
    }
  }

  /** What was printed before an instruction plays no part in it. */
  lemma {:induction false} ExecuteIgnoresOutput(ins: Instr, m: State, earlier: seq<Event>)
    ensures Execute(ins, Behind(earlier, m)) == After(earlier, Execute(ins, m))
  {
    match ins.op
    case PrintValue => PrintsIgnoreOutput(m, earlier);
    case PrintString => PrintsIgnoreOutput(m, earlier);
    case Add | Sub | Mul | Div | Greater | Less | GreaterEqual | LessEqual | EqualEqual
      | BangEqual => BinaryIgnoresOutput(ins.op, m, earlier);
    case Negate | Not | Pop => UnaryIgnoresOutput(ins.op, m, earlier);
    case Store => StoreLoadIgnoreOutput(m, earlier);
    case Load => StoreLoadIgnoreOutput(m, earlier);
    case JumpIfFalse | JumpIfTrue => BranchIgnoresOutput(ins.op, ins.operand, m, earlier);
    case ConcatString => ConcatIgnoresOutput(m, earlier);
    case _ =>
  }

  lemma {:induction false} BinaryIgnoresOutput(op: Opcode, m: State, earlier: seq<Event>)
    requires IsArithmetic(op) || IsComparison(op)
    ensures BinaryStep(op, Behind(earlier, m)) == After(earlier, BinaryStep(op, m))
  {
  }

  lemma {:induction false} UnaryIgnoresOutput(op: Opcode, m: State, earlier: seq<Event>)
    requires op == Negate || op == Not || op == Pop
    ensures UnaryStep(op, Behind(earlier, m)) == After(earlier, UnaryStep(op, m))
  {
  }

  lemma {:induction false} StoreLoadIgnoreOutput(m: State, earlier: seq<Event>)
    ensures StoreStep(Behind(earlier, m)) == After(earlier, StoreStep(m))
    ensures LoadStep(Behind(earlier, m)) == After(earlier, LoadStep(m))
  {
  }

  lemma {:induction false} BranchIgnoresOutput(op: Opcode, target: real, m: State,
                                               earlier: seq<Event>)
    requires op == JumpIfFalse || op == JumpIfTrue
    ensures BranchStep(op, target, Behind(earlier, m)) == After(earlier, BranchStep(op, target, m))
  {
  }

  lemma {:induction false} ConcatIgnoresOutput(m: State, earlier: seq<Event>)
    ensures ConcatStep(Behind(earlier, m)) == After(earlier, ConcatStep(m))
  {
  }

  lemma {:induction false} CycleIgnoresOutput(code: seq<Instr>, m: State, earlier: seq<Event>)
    requires InRange(code, m.pc)
    ensures Cycle(code, Behind(earlier, m)) == After(earlier, Cycle(code, m))
  {
    var ins := code[m.pc];
    var m0 := Fetched(m);
    BehindKeepsPc(earlier, m);
    assert Cycle(code, m) == Execute(ins, m0);
    assert Cycle(code, Behind(earlier, m)) == Execute(ins, Behind(earlier, m0));
    ExecuteIgnoresOutput(ins, m0, earlier);
  }

  lemma {:induction false} BehindKeepsPc(earlier: seq<Event>, m: State)
    ensures Behind(earlier, m).pc == m.pc
    ensures Fetched(Behind(earlier, m)) == Behind(earlier, Fetched(m))
  {
  }

  /** `run` starts afresh: its result, stack, memory, pool and pc do not depend on what
      earlier runs printed, and its own output is appended after theirs. */
  lemma {:induction false} ExecIgnoresOutput(code: seq<Instr>, m: State, earlier: seq<Event>,
                                              fuel: nat)
    ensures var r := Exec(code, m, fuel);
      Exec(code, Behind(earlier, m), fuel)
      == if r.Finished? then Finished(Behind(earlier, r.m), r.outcome)
         else OutOfFuel(Behind(earlier, r.m))
    decreases fuel, 0
  {
    var b := Behind(earlier, m);
    BehindKeepsPc(earlier, m);
    if InRange(code, m.pc) && fuel > 0 {
      CycleIgnoresOutput(code, m, earlier);
      ResumeIgnoresOutput(code, Cycle(code, m), earlier, fuel - 1);
    } else if InRange(code, m.pc) {
      assert Exec(code, b, fuel) == OutOfFuel(b);
    } else {
      assert Exec(code, b, fuel) == Finished(b, Failed(NoHalt));
    }
  }

  /** The same for the rest of the loop after one instruction has stepped. */
  lemma {:induction false} ResumeIgnoresOutput(code: seq<Instr>, c: Step, earlier: seq<Event>,
                                                fuel: nat)
    requires c.Stop? ==> c.outcome != Failed(NoHalt)
    ensures var r := Resume(code, c, fuel);
      Resume(code, After(earlier, c), fuel)
      == if r.Finished? then Finished(Behind(earlier, r.m), r.outcome)
         else OutOfFuel(Behind(earlier, r.m))
    decreases fuel, 1
  {
    if c.Next? {
      ExecIgnoresOutput(code, c.m, earlier, fuel);
    }
  }

  /** The fuel bound is only a bound: a run that finishes within some fuel finishes the same
      way with any more. */
  lemma {:induction false} MoreFuelSameRun(code: seq<Instr>, m: State, fuel: nat, more: nat)
    requires Exec(code, m, fuel).Finished? && fuel <= more
    ensures Exec(code, m, more) == Exec(code, m, fuel)
    decreases fuel
  {
    if InRange(code, m.pc) {
      var c := Cycle(code, m);
      ExecStep(code, m, fuel, c);
      ExecStep(code, m, more, c);
      if c.Next? {
        MoreFuelSameRun(code, c.m, fuel - 1, more - 1);
      }
    }
  }

  /** A run whose pc leaves the program (past the end, or negative after a jump) returns -1:
      the program did not halt. */
  lemma {:induction false} FallingOffFails(code: seq<Instr>, m: State, fuel: nat)
    requires !InRange(code, m.pc)
    ensures Exec(code, m, fuel) == Finished(m, Failed(NoHalt))
    ensures Result(Exec(code, m, fuel).outcome) == -1.0
  {
  }
}
