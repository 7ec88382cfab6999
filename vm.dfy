/** The stack machine that runs the compiler's bytecode (src/VM.cpp). A pure specification
    (one instruction at a time, then a fuel-bounded run) and the `VM` class whose `Run` loop
    updates its fields in place and is proved to follow that specification. */
module Machine {
  import opened Options
  import opened Bytecode

  /** What a print instruction writes to standard output, one line each: `false` for 0,
      `true` for 1, any other number, or a pooled string. */
  datatype Event = PrintedFalse | PrintedTrue | PrintedNumber(x: real) | PrintedText(text: string)

  /** Why `run` gave up and returned -1. */
  datatype Fault =
    | StackUnderflow | DivisionByZero | BadAddress | LogicalOperator | BadStringIndex
    | NoHalt

  datatype Outcome = Halted(value: real) | Failed(fault: Fault)

  /** The machine's fields, and everything printed so far. */
  datatype State = State(stack: seq<real>, memory: seq<real>, pool: seq<string>, pc: int,
                         output: seq<Event>)

  /** One executed instruction either lets the loop go on or makes `run` return. */
  datatype Step = Next(m: State) | Stop(m: State, outcome: Outcome)

  /** A run either returns or is still going when the fuel runs out. */
  datatype Run = Finished(m: State, outcome: Outcome) | OutOfFuel(m: State)

  /** The double `run` returns: the halting value, or -1 after any error. */
  function Result(o: Outcome): (r: real)
    ensures o.Failed? ==> r == -1.0
    ensures o.Halted? ==> r == o.value
  {
    match o
    case Halted(v) => v
    case Failed(_) => -1.0
  }

  /** The state `run` starts from: empty stack and memory, the given pool, pc 0. Output
      already printed (by earlier runs) stays. */
  function Start(pool: seq<string>, printed: seq<Event>): State
  {
    State([], [], pool, 0, printed)
  }

  function Zeros(n: nat): (z: seq<real>)
    ensures |z| == n && forall i :: 0 <= i < n ==> z[i] == 0.0
  {
    seq(n, _ => 0.0)
  }

  predicate IsArithmetic(op: Opcode)
  {
    match op
    case Add | Sub | Mul | Div => true
    case _ => false
  }

  predicate IsComparison(op: Opcode)
  {
    match op
    case Greater | Less | GreaterEqual | LessEqual | EqualEqual | BangEqual => true
    case _ => false
  }

  /** A comparison's truth value, pushed as 1.0 or 0.0. */
  function Compare(op: Opcode, v1: real, v2: real): bool
    requires IsComparison(op)
  {
    if op == Greater then v1 > v2
    else if op == Less then v1 < v2
    else if op == GreaterEqual then v1 >= v2
    else if op == LessEqual then v1 <= v2
    else if op == EqualEqual then v1 == v2
    else v1 != v2
  }

  function Flag(b: bool): real { if b then 1.0 else 0.0 }

  /** The value a two-operand instruction pushes for `val1 op val2`. */
  function Combine(op: Opcode, v1: real, v2: real): real
    requires IsArithmetic(op) || IsComparison(op)
    requires op == Div ==> v2 != 0.0
  {
    if op == Add then v1 + v2
    else if op == Sub then v1 - v2
    else if op == Mul then v1 * v2
    else if op == Div then v1 / v2
    else Flag(Compare(op, v1, v2))
  }

  function Top(s: seq<real>): real
    requires s != []
  {
    s[|s| - 1]
  }

  function Below(s: seq<real>): seq<real>
    requires s != []
  {
    s[..|s| - 1]
  }

  /** ADD, SUB, MUL, DIV and the comparisons (VM.cpp:50-78, 143-190): two values are needed;
      DIV checks its divisor after popping it and before popping the dividend. */
  function BinaryStep(op: Opcode, m: State): (r: Step)
    requires IsArithmetic(op) || IsComparison(op)
    ensures r.Stop? <==> |m.stack| < 2 || (op == Div && Top(m.stack) == 0.0)
  {
    if |m.stack| < 2 then Stop(m, Failed(StackUnderflow))
    else
      var v2 := Top(m.stack);
      var rest := Below(m.stack);
      if op == Div && v2 == 0.0 then Stop(m.(stack := rest), Failed(DivisionByZero))
      else Next(m.(stack := Below(rest) + [Combine(op, Top(rest), v2)]))
  }

  /** NEGATE, NOT and POP (VM.cpp:79-89, 191-197): one value is needed. */
  function UnaryStep(op: Opcode, m: State): (r: Step)
    requires op == Negate || op == Not || op == Pop
    ensures r.Stop? <==> m.stack == []
  {
    if m.stack == [] then Stop(m, Failed(StackUnderflow))
    else
      var v := Top(m.stack);
      var rest := Below(m.stack);
      if op == Negate then Next(m.(stack := rest + [-v]))
      else if op == Not then Next(m.(stack := rest + [Flag(v == 0.0)]))
      else Next(m.(stack := rest))
  }

  /** STORE (VM.cpp:90-106): pops the address, then the value; memory grows zero-filled to
      reach the address; the value is pushed back as the assignment's value. */
  function StoreStep(m: State): (r: Step)
    ensures r.Stop? <==> |m.stack| < 2 || Trunc(Top(m.stack)) < 0
    ensures r.Next? ==> Trunc(Top(m.stack)) < |r.m.memory|
                        && r.m.memory[Trunc(Top(m.stack))] == m.stack[|m.stack| - 2]
  {
    if |m.stack| < 2 then Stop(m, Failed(StackUnderflow))
    else
      var address := Trunc(Top(m.stack));
      var rest := Below(m.stack);
      var value := Top(rest);
      var below := Below(rest);
      if address < 0 then Stop(m.(stack := below), Failed(BadAddress))
      else
        var grown := if address >= |m.memory| then m.memory + Zeros(address + 1 - |m.memory|)
                     else m.memory;
        Next(m.(stack := below + [value], memory := grown[address := value]))
  }

  /** LOAD (VM.cpp:107-117): pops an address and pushes that cell, if it exists. */
  function LoadStep(m: State): (r: Step)
    ensures r.Stop? <==> m.stack == [] || !(0 <= Trunc(Top(m.stack)) < |m.memory|)
    ensures r.Next? ==> r.m.stack != [] && Top(r.m.stack) == m.memory[Trunc(Top(m.stack))]
  {
    if m.stack == [] then Stop(m, Failed(StackUnderflow))
    else
      var address := Trunc(Top(m.stack));
      var rest := Below(m.stack);
      if address < 0 || address >= |m.memory| then Stop(m.(stack := rest), Failed(BadAddress))
      else Next(m.(stack := rest + [m.memory[address]]))
  }

  /** JUMP_IF_FALSE and JUMP_IF_TRUE (VM.cpp:123-142): pop the condition and jump to the
      truncated operand when it is zero (resp. non-zero). */
  function BranchStep(op: Opcode, target: real, m: State): (r: Step)
    requires op == JumpIfFalse || op == JumpIfTrue
    ensures r.Stop? <==> m.stack == []
    ensures r.Next? && r.m.pc != m.pc ==> r.m.pc == Trunc(target)
  {
    if m.stack == [] then Stop(m, Failed(StackUnderflow))
    else
      var taken := if op == JumpIfFalse then Top(m.stack) == 0.0 else Top(m.stack) != 0.0;
      Next(m.(stack := Below(m.stack), pc := if taken then Trunc(target) else m.pc))
  }

  /** CONCAT_STRING (VM.cpp:206-223): pops two pool indices, appends the concatenation to the
      pool and pushes its index. */
  function ConcatStep(m: State): (r: Step)
    ensures r.Stop? <==> |m.stack| < 2 || !(0 <= Trunc(m.stack[|m.stack| - 2]) < |m.pool|)
                         || !(0 <= Trunc(Top(m.stack)) < |m.pool|)
    ensures r.Next? ==> r.m.stack != [] && Top(r.m.stack) == |m.pool| as real && |r.m.pool| == |m.pool| + 1
  {
    if |m.stack| < 2 then Stop(m, Failed(StackUnderflow))
    else
      var i2 := Trunc(Top(m.stack));
      var rest := Below(m.stack);
      var i1 := Trunc(Top(rest));
      var below := Below(rest);
      if i1 < 0 || i1 >= |m.pool| || i2 < 0 || i2 >= |m.pool| then
        Stop(m.(stack := below), Failed(BadStringIndex))
      else
        Next(m.(stack := below + [|m.pool| as real], pool := m.pool + [m.pool[i1] + m.pool[i2]]))
  }

  /** PRINT_VALUE (VM.cpp:224-235). */
  function PrintValueStep(m: State): (r: Step)
    ensures r.Stop? <==> m.stack == []
    ensures r.Next? ==> |r.m.output| == |m.output| + 1
  {
    if m.stack == [] then Stop(m, Failed(StackUnderflow))
    else
      var v := Top(m.stack);
      var e := if v == 0.0 then PrintedFalse else if v == 1.0 then PrintedTrue else PrintedNumber(v);
      Next(m.(stack := Below(m.stack), output := m.output + [e]))
  }

  /** PRINT_STRING (VM.cpp:236-245). */
  function PrintStringStep(m: State): (r: Step)
    ensures r.Stop? <==> m.stack == [] || !(0 <= Trunc(Top(m.stack)) < |m.pool|)
    ensures r.Next? ==> r.m.output == m.output + [PrintedText(m.pool[Trunc(Top(m.stack))])]
  {
    if m.stack == [] then Stop(m, Failed(StackUnderflow))
    else
      var i := Trunc(Top(m.stack));
      var rest := Below(m.stack);
      if i < 0 || i >= |m.pool| then Stop(m.(stack := rest), Failed(BadStringIndex))
      else Next(m.(stack := rest, output := m.output + [PrintedText(m.pool[i])]))
  }

  /** The switch of `run` (VM.cpp:43-249) on an instruction whose pc has already been
      incremented. */
  function Execute(ins: Instr, m: State): (r: Step)
    ensures r.Stop? ==> r.outcome != Failed(NoHalt)
    ensures r.Stop? && r.outcome.Halted? <==> ins.op == Halt
    ensures r.Next? && r.m.pc != m.pc ==> ins.op == Jump || ins.op == JumpIfFalse || ins.op == JumpIfTrue
  {
    match ins.op
    case PushInt => Next(m.(stack := m.stack + [ins.operand]))
    case PushFloat => Next(m.(stack := m.stack + [ins.operand]))
    case PushString => Next(m.(stack := m.stack + [ins.operand]))
    case Add => BinaryStep(ins.op, m)
    case Sub => BinaryStep(ins.op, m)
    case Mul => BinaryStep(ins.op, m)
    case Div => BinaryStep(ins.op, m)
    case Greater => BinaryStep(ins.op, m)
    case Less => BinaryStep(ins.op, m)
    case GreaterEqual => BinaryStep(ins.op, m)
    case LessEqual => BinaryStep(ins.op, m)
    case EqualEqual => BinaryStep(ins.op, m)
    case BangEqual => BinaryStep(ins.op, m)
    case Negate => UnaryStep(ins.op, m)
    case Not => UnaryStep(ins.op, m)
    case Pop => UnaryStep(ins.op, m)
    case Store => StoreStep(m)
    case Load => LoadStep(m)
    case Halt => Stop(m, Halted(if m.stack == [] then 0.0 else Top(m.stack)))
    case JumpIfFalse => BranchStep(ins.op, ins.operand, m)
    case JumpIfTrue => BranchStep(ins.op, ins.operand, m)
    case Jump => Next(m.(pc := Trunc(ins.operand)))
    case And => Stop(m, Failed(LogicalOperator))
    case Or => Stop(m, Failed(LogicalOperator))
    case ConcatString => ConcatStep(m)
    case PrintValue => PrintValueStep(m)
    case PrintString => PrintStringStep(m)
  }

  /** The loop condition `pc < bytecode.size()`: the int pc is converted to an unsigned size,
      so a negative pc ends the loop as well. */
  predicate InRange(code: seq<Instr>, pc: int) { 0 <= pc < |code| }

  /** The state once the pc has been incremented past the fetched instruction. */
  function Fetched(m: State): State
  {
    m.(pc := m.pc + 1)
  }

  /** Fetch, increment pc, dispatch. */
  function Cycle(code: seq<Instr>, m: State): (r: Step)
    requires InRange(code, m.pc)
    ensures r.Stop? ==> r.outcome != Failed(NoHalt)
  {
    Execute(code[m.pc], Fetched(m))
  }

  /** The loop of `run`, for at most `fuel` instructions; leaving the loop without HALT is
      an error (VM.cpp:252-253). */
  function Exec(code: seq<Instr>, m: State, fuel: nat): (r: Run)
    ensures r.Finished? && r.outcome == Failed(NoHalt) ==> !InRange(code, r.m.pc)
    ensures r.OutOfFuel? ==> InRange(code, r.m.pc)
    decreases fuel, 0
  {
    if !InRange(code, m.pc) then Finished(m, Failed(NoHalt))
    else if fuel == 0 then OutOfFuel(m)
    else Resume(code, Cycle(code, m), fuel - 1)
  }

  /** The loop once an instruction has stepped: on to the next round, or out with its outcome. */
  function Resume(code: seq<Instr>, c: Step, fuel: nat): (r: Run)
    requires c.Stop? ==> c.outcome != Failed(NoHalt)
    ensures r.Finished? && r.outcome == Failed(NoHalt) ==> !InRange(code, r.m.pc)
    ensures r.OutOfFuel? ==> InRange(code, r.m.pc)
    decreases fuel, 1
  {
    match c
    case Next(m1) => Exec(code, m1, fuel)
    case Stop(m1, o) => Finished(m1, o)
  }

  /** One round of the loop, given the outcome `c` of its instruction. */
  lemma ExecStep(code: seq<Instr>, m: State, fuel: nat, c: Step)
    requires InRange(code, m.pc) && fuel > 0 && c == Cycle(code, m)
    ensures Exec(code, m, fuel)
            == if c.Next? then Exec(code, c.m, fuel - 1) else Finished(c.m, c.outcome)
  {
  }

  // ---------------------------------------------------------------------------------------
  // The VM class.

  class VM {
    var bytecode: seq<Instr>
    var stack: seq<real>
    var memory: seq<real>
    var stringLiterals: seq<string>
    var pc: int
    /** Standard output, as the events printed so far. */
    var output: seq<Event>

    function Current(): State
      reads this
    {
      State(stack, memory, stringLiterals, pc, output)
    }

    constructor ()
      ensures pc == 0 && bytecode == [] && stack == [] && memory == [] && stringLiterals == []
      ensures output == []
    {
      bytecode := [];
      stack := [];
      memory := [];
      stringLiterals := [];
      pc := 0;
      output := [];
    }

    /** `VM::run`, executing at most `fuel` instructions (None when that bound is hit): the
        result and the final fields are those of `Exec` from the start state, whatever this
        VM held before. */
    method Run(code: seq<Instr>, pool: seq<string>, fuel: nat) returns (r: Option<real>)
      modifies this
      ensures bytecode == code
      ensures var run := Exec(code, Start(pool, old(output)), fuel);
        && Current() == run.m
        && r == (if run.Finished? then Some(Result(run.outcome)) else None)
    {
      bytecode := code;
      stringLiterals := pool;
      stack := [];
      memory := [];
      pc := 0;
      var left := fuel;
      while InRange(bytecode, pc)
        invariant bytecode == code
        invariant Exec(code, Start(pool, old(output)), fuel) == Exec(code, Current(), left)
        decreases left
      {
        if left == 0 {
          return None;
        }
        ghost var before := Current();
        var stop := Cycle1();
        ExecStep(code, before, left, Cycle(code, before));
        if stop.Some? {
          return Some(Result(stop.value));
        }
        left := left - 1;
      }
      return Some(-1.0);
    }

    /** One pass through the loop: fetch, increment pc, dispatch. */
    method Cycle1() returns (stop: Option<Outcome>)
      requires InRange(bytecode, pc)
      modifies this
      ensures bytecode == old(bytecode)
      ensures Cycle(bytecode, old(Current()))
              == if stop.None? then Next(Current()) else Stop(Current(), stop.value)
    {
      ghost var before := Current();
      var instruction := bytecode[pc];
      pc := pc + 1;
      assert Current() == Fetched(before);
      stop := Dispatch(instruction);
    }

    /** One arm of the switch, on the fields. */
    method Dispatch(ins: Instr) returns (stop: Option<Outcome>)
      modifies this
      ensures bytecode == old(bytecode)
      ensures Execute(ins, old(Current()))
              == if stop.None? then Next(Current()) else Stop(Current(), stop.value)
    {
      match ins.op
      case PushInt => stack := stack + [ins.operand]; stop := None;
      case PushFloat => stack := stack + [ins.operand]; stop := None;
      case PushString => stack := stack + [ins.operand]; stop := None;
      case Add => stop := Binary(ins.op);
      case Sub => stop := Binary(ins.op);
      case Mul => stop := Binary(ins.op);
      case Div => stop := Binary(ins.op);
      case Greater => stop := Binary(ins.op);
      case Less => stop := Binary(ins.op);
      case GreaterEqual => stop := Binary(ins.op);
      case LessEqual => stop := Binary(ins.op);
      case EqualEqual => stop := Binary(ins.op);
      case BangEqual => stop := Binary(ins.op);
      case Negate => stop := Unary(ins.op);
      case Not => stop := Unary(ins.op);
      case Pop => stop := Unary(ins.op);
      case Store => stop := StoreValue();
      case Load => stop := LoadValue();
      case Halt =>
        if stack == [] {
          stop := Some(Halted(0.0));
        } else {
          stop := Some(Halted(stack[|stack| - 1]));
        }
      case JumpIfFalse => stop := Branch(ins.op, ins.operand);
      case JumpIfTrue => stop := Branch(ins.op, ins.operand);
      case Jump => pc := Trunc(ins.operand); stop := None;
      case And => stop := Some(Failed(LogicalOperator));
      case Or => stop := Some(Failed(LogicalOperator));
      case ConcatString => stop := Concat();
      case PrintValue => stop := PrintNumber();
      case PrintString => stop := PrintText();
    }

    method Binary(op: Opcode) returns (stop: Option<Outcome>)
      requires IsArithmetic(op) || IsComparison(op)
      modifies this
      ensures bytecode == old(bytecode)
      ensures BinaryStep(op, old(Current()))
              == if stop.None? then Next(Current()) else Stop(Current(), stop.value)
    {
      if |stack| < 2 {
        return Some(Failed(StackUnderflow));
      }
      var val2 := stack[|stack| - 1];
      stack := stack[..|stack| - 1];
      if op == Div && val2 == 0.0 {
        return Some(Failed(DivisionByZero));
      }
      var val1 := stack[|stack| - 1];
      stack := stack[..|stack| - 1];
      stack := stack + [Combine(op, val1, val2)];
      stop := None;
    }

    method Unary(op: Opcode) returns (stop: Option<Outcome>)
      requires op == Negate || op == Not || op == Pop
      modifies this
      ensures bytecode == old(bytecode)
      ensures UnaryStep(op, old(Current()))
              == if stop.None? then Next(Current()) else Stop(Current(), stop.value)
    {
      if stack == [] {
        return Some(Failed(StackUnderflow));
      }
      var val := stack[|stack| - 1];
      stack := stack[..|stack| - 1];
      if op == Negate {
        stack := stack + [-val];
      } else if op == Not {
        stack := stack + [Flag(val == 0.0)];
      }
      stop := None;
    }

    method StoreValue() returns (stop: Option<Outcome>)
      modifies this
      ensures bytecode == old(bytecode)
      ensures StoreStep(old(Current()))
              == if stop.None? then Next(Current()) else Stop(Current(), stop.value)
    {
      if |stack| < 2 {
        return Some(Failed(StackUnderflow));
      }
      var address := Trunc(stack[|stack| - 1]);
      stack := stack[..|stack| - 1];
      var value := stack[|stack| - 1];
      stack := stack[..|stack| - 1];
      if address < 0 {
        return Some(Failed(BadAddress));
      }
      if address >= |memory| {
        memory := memory + Zeros(address + 1 - |memory|);
      }
      memory := memory[address := value];
      stack := stack + [value];
      stop := None;
    }

    method LoadValue() returns (stop: Option<Outcome>)
      modifies this
      ensures bytecode == old(bytecode)
      ensures LoadStep(old(Current()))
              == if stop.None? then Next(Current()) else Stop(Current(), stop.value)
    {
      if stack == [] {
        return Some(Failed(StackUnderflow));
      }
      var address := Trunc(stack[|stack| - 1]);
      stack := stack[..|stack| - 1];
      if address < 0 || address >= |memory| {
        return Some(Failed(BadAddress));
      }
      stack := stack + [memory[address]];
      stop := None;
    }

    method Branch(op: Opcode, target: real) returns (stop: Option<Outcome>)
      requires op == JumpIfFalse || op == JumpIfTrue
      modifies this
      ensures bytecode == old(bytecode)
      ensures BranchStep(op, target, old(Current()))
              == if stop.None? then Next(Current()) else Stop(Current(), stop.value)
    {
      if stack == [] {
        return Some(Failed(StackUnderflow));
      }
      var condition := stack[|stack| - 1];
      stack := stack[..|stack| - 1];
      if (op == JumpIfFalse && condition == 0.0) || (op == JumpIfTrue && condition != 0.0) {
        pc := Trunc(target);
      }
      stop := None;
    }

    method Concat() returns (stop: Option<Outcome>)
      modifies this
      ensures bytecode == old(bytecode)
      ensures ConcatStep(old(Current()))
              == if stop.None? then Next(Current()) else Stop(Current(), stop.value)
    {
      if |stack| < 2 {
        return Some(Failed(StackUnderflow));
      }
      var i2 := Trunc(stack[|stack| - 1]);
      stack := stack[..|stack| - 1];
      var i1 := Trunc(stack[|stack| - 1]);
      stack := stack[..|stack| - 1];
      if i1 < 0 || i1 >= |stringLiterals| || i2 < 0 || i2 >= |stringLiterals| {
        return Some(Failed(BadStringIndex));
      }
      var joined := stringLiterals[i1] + stringLiterals[i2];
      var index := |stringLiterals|;
      stringLiterals := stringLiterals + [joined];
      stack := stack + [index as real];
      stop := None;
    }

    method PrintNumber() returns (stop: Option<Outcome>)
      modifies this
      ensures bytecode == old(bytecode)
      ensures PrintValueStep(old(Current()))
              == if stop.None? then Next(Current()) else Stop(Current(), stop.value)
    {
      if stack == [] {
        return Some(Failed(StackUnderflow));
      }
      var val := stack[|stack| - 1];
      stack := stack[..|stack| - 1];
      if val == 0.0 {
        output := output + [PrintedFalse];
      } else if val == 1.0 {
        output := output + [PrintedTrue];
      } else {
        output := output + [PrintedNumber(val)];
      }
      stop := None;
    }

    method PrintText() returns (stop: Option<Outcome>)
      modifies this
      ensures bytecode == old(bytecode)
      ensures PrintStringStep(old(Current()))
              == if stop.None? then Next(Current()) else Stop(Current(), stop.value)
    {
      if stack == [] {
        return Some(Failed(StackUnderflow));
      }
      var index := Trunc(stack[|stack| - 1]);
      stack := stack[..|stack| - 1];
      if index < 0 || index >= |stringLiterals| {
        return Some(Failed(BadStringIndex));
      }
      output := output + [PrintedText(stringLiterals[index])];
      stop := None;
    }
  }
}
