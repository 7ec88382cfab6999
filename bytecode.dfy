/** The instruction set shared by the compiler and the virtual machine (include/Bytecode.h):
    a closed set of 27 opcodes with fixed numeric codes, their display names, and the
    instruction record of one opcode and one numeric operand. */
module Bytecode {
  import opened Options

  datatype Opcode =
    | PushInt | PushFloat | Add | Sub | Mul | Div | Negate | Pop | Store | Load | Halt
    | JumpIfFalse | Jump | JumpIfTrue
    | Greater | Less | GreaterEqual | LessEqual | EqualEqual | BangEqual | Not | And | Or
    | PushString | ConcatString | PrintValue | PrintString

  /** The enumerator value the source gives each opcode. */
  function Code(op: Opcode): (c: int)
    ensures 0 <= c <= 26
  {
    match op
    case PushInt => 0
    case PushFloat => 1
    case Add => 2
    case Sub => 3
    case Mul => 4
    case Div => 5
    case Negate => 6
    case Pop => 7
    case Store => 8
    case Load => 9
    case Halt => 10
    case JumpIfFalse => 11
    case Jump => 12
    case JumpIfTrue => 13
    case Greater => 14
    case Less => 15
    case GreaterEqual => 16
    case LessEqual => 17
    case EqualEqual => 18
    case BangEqual => 19
    case Not => 20
    case And => 21
    case Or => 22
    case PushString => 23
    case ConcatString => 24
    case PrintValue => 25
    case PrintString => 26
  }

  /** The opcode an integer code stands for, if it is one of the enumerated codes. */
  function Decode(c: int): (r: Option<Opcode>)
    ensures r.Some? <==> 0 <= c <= 26
    ensures r.Some? ==> Code(r.value) == c
  {
    if c < 14 then DecodeLow(c) else DecodeHigh(c)
  }

  function DecodeLow(c: int): (r: Option<Opcode>)
    ensures r.Some? <==> 0 <= c < 14
    ensures r.Some? ==> Code(r.value) == c
  {
    if c == 0 then Some(PushInt)
    else if c == 1 then Some(PushFloat)
    else if c == 2 then Some(Add)
    else if c == 3 then Some(Sub)
    else if c == 4 then Some(Mul)
    else if c == 5 then Some(Div)
    else if c == 6 then Some(Negate)
    else if c == 7 then Some(Pop)
    else if c == 8 then Some(Store)
    else if c == 9 then Some(Load)
    else if c == 10 then Some(Halt)
    else if c == 11 then Some(JumpIfFalse)
    else if c == 12 then Some(Jump)
    else if c == 13 then Some(JumpIfTrue)
    else None
  }

  function DecodeHigh(c: int): (r: Option<Opcode>)
    ensures r.Some? <==> 14 <= c <= 26
    ensures r.Some? ==> Code(r.value) == c
  {
    if c == 14 then Some(Greater)
    else if c == 15 then Some(Less)
    else if c == 16 then Some(GreaterEqual)
    else if c == 17 then Some(LessEqual)
    else if c == 18 then Some(EqualEqual)
    else if c == 19 then Some(BangEqual)
    else if c == 20 then Some(Not)
    else if c == 21 then Some(And)
    else if c == 22 then Some(Or)
    else if c == 23 then Some(PushString)
    else if c == 24 then Some(ConcatString)
    else if c == 25 then Some(PrintValue)
    else if c == 26 then Some(PrintString)
    else None
  }

  /** Decoding an opcode's code gives the opcode back, so the 27 codes are pairwise distinct. */
  lemma CodeRoundTrip(op: Opcode)
    ensures Decode(Code(op)) == Some(op)
  {
    match op
    case PushInt => case PushFloat => case Add => case Sub => case Mul => case Div =>
    case Negate => case Pop => case Store => case Load => case Halt => case JumpIfFalse =>
    case Jump => case JumpIfTrue => case Greater => case Less => case GreaterEqual =>
    case LessEqual => case EqualEqual => case BangEqual => case Not => case And => case Or =>
    case PushString => case ConcatString => case PrintValue => case PrintString =>
  }

  lemma CodeInjective(a: Opcode, b: Opcode)
    requires Code(a) == Code(b)
    ensures a == b
  {
    CodeRoundTrip(a);
    CodeRoundTrip(b);
  }

  /** The display name of an opcode (the cases of `instruction_to_string`). */
  function Name(op: Opcode): (s: string)
    ensures s != "" && s != "UNKNOWN"
  {
    match op
    case PushInt => "PUSH_INT"
    case PushFloat => "PUSH_FLOAT"
    case Add => "ADD"
    case Sub => "SUB"
    case Mul => "MUL"
    case Div => "DIV"
    case Negate => "NEGATE"
    case Pop => "POP"
    case Store => "STORE"
    case Load => "LOAD"
    case Halt => "HALT"
    case JumpIfFalse => "JUMP_IF_FALSE"
    case Jump => "JUMP"
    case JumpIfTrue => "JUMP_IF_TRUE"
    case Greater => "GREATER"
    case Less => "LESS"
    case GreaterEqual => "GREATER_EQUAL"
    case LessEqual => "LESS_EQUAL"
    case EqualEqual => "EQUAL_EQUAL"
    case BangEqual => "BANG_EQUAL"
    case Not => "NOT"
    case And => "AND"
    case Or => "OR"
    case PushString => "PUSH_STRING"
    case ConcatString => "CONCAT_STRING"
    case PrintValue => "PRINT_VALUE"
    case PrintString => "PRINT_STRING"
  }

  /** `instruction_to_string` applied to an enum value holding code `c`: an enumerated code
      renders as its opcode's name, any other value as "UNKNOWN". */
  function InstructionToString(c: int): (s: string)
    ensures 0 <= c <= 26 ==> s == Name(Decode(c).value)
    ensures !(0 <= c <= 26) ==> s == "UNKNOWN"
  {
    match Decode(c)
    case Some(op) => Name(op)
    case None => "UNKNOWN"
  }

  /** The only opcode whose name could have length `n` and begin with `a` then `b`
      (the 27 names differ in these three features). */
  function OpcodeWithShape(n: nat, a: char, b: char): Option<Opcode>
  {
    if n == 2 then (if a == 'O' then Some(Or) else None)
    else if n == 3 then
      if a == 'A' then (if b == 'D' then Some(Add) else Some(And))
      else if a == 'S' then Some(Sub)
      else if a == 'M' then Some(Mul)
      else if a == 'D' then Some(Div)
      else if a == 'P' then Some(Pop)
      else if a == 'N' then Some(Not)
      else None
    else if n == 4 then
      if a == 'L' then (if b == 'O' then Some(Load) else Some(Less))
      else if a == 'H' then Some(Halt)
      else if a == 'J' then Some(Jump)
      else None
    else if n == 5 then Some(Store)
    else if n == 6 then Some(Negate)
    else if n == 7 then Some(Greater)
    else if n == 8 then Some(PushInt)
    else if n == 10 then
      if a == 'P' then Some(PushFloat)
      else if a == 'L' then Some(LessEqual)
      else Some(BangEqual)
    else if n == 11 then
      if a == 'E' then Some(EqualEqual)
      else if b == 'U' then Some(PushString)
      else Some(PrintValue)
    else if n == 12 then (if a == 'J' then Some(JumpIfTrue) else Some(PrintString))
    else if n == 13 then
      if a == 'J' then Some(JumpIfFalse)
      else if a == 'G' then Some(GreaterEqual)
      else Some(ConcatString)
    else None
  }

  /** The opcode carrying a given display name: the inverse of Name. */
  function Named(s: string): (r: Option<Opcode>)
    ensures r.Some? ==> Name(r.value) == s
  {
    if |s| < 2 then None
    else match OpcodeWithShape(|s|, s[0], s[1])
      case Some(op) => if Name(op) == s then Some(op) else None
      case None => None
  }

  /** Every opcode's name reads back as that opcode, and none is "UNKNOWN". */
  lemma NameRoundTrip(op: Opcode)
    ensures Named(Name(op)) == Some(op)
    ensures Name(op) != "UNKNOWN"
  {
    var n := Name(op);
    assert OpcodeWithShape(|n|, n[0], n[1]) == Some(op);
    assert |n| != 7 || n[0] != 'U';
  }

  /** The 27 names are pairwise distinct. */
  lemma NameInjective(a: Opcode, b: Opcode)
    requires Name(a) == Name(b)
    ensures a == b
  {
    NameRoundTrip(a);
    NameRoundTrip(b);
  }

  /** The rendering of a raw code never confuses an unknown code with a real opcode. */
  lemma UnknownCodeNamesNoOpcode(c: int, op: Opcode)
    requires !(0 <= c <= 26)
    ensures InstructionToString(c) != Name(op)
  {
    NameRoundTrip(op);
  }

  /** One instruction: an opcode and a numeric operand (a `double` in the source), whose
      meaning (literal, jump target, memory address, string-pool index) depends on the opcode. */
  datatype Instr = Instr(op: Opcode, operand: real)

  /** `static_cast<int>` of a double: truncation toward zero. */
  function Trunc(x: real): (n: int)
    ensures x >= 0.0 ==> n as real <= x < n as real + 1.0
    ensures x < 0.0 ==> n as real - 1.0 < x <= n as real
  {
    if x >= 0.0 then x.Floor else -((-x).Floor)
  }

  /** The constructor without an operand (Bytecode.h:86): operand 0.0. */
  function Bare(op: Opcode): (r: Instr)
    ensures r.op == op && r.operand == 0.0
  {
    Instr(op, 0.0)
  }

  /** The int constructor (Bytecode.h:89): the integer is stored exactly, so truncating the
      operand gives it back. */
  function WithInt(op: Opcode, n: int): (r: Instr)
    ensures r.op == op && r.operand == n as real
    ensures Trunc(r.operand) == n
  {
    TruncOfInt(n);
    Instr(op, n as real)
  }

  /** The float constructor (Bytecode.h:92), with the `float` taken as an exact real. */
  function WithFloat(op: Opcode, x: real): (r: Instr)
    ensures r.op == op && r.operand == x
  {
    Instr(op, x)
  }

  /** Truncation is exact on whole numbers and agrees with the integer it came from. */
  lemma TruncOfInt(n: int)
    ensures Trunc(n as real) == n
  {
  }
}
