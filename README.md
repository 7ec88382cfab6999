# CoCompiler in Dafny

A model of the compiler pipeline of CoCompiler, a small C++ compiler and virtual machine for
a toy language with `var` declarations, assignment, arithmetic, comparison, short-circuit
`&&`/`||`, `if`/`else`, blocks and `print`. The stages are:

- the lexer (`src/Lexer.cpp`) turns source text into tokens (`include/Tokens.h`);
- the recursive-descent parser (`src/Parser.cpp`) builds a syntax tree (`include/AST.h`);
- the compiler (`src/Compiler.cpp`) checks types against a scoped symbol table
  (`src/SymbolTable.cpp`) and emits a stack bytecode (`include/Bytecode.h`);
- the virtual machine (`src/VM.cpp`) runs that bytecode over a stack of doubles, a growable
  memory and a string pool.

## Modules

One module per component:

| module | file | what it holds |
|---|---|---|
| `Options` | options.dfy | the option type. |
| `Decimal` | decimal.dfy | `std::to_string`, `std::stoi` and `std::stof` on the decimal spellings the pipeline produces and reads. |
| `Tokens` | tokens.dfy | token kinds, tokens and `Token::toString`. |
| `Bytecode` | bytecode.dfy | opcodes with their enumerator values, `instruction_to_string`, the instruction record and its constructors, and truncation toward zero for `static_cast<int>`. |
| `Ast` | ast.dfy | the syntax tree and every node's `getType`. |
| `Symbols` | symbol_table.dfy | the symbol table, as a value with one function per operation, and as a class that updates its fields in place. |
| `CodeGen` | codegen.dfy | the compiler, as functions over a state (buffer, table, pool), and the `Compiler` class whose methods are proved against them. |
| `CompilerFacts` | codegen_proofs.dfy | what the compiler guarantees: soundness of the emitted code, code layouts, scope discipline, type resolution, and the declaration-type defect and its repair. |
| `Machine` | vm.dfy | one-step semantics of every instruction, a fuel-bounded run, and the `VM` class. |
| `MachineFacts` | vm_facts.dfy | the stack discipline of every instruction, the meaning of each opcode, and run-level facts. |
| `Scanner` | lexer.dfy | the lexer, as functions over a cursor (position, line, column) and as the `Lexer` class. |
| `ScannerFacts` | lexer_facts.dfy | maximal munch, keyword and operator spelling, string escapes, comments, error reporting, and the end-of-file token. |
| `Syntax` | parser.dfy | the parser, as functions from a token position to a parsed node and the next position, and as the `Parser` class. |
| `SyntaxFacts` | parser_facts.dfy | the parser builds only well-formed trees, the printing and parsing round trip, precedence, associativity, error recovery, and `else if`. |

### Imperative code

Every imperative part of the source is a Dafny class with the source's fields:
- `Lexer`: position, line, column, errors;
- `Parser`: tokens, position;
- `SymbolTable`: scopes, next address;
- `Compiler`: bytecode, string literals, table;
- `VM`: bytecode, pool, stack, memory, pc.

Its methods carry `modifies` clauses and loops with invariants, and each is proved equal to a
pure function of the same module. The lemmas are stated about those functions.

### How the model represents the source

- A null node is `None`.
- The symbol `lookupSymbol` returns is named by the index of the scope that holds it. A write
  into it (Compiler.cpp:150) is the table operation `RetypeAt`.
- Doubles are `real`.
- `static_cast<int>` of a double is truncation toward zero.

### Where the model follows the code instead of the documented design

- **Assignment type check.** The check also passes when the right-hand side's type is UNKNOWN
  (Compiler.cpp:136), not only on an exact match.
- **Declaration types.** A declaration takes the initializer's `getType`, not its resolved
  type (Compiler.cpp:348-361). When that tag is IDENTIFIER_EXPRESSION, the model looks up the
  identifier under any unary and assignment nodes (`CodeGen.DeclType`). The code as written
  casts the initializer itself and crashes when it is not an identifier; the finding below
  keeps that behaviour as `CodeGen.DeclTypeAsWritten`.
- **Failed blocks.** A block that fails part-way never leaves its scope (Compiler.cpp:396), so
  a failed `compile` leaves names bound: `CompilerFacts.FailedCompileLeavesNames`.
- **Global scope.** `compile` enters a second scope on top of the global scope that the
  constructor already entered (Compiler.cpp:12, 28).

## Model

| member | source | states |
|---|---|---|
| Decimal.DigitChar | src/Lexer.cpp:27-29 | The character for a digit value is a decimal digit whose distance from '0' is that value. |
| Decimal.DigitValue | src/Compiler.cpp:78 | A digit character's value lies in 0..9. |
| Decimal.NatToString | include/Tokens.h:109 | `std::to_string` of a natural is a non-empty run of digits with no leading zero. |
| Decimal.IntToString | include/Tokens.h:109 | The spelling of an int is non-empty and starts with '-' exactly when the number is negative. |
| Decimal.NatToStringRoundTrip | include/Tokens.h:109 | Reading back the digits `to_string` writes gives the number: spelling and reading are inverse. |
| Decimal.MagnitudeSpelling | include/Tokens.h:109 | Behind the '-' of a negative number's spelling is the spelling of its magnitude. |
| Decimal.NatToStringInjective | include/Tokens.h:109 | Distinct naturals are spelled differently. |
| Decimal.IntToStringInjective | include/Tokens.h:109 | Distinct integers are spelled differently. |
| Decimal.DigitPrefixLength | src/Compiler.cpp:78 | The prefix `std::stoi` reads is all digits and is followed by a non-digit or the end. |
| Decimal.StoiValue | src/Compiler.cpp:78 | On an all-digit lexeme (what the lexer produces for INT_LITERAL), `stoi` gives the decimal value of the whole lexeme. |
| Decimal.StofOfNatString | src/Compiler.cpp:81 | `stof` of a whole number's decimal spelling gives that number back. |
| Decimal.StofValue | src/Compiler.cpp:81 | `stof` is never below the value of the digit prefix it reads, and on an all-digit lexeme it is exactly that lexeme's decimal value; its value on a `digits.digits` lexeme is in StofOfFloatLexeme. |
| Decimal.DigitPrefixStopsAt | src/Lexer.cpp:60-66 | the leading digit run of a digit string followed by a non-digit (the lexeme's '.') is exactly that digit string. |
| Decimal.PointSplits | src/Lexer.cpp:60-66 | in a lexeme `w.f` with w all digits, stoi's digit run is exactly w, followed by the '.' and then f. |
| Decimal.StofAtPoint | src/Compiler.cpp:80-81 | `stof` of a lexeme whose digit run w is followed by '.' and an all-digit rest f reads w as the whole part and f as the fraction. |
| Decimal.StofOfFloatLexeme | src/Compiler.cpp:80-81 | `stof` of a FLOAT_LITERAL lexeme `w.f` is the whole part w plus f divided by ten to the power of f's length, for any digit strings w and f (f may be empty, as in `1.`). |
| Tokens.TypeNamed | include/Tokens.h:73-108 | A kind recovered from a name prints as that name: the inverse of the switch. |
| Tokens.TypeNameRoundTrip | include/Tokens.h:75-107 | Every kind's name reads back as that kind, and no kind reaches the "UNKNOWN" default arm. |
| Tokens.TypeNameInjective | include/Tokens.h:75-105 | The kind names are pairwise distinct. |
| Tokens.ToStringLayout | include/Tokens.h:109 | The rendering starts `Token(`, then the kind's name and a comma, then the lexeme verbatim, then `", L`. |
| Tokens.FieldLayout | include/Tokens.h:109 | Where each piece of the rendering sits, for any name, lexeme and position text. |
| Tokens.ToStringDistinguishesKinds | include/Tokens.h:73-110 | Tokens of different kinds never render to the same text. |
| Tokens.FieldEndsAtComma | include/Tokens.h:109 | Two comma-free fields at the same offset, each ending at a comma, are equal (the kind field is delimited). |
| Tokens.CommaWithin | include/Tokens.h:109 | A field longer than one ending at a comma contains that comma. |
| Tokens.NameHasNoComma | include/Tokens.h:76-105 | No kind's name contains a comma. |
| Tokens.TypeName | include/Tokens.h:73-108 | Every kind has a non-empty name of its own, never the "UNKNOWN" default. |
| Tokens.ToString | include/Tokens.h:109 | The rendering starts with `Token(`, ends with `)` and is longer than the kind's name and the lexeme together. |
| Bytecode.Code | include/Bytecode.h:7-41 | Every opcode's enumerator value lies in 0..26. |
| Bytecode.Decode | include/Bytecode.h:7-41 | A code decodes exactly when it lies in 0..26, and to the opcode whose value it is. |
| Bytecode.CodeRoundTrip | include/Bytecode.h:7-41 | Decoding an opcode's value gives the opcode back. |
| Bytecode.CodeInjective | include/Bytecode.h:7-41 | No two opcodes share an enumerator value. |
| Bytecode.InstructionToString | include/Bytecode.h:48-79 | A value in 0..26 renders as its opcode's name; any other value renders as "UNKNOWN". |
| Bytecode.Named | include/Bytecode.h:50-76 | An opcode recovered from a name renders as that name. |
| Bytecode.Name | include/Bytecode.h:50-76 | Every opcode has a non-empty name of its own, never the "UNKNOWN" default. |
| Bytecode.NameRoundTrip | include/Bytecode.h:50-77 | Every opcode's name reads back as that opcode, and none is "UNKNOWN". |
| Bytecode.NameInjective | include/Bytecode.h:50-76 | The 27 names are pairwise distinct. |
| Bytecode.UnknownCodeNamesNoOpcode | include/Bytecode.h:77 | The rendering of an out-of-range value is never confused with an opcode's name. |
| Bytecode.Trunc | src/VM.cpp:92 | `static_cast<int>` of a double truncates toward zero: within one below a non-negative value, within one above a negative one. |
| Bytecode.Bare | include/Bytecode.h:86 | An instruction built without an operand has operand 0.0. |
| Bytecode.WithInt | include/Bytecode.h:89 | The operand is the int converted to a double, exactly; truncating it gives the int back. |
| Bytecode.WithFloat | include/Bytecode.h:92 | A float operand is stored unchanged. |
| Bytecode.TruncOfInt | include/Bytecode.h:89 | Truncation is exact on whole numbers. |
| Ast.LiteralType | include/AST.h:70-76 | A literal is INTEGER, FLOAT or STRING_LITERAL exactly for int, float and string tokens, and UNKNOWN exactly for every other token. |
| Ast.ExprType | include/AST.h:55-176 | `getType` of an expression is always one of the six expression tags. |
| Ast.StmtType | include/AST.h:204-285 | Every statement except an expression statement has a statement tag (AST.h:204, 238, 265, 285), never an expression tag. |
| Ast.Core | include/AST.h:55-58 | Unary and assignment nodes are transparent to `getType`: an expression has the identifier tag exactly when its innermost operand under them is an identifier. |
| Ast.BinaryTypeByRank | include/AST.h:165-175 | Outside `+` on strings, an UNKNOWN operand gives UNKNOWN, and otherwise the result is the higher-ranked of FLOAT, INTEGER and BOOLEAN_LITERAL among the operands. |
| Ast.ConcatenationType | include/AST.h:153-161 | `+` is STRING_LITERAL exactly on two strings; a string next to a number is UNKNOWN. |
| Ast.BinaryTypeSymmetric | include/AST.h:148-176 | The binary type rule does not depend on operand order. |
| Ast.BinaryType | include/AST.h:148-176 | The result is one of STRING_LITERAL, FLOAT, INTEGER, BOOLEAN_LITERAL and UNKNOWN. It is STRING_LITERAL exactly for `+` on two strings. An UNKNOWN operand gives UNKNOWN. FLOAT, INTEGER and BOOLEAN_LITERAL each hold exactly when that is the highest rank among the operands and no operand is unknown or mixes a string into `+`. |
| Symbols.Exit | src/SymbolTable.cpp:23-30 | Leaving a scope never leaves the table without a scope and never touches the address counter. |
| Symbols.Innermost | src/SymbolTable.cpp:60-68 | The scope found binds the name and no inner scope does; nothing is found exactly when no scope binds it. |
| Symbols.Add | src/SymbolTable.cpp:39-52 | Adding succeeds exactly when a scope exists and the innermost one lacks the name. Failure changes nothing. Success binds the name to the next address and bumps the counter by one. |
| Symbols.SameShapeInnermost | src/SymbolTable.cpp:60-68 | Tables binding the same names in the same scopes resolve every name in the same scope. |
| Symbols.RetypeLookups | src/Compiler.cpp:149-151 | Retyping the symbol a lookup finds changes only that symbol's type, and no other name's lookup. |
| Symbols.RetypeAt | src/Compiler.cpp:149-151 | Writing a type into the symbol found changes that binding's type and nothing else. |
| Symbols.InitialIsWellFormed | src/SymbolTable.cpp:8-10 | The fresh table has one empty scope, counter 0, no lookups, and is well formed. |
| Symbols.ExitUndoesEnter | src/SymbolTable.cpp:15-30 | Leaving a scope just entered gives the table back. |
| Symbols.EnterKeepsLookups | src/SymbolTable.cpp:15-17 | Entering a scope changes no lookup. |
| Symbols.ExitKeepsGlobalScope | src/SymbolTable.cpp:23-30 | Exit pops exactly one scope when there are several, and none when there is one. |
| Symbols.Shadowing | src/SymbolTable.cpp:45-50 | A name bound only in an outer scope can be declared again. The new binding shadows the outer one, and leaving the scope brings the outer one back. |
| Symbols.AddLeavesOtherNames | src/SymbolTable.cpp:45-51 | Adding a name changes no other name's lookup. |
| Symbols.EnterPreservesWellFormed | src/SymbolTable.cpp:15-17 | Entering a scope keeps the table well formed. |
| Symbols.ExitPreservesWellFormed | src/SymbolTable.cpp:23-30 | Leaving a scope keeps the table well formed. |
| Symbols.AddKeepsOldBinding | src/SymbolTable.cpp:50 | Every binding after a successful add, except the new one, was there before with the same symbol. |
| Symbols.AddPreservesWellFormed | src/SymbolTable.cpp:50 | The new symbol's address is held by no live symbol, so addresses stay unique. |
| Symbols.RetypePreservesWellFormed | src/Compiler.cpp:149-151 | Retyping keeps the table well formed and keeps its shape. |
| Symbols.RetypeKeepsShape | src/Compiler.cpp:150 | Retyping changes no scope, no bound name and not the counter. |
| Symbols.AddressesStrictlyIncrease | src/SymbolTable.cpp:50 | Over any history of operations, exits included, the addresses handed out strictly increase and are never reused. |
| Symbols.ReplayPreservesWellFormed | src/SymbolTable.cpp:15-52 | Any history of operations keeps the table well formed. |
| Symbols.Initial | src/SymbolTable.cpp:8-10 | The fresh table has one scope and counter 0, and no name is found in it. |
| Symbols.Enter | src/SymbolTable.cpp:15-17 | One more scope, empty and innermost; the counter and every lookup are unchanged. |
| Symbols.Lookup | src/SymbolTable.cpp:60-68 | Nothing is found exactly when no scope binds the name. Otherwise the symbol found is the binding in some scope that binds the name, and no scope inside that one binds it. |
| Symbols.Replay | src/SymbolTable.cpp:15-52 | Over any history of operations, the counter grows by exactly the number of successful adds, and there are at most as many of those as operations. |
| Symbols.SymbolTable.constructor | src/SymbolTable.cpp:8-10 | Starts with one empty scope and address 0. |
| Symbols.SymbolTable.EnterScope | src/SymbolTable.cpp:15-17 | Pushes an empty scope; the counter is unchanged. |
| Symbols.SymbolTable.ExitScope | src/SymbolTable.cpp:23-30 | Pops the innermost scope when there are several, and otherwise changes nothing. |
| Symbols.SymbolTable.AddSymbol | src/SymbolTable.cpp:39-52 | Returns true exactly when a scope exists and the innermost one lacks the name; the new state is `Add` of the old. |
| Symbols.SymbolTable.LookupSymbol | src/SymbolTable.cpp:60-68 | The loop finds the innermost scope binding the name, and the symbol there is what lookup returns. |
| Symbols.SymbolTable.SetSymbolType | src/Compiler.cpp:150 | The new state is the old one with that binding retyped. |
| CodeGen.GrowsTransitive | src/Compiler.cpp:69-453 | Growth of the buffer, pool and counter composes across steps that do not fail. |
| CodeGen.PatchGrows | src/Compiler.cpp:206 | Backpatching a jump emitted later keeps an earlier buffer as a prefix. |
| CodeGen.Emit | src/Compiler.cpp:79 | Pushing instructions appends them to the buffer and changes nothing else. |
| CodeGen.Fail | src/Compiler.cpp:111 | A failure clears the buffer and keeps the table and pool. |
| CodeGen.PatchToEnd | src/Compiler.cpp:206 | Backpatching sets only that jump's operand, to the buffer's size. |
| CodeGen.LiteralType | src/Compiler.cpp:49-61 | A literal is BOOLEAN_LITERAL exactly for `true`/`false`, and otherwise has the literal's own `getType`. |
| CodeGen.ResolveType | src/Compiler.cpp:476-520 | A declared identifier resolves to its recorded type and an undeclared one to UNKNOWN. A binary node is STRING_LITERAL exactly for `+` of two resolved strings; otherwise it takes the higher-ranked of its operands' resolved types, booleans read as integers, and is UNKNOWN when either operand is not numeric or boolean. Every other node gives its `getType`. |
| CodeGen.ResolveBinary | src/Compiler.cpp:490-516 | On resolved operand types: STRING_LITERAL exactly for `+` of two strings; otherwise the higher-ranked numeric or boolean type, booleans read as integers, and UNKNOWN when either operand is neither. Never BOOLEAN_LITERAL. |
| CodeGen.DeclType | src/Compiler.cpp:347-365 | The repaired declaration type. A non-identifier-tagged initializer gives its own `getType`. The type is missing exactly when the identifier under the initializer is undeclared. |
| CodeGen.OperandType | src/Compiler.cpp:164-176 | A `true`/`false` literal operand is BOOLEAN_LITERAL; every other operand has its resolved type. |
| CodeGen.DeclTypeAsWritten | src/Compiler.cpp:347-361 | The code as written dereferences null exactly when the initializer has the identifier tag but is not itself an identifier. Otherwise it agrees with the repaired `DeclType`: the same type, or an undeclared initializer in both. |
| CodeGen.ArithmeticOpcode | src/Compiler.cpp:284-290 | `-`, `*` and `/` map to SUB, MUL and DIV: SUB exactly for `-`, MUL exactly for `*`, DIV otherwise. |
| CodeGen.ComparisonOpcode | src/Compiler.cpp:306-318 | Each comparison token maps to the opcode of the same name. |
| CodeGen.CompileExpr | src/Compiler.cpp:69-340 | Lowering an expression keeps the buffer as a prefix or clears it, only appends to the pool, and keeps the table's shape. |
| CodeGen.CompileLiteral | src/Compiler.cpp:74-90 | A number appends one push. A string is appended to the pool, which changes exactly then. Any other literal emits nothing. |
| CodeGen.CompileBool | src/Compiler.cpp:92-103 | `true` pushes 1 and anything else pushes 0. |
| CodeGen.CompileIdent | src/Compiler.cpp:105-117 | Fails exactly when the name is undeclared; otherwise appends a push of the symbol's address and LOAD. |
| CodeGen.CompileUnary | src/Compiler.cpp:326-340 | Keeps the buffer as a prefix or clears it, and keeps the table's shape. |
| CodeGen.CompileAssignment | src/Compiler.cpp:119-156 | Keeps the buffer as a prefix or clears it, and keeps the table's shape (only a type changes). |
| CodeGen.CompileBinary | src/Compiler.cpp:158-324 | Keeps the buffer as a prefix or clears it, and keeps the table's shape. |
| CodeGen.CompileOperands | src/Compiler.cpp:279-290 | Keeps the buffer as a prefix or clears it, and keeps the table's shape. |
| CodeGen.CompileShortCircuit | src/Compiler.cpp:186-245 | Keeps the buffer as a prefix or clears it, and keeps the table's shape. |
| CodeGen.CompileStmt | src/Compiler.cpp:69-453 | Lowering a statement keeps the buffer as a prefix or clears it, and only grows the pool and the counter. |
| CodeGen.CompileBlock | src/Compiler.cpp:391-400 | Keeps the buffer as a prefix or clears it. |
| CodeGen.CompilePrint | src/Compiler.cpp:435-447 | Keeps the buffer as a prefix or clears it. |
| CodeGen.CompileItems | src/Compiler.cpp:394-397 | The loop stops early only on a cleared buffer; run to the end over a non-empty list, it leaves a non-empty buffer. |
| CodeGen.CompileVarDecl | src/Compiler.cpp:342-389 | Keeps the buffer as a prefix or clears it. |
| CodeGen.CompileInitializer | src/Compiler.cpp:375-388 | Keeps the buffer as a prefix or clears it. |
| CodeGen.CompileIf | src/Compiler.cpp:402-433 | Keeps the buffer as a prefix or clears it. |
| CodeGen.CompileProgram | src/Compiler.cpp:24-41 | The program is empty, or it came from a tree and ends in HALT. The buffer keeps the program, and the pool only grew. |
| CodeGen.StringLiteralAt | src/Compiler.cpp:460-468 | An index inside the pool gives that string; any other index gives the fixed error text. |
| CodeGen.Compiler.constructor | src/Compiler.cpp:12-15 | Empty buffer and pool, and a fresh table holding the global scope. |
| CodeGen.Compiler.GetStringLiteral | src/Compiler.cpp:460-468 | Returns `StringLiteralAt` of the pool. |
| CodeGen.Compiler.GetStringLiterals | src/Compiler.cpp:526-528 | Returns the pool. |
| CodeGen.Compiler.Compile | src/Compiler.cpp:24-41 | Result and new state are `CompileProgram` of the old state. |
| CodeGen.Compiler.CompileNode | src/Compiler.cpp:69-453 | New state is `CompileStmt` of the old. |
| CodeGen.Compiler.CompilePrintStatement | src/Compiler.cpp:435-447 | New state is `CompilePrint` of the old. |
| CodeGen.Compiler.CompileBlockStatement | src/Compiler.cpp:391-400 | The statement loop, with its invariant, gives `CompileBlock` of the old state. |
| CodeGen.Compiler.CompileVariableDeclaration | src/Compiler.cpp:342-372 | New state is `CompileVarDecl` of the old. |
| CodeGen.Compiler.CompileInitializerExpression | src/Compiler.cpp:375-388 | New state is `CompileInitializer` of the old. |
| CodeGen.Compiler.CompileIfStatement | src/Compiler.cpp:402-414 | New state is `CompileIf` of the old. |
| CodeGen.Compiler.FinishIfStatement | src/Compiler.cpp:416-432 | The else jump, the backpatches and the else-branch complete `CompileIf`. |
| CodeGen.Compiler.CompileExpression | src/Compiler.cpp:69-340 | New state is `CompileExpr` of the old. |
| CodeGen.Compiler.CompileLiteralExpression | src/Compiler.cpp:74-90 | New state is `CompileLiteral` of the old. |
| CodeGen.Compiler.CompileBooleanLiteral | src/Compiler.cpp:92-103 | New state is `CompileBool` of the old. |
| CodeGen.Compiler.CompileIdentifier | src/Compiler.cpp:105-117 | New state is `CompileIdent` of the old. |
| CodeGen.Compiler.CompileUnaryExpression | src/Compiler.cpp:326-340 | New state is `CompileUnary` of the old. |
| CodeGen.Compiler.CompileAssignmentExpression | src/Compiler.cpp:119-156 | New state is `CompileAssignment` of the old, the type written into the symbol included. |
| CodeGen.Compiler.CompileBinaryExpression | src/Compiler.cpp:158-324 | New state is `CompileBinary` of the old. |
| CodeGen.Compiler.CompileOperandsThen | src/Compiler.cpp:247-318 | New state is `CompileOperands` of the old. |
| CodeGen.Compiler.CompileShortCircuitExpression | src/Compiler.cpp:186-245 | New state is `CompileShortCircuit` of the old. |
| CompilerFacts.AppendSound | src/Compiler.cpp:79 | Appending sound instructions keeps a buffer sound. Sound means every jump lands inside the program or on its HALT slot, every string push names a pooled string, and no HALT, POP, AND or OR occurs. |
| CompilerFacts.PatchSound | src/Compiler.cpp:206 | Backpatching a jump to the buffer's end keeps the buffer sound. |
| CompilerFacts.KeptAt | src/Compiler.cpp:69-453 | After a lowering that succeeds, every earlier instruction is still in its slot, so backpatch indices stay valid. |
| CompilerFacts.ExprSound | src/Compiler.cpp:69-340 | Lowering any expression keeps the buffer sound. |
| CompilerFacts.BoolSound | src/Compiler.cpp:92-103 | Boolean literals keep the buffer sound. |
| CompilerFacts.IdentSound | src/Compiler.cpp:105-117 | Identifier reads keep the buffer sound. |
| CompilerFacts.UnarySound | src/Compiler.cpp:326-340 | Unary nodes keep the buffer sound. |
| CompilerFacts.LiteralSound | src/Compiler.cpp:74-90 | Literals keep the buffer sound; a string push names the entry just pooled. |
| CompilerFacts.AssignmentSound | src/Compiler.cpp:119-156 | Assignments keep the buffer sound. |
| CompilerFacts.StoreTailSound | src/Compiler.cpp:154-155 | Appending an address push and STORE keeps a buffer sound. |
| CompilerFacts.AssignmentAssembles | src/Compiler.cpp:130-155 | A successful assignment is its value's code followed by an address push and STORE, and pools nothing of its own. |
| CompilerFacts.BinarySound | src/Compiler.cpp:158-324 | Binary nodes keep the buffer sound. |
| CompilerFacts.OperandsSound | src/Compiler.cpp:247-318 | Operands followed by an operator instruction keep the buffer sound. |
| CompilerFacts.ShortCircuitSound | src/Compiler.cpp:186-245 | The short-circuit operators keep the buffer sound, both backpatched jumps included. |
| CompilerFacts.ShortCircuitRightSound | src/Compiler.cpp:197-211 | The right operand and the tail of AND/OR keep the buffer sound. |
| CompilerFacts.ShortCircuitTailSound | src/Compiler.cpp:202-211 | The jump, the constant and the two backpatches of the tail keep a buffer sound. |
| CompilerFacts.StmtSound | src/Compiler.cpp:69-453 | Lowering any statement keeps the buffer sound. |
| CompilerFacts.PrintSound | src/Compiler.cpp:435-447 | Print statements keep the buffer sound. |
| CompilerFacts.ItemsSound | src/Compiler.cpp:394-397 | The statements of a block keep the buffer sound. |
| CompilerFacts.VarDeclSound | src/Compiler.cpp:342-389 | Declarations keep the buffer sound. |
| CompilerFacts.InitializerSound | src/Compiler.cpp:375-388 | Initializers keep the buffer sound. |
| CompilerFacts.IfSound | src/Compiler.cpp:402-433 | `if` statements keep the buffer sound, both backpatches included. |
| CompilerFacts.IfAssembles | src/Compiler.cpp:402-433 | A successful `if` is built from the condition, then-branch and else-branch states by the emits and backpatches the source performs. |
| CompilerFacts.IfBranchesSound | src/Compiler.cpp:409-432 | The branches of an `if` keep the buffer sound. |
| CompilerFacts.ElseSound | src/Compiler.cpp:417-431 | The else jump, the conditional patch, the else-branch and the final patch keep the buffer sound. |
| CompilerFacts.ProgramIsClosed | src/Compiler.cpp:24-41 | A compiled program ends with its only HALT. Every jump lands on a slot of the program, and every string push names a pooled string. |
| CompilerFacts.ExtendsTransitive | src/Compiler.cpp:391-400 | Adding names only to the innermost scope composes. |
| CompilerFacts.AddExtends | src/Compiler.cpp:368 | A successful add only adds a name to the innermost scope. |
| CompilerFacts.ExitAfterEnter | src/Compiler.cpp:393-399 | Leaving a block's scope gives back exactly the scopes and names the block started with. |
| CompilerFacts.StmtBalanced | src/Compiler.cpp:69-453 | A statement that succeeds leaves the same scopes, adding names only to the innermost one. |
| CompilerFacts.ItemsBalanced | src/Compiler.cpp:394-397 | A statement list that runs to its end leaves the same scopes, adding names only to the innermost one. |
| CompilerFacts.VarDeclBalanced | src/Compiler.cpp:342-389 | A successful declaration adds its name to the innermost scope only. |
| CompilerFacts.IfBalanced | src/Compiler.cpp:402-433 | A successful `if` leaves the same scopes, adding names only to the innermost one. |
| CompilerFacts.CompileLeavesNoDeclarations | src/Compiler.cpp:24-41 | After a successful `compile` the table has the same scopes binding the same names as before. |
| CompilerFacts.UndeclaredPrintAborts | src/Compiler.cpp:391-397 | A block printing an undeclared name fails and never leaves the scope it entered. |
| CompilerFacts.DeclareFreshLiteral | src/Compiler.cpp:342-388 | `var a = 1;` with `a` new binds it as INTEGER at the next address and emits code. |
| CompilerFacts.VarDeclAddsThenInitializes | src/Compiler.cpp:367-376 | The symbol is added before the initializer is lowered. |
| CompilerFacts.LiteralInitializer | src/Compiler.cpp:375-388 | An integer-literal initializer lowers and leaves the table unchanged. |
| CompilerFacts.SecondItemAborts | src/Compiler.cpp:394-397 | A statement list stops at the first failing statement, keeping the failed state. |
| CompilerFacts.BlockStopsAtFailure | src/Compiler.cpp:394-399 | A block that stops at a failure keeps the failed state, its scope included. |
| CompilerFacts.NestedFailureKeepsScopes | src/Compiler.cpp:391-399 | `{ var a = 1; { print b; } }` fails with both block scopes still entered. |
| CompilerFacts.FailedCompileLeavesNames | src/Compiler.cpp:24-41 | After a failed `compile` of that program, `a` is still bound in a leftover scope. |
| CompilerFacts.ShortCircuitShape | src/Compiler.cpp:202-211 | The tail of AND/OR is a JUMP past the constant and the constant. The conditional jump lands on the constant and the JUMP lands at the end. |
| CompilerFacts.ShortCircuitLayout | src/Compiler.cpp:186-245 | AND/OR lower to: left code, JUMP_IF_FALSE/JUMP_IF_TRUE to the constant, right code, JUMP to the end, then 0/1. |
| CompilerFacts.ShortCircuitAssembles | src/Compiler.cpp:186-245 | A successful AND/OR is built by exactly the source's emits and backpatches. |
| CompilerFacts.IfLayout | src/Compiler.cpp:402-433 | `if` lowers to: condition, JUMP_IF_FALSE past the then-branch (and past its JUMP), the then-branch, and with an else-branch a JUMP to the end and the else code. |
| CompilerFacts.IfThenShape | src/Compiler.cpp:409-424 | The layout of an `if` without else-branch. |
| CompilerFacts.IfElseShape | src/Compiler.cpp:409-432 | The layout of an `if` with an else-branch. |
| CompilerFacts.StringLiteralInterned | src/Compiler.cpp:84-88 | A string literal is pooled and pushed by its index, and `getStringLiteral` of that index gives it back. |
| CompilerFacts.ResolveAgreesWithGetType | src/Compiler.cpp:491-519 | Without identifiers, resolution gives a string exactly when `getType` does. Any type it resolves is `getType`'s, with booleans read as integers. |
| CompilerFacts.BinaryRulesAgree | src/Compiler.cpp:490-516 | Resolution's binary rule and `getType`'s binary rule agree, booleans read as integers, on operands whose types agree in that sense. |
| CompilerFacts.PrintChoosesByType | src/Compiler.cpp:440-446 | Without identifiers, print emits PRINT_STRING exactly when the expression's type is STRING_LITERAL. |
| CompilerFacts.UnaryLayout | src/Compiler.cpp:326-340 | `!` appends NOT and `-` appends NEGATE to the operand's code. The node fails exactly when its operand fails or its operator is neither. |
| CompilerFacts.BinaryChecks | src/Compiler.cpp:158-324 | A node whose operand types the operator refuses fails before lowering anything. An accepted arithmetic, concatenation or comparison node is the left code, the right code, then the operator's instruction from an independent table, and fails exactly when an operand fails. An accepted AND/OR takes the short-circuit layout and fails exactly when an operand fails. |
| CompilerFacts.BinaryDispatch | src/Compiler.cpp:164-323 | The type check picks failure, the short circuit, or operands then the table's instruction. |
| CompilerFacts.OperandsLayout | src/Compiler.cpp:247-318 | Operands then operator: the left code, the right code and the instruction; fails exactly when an operand fails. |
| CompilerFacts.AssignmentChecks | src/Compiler.cpp:119-156 | Assigning an undeclared name fails before lowering the value. Otherwise it fails exactly when the value fails, or when the symbol's type and the value's resolved type are both known and differ. On success it appends a push of the symbol's address and STORE. A symbol of type UNKNOWN takes the value's type, and no other name's symbol changes. |
| CompilerFacts.PrintResolvesType | src/Compiler.cpp:435-447 | For every expression, `print` appends PRINT_STRING when the expression resolves to STRING_LITERAL after it is lowered, and PRINT_VALUE otherwise; it fails exactly when the expression fails. |
| CompilerFacts.PrintDeclaredString | src/Compiler.cpp:435-447 | `print x` with `x` a declared string loads `x`'s slot and prints it as a string. |
| CompilerFacts.KeepsSlotsTransitive | src/Compiler.cpp:149-151 | Keeping every symbol's address composes. |
| CompilerFacts.ExprKeepsSlots | src/Compiler.cpp:69-340 | Lowering an expression keeps every bound name in its scope and at its address. |
| CompilerFacts.AssignmentKeepsSlots | src/Compiler.cpp:119-156 | An assignment changes no symbol's address. |
| CompilerFacts.RetypeKeepsSlots | src/Compiler.cpp:149-151 | Retyping a symbol moves no symbol. |
| CompilerFacts.BinaryKeepsSlots | src/Compiler.cpp:158-324 | A binary node changes no symbol's address. |
| CompilerFacts.OperandsKeepsSlots | src/Compiler.cpp:247-318 | Lowering two operands changes no symbol's address. |
| CompilerFacts.ShortCircuitKeepsSlots | src/Compiler.cpp:186-245 | AND/OR change no symbol's address. |
| CompilerFacts.VarDeclLayout | src/Compiler.cpp:342-389 | A declaration fails, leaving the table as it was, when an identifier initializer is undeclared or the name is already bound in the innermost scope. Otherwise it binds the name at the next free address. `var x;` emits nothing. `var x = init;` is the initializer's code, lowered with `x` in scope, then a push of that address and STORE, and fails exactly when the initializer fails. |
| CompilerFacts.NegatedIdentifierInitializerCrashes | src/Compiler.cpp:350-352 | The code as written dereferences null for `var y = -x;`. |
| CompilerFacts.AsWrittenCrashesExactlyOnWrappedIdentifiers | src/Compiler.cpp:349-352 | The code as written crashes exactly on identifier-tagged initializers that are not themselves identifiers. |
| CompilerFacts.DeclTypeRepairsOnlyTheCrash | src/Compiler.cpp:347-365 | Wherever the code as written does not crash, the repaired type agrees with it, the undeclared-initializer error included. |
| CompilerFacts.NegatedIdentifierTakesItsType | src/Compiler.cpp:350-354 | The repaired type of `var y = -x;` is the declared type of `x`, and fails when `x` is undeclared. |
| CompilerFacts.RedeclarationFails | src/Compiler.cpp:368-371 | Redeclaring a name of the innermost scope clears the buffer and leaves the table unchanged. |
| CompilerFacts.LoneDeclarationCompilesToNothing | src/Compiler.cpp:35-37 | `var x;` alone emits nothing, so `compile` returns no program. |
| CompilerFacts.SelfInitializerReadsNewSlot | src/Compiler.cpp:368-387 | In `var x = x;` shadowing an outer `x`, the initializer loads the new, never-stored slot. |
| CompilerFacts.SelfInitializer | src/Compiler.cpp:375-387 | `var x = x;` on a declared `x` loads from `x`'s slot and stores back into it. |
| Machine.Result | src/VM.cpp:16 | `run` returns -1 after any error and the halting value otherwise. |
| Machine.Zeros | src/VM.cpp:100 | Memory grown by `resize` is filled with zeros. |
| Machine.ExecStep | src/VM.cpp:23-250 | One round of the loop either goes on from the new state or ends the run with its outcome. |
| Machine.BinaryStep | src/VM.cpp:50-190 | Stops exactly when fewer than two values are on the stack, or on DIV by a zero top value. |
| Machine.UnaryStep | src/VM.cpp:79-89 | Stops exactly on an empty stack. |
| Machine.StoreStep | src/VM.cpp:90-106 | Stops exactly when fewer than two values are on the stack or the truncated address is negative. Otherwise memory reaches the address and holds there the value below the address. |
| Machine.LoadStep | src/VM.cpp:107-117 | Stops exactly on an empty stack or an address outside memory. Otherwise the value at the address is on top. |
| Machine.BranchStep | src/VM.cpp:123-142 | Stops exactly on an empty stack. A taken branch sets pc to the truncated target. |
| Machine.ConcatStep | src/VM.cpp:206-223 | Stops exactly when fewer than two values are on the stack or either index is outside the pool. Otherwise the pool grows by one and the new string's index is on top. |
| Machine.PrintValueStep | src/VM.cpp:224-235 | Stops exactly on an empty stack; otherwise one event is printed. |
| Machine.PrintStringStep | src/VM.cpp:236-245 | Stops exactly on an empty stack or an index outside the pool; otherwise the pool string at the index is printed. |
| Machine.Execute | src/VM.cpp:43-249 | Only HALT stops with the halted outcome. No instruction reports the missing-HALT error. Only the three jumps move pc away from the instruction after them. |
| Machine.Cycle | src/VM.cpp:23-249 | One round of the loop never reports the missing-HALT error. |
| Machine.Exec | src/VM.cpp:23-253 | A run reports the missing-HALT error only with pc outside the code, and runs out of fuel only with pc inside it. |
| Machine.Resume | src/VM.cpp:23-253 | The same for the rest of the loop after one instruction has stepped. |
| Machine.VM.constructor | src/VM.cpp:8 | Starts with pc 0 and everything empty. |
| Machine.VM.Run | src/VM.cpp:16-254 | Within the fuel bound, the result and final fields are `Exec` from a reset state, whatever the VM held before. |
| Machine.VM.Cycle1 | src/VM.cpp:24-43 | One pass is the fetch, the pc increment and the dispatch of `Cycle`. |
| Machine.VM.Dispatch | src/VM.cpp:43-249 | The switch arm for the instruction is `Execute` on the fields. |
| Machine.VM.Binary | src/VM.cpp:50-190 | Arithmetic and comparison arms are `BinaryStep`. |
| Machine.VM.Unary | src/VM.cpp:79-89 | NEGATE, POP and NOT are `UnaryStep`. |
| Machine.VM.StoreValue | src/VM.cpp:90-106 | STORE is `StoreStep`. |
| Machine.VM.LoadValue | src/VM.cpp:107-117 | LOAD is `LoadStep`. |
| Machine.VM.Branch | src/VM.cpp:123-142 | The conditional jumps are `BranchStep`. |
| Machine.VM.Concat | src/VM.cpp:206-223 | CONCAT_STRING is `ConcatStep`. |
| Machine.VM.PrintNumber | src/VM.cpp:224-235 | PRINT_VALUE is `PrintValueStep`. |
| Machine.VM.PrintText | src/VM.cpp:236-245 | PRINT_STRING is `PrintStringStep`. |
| MachineFacts.BinaryDisciplined | src/VM.cpp:50-190 | Binary arms underflow exactly below two values, pop two, push one, and keep the rest of the stack. |
| MachineFacts.UnaryDisciplined | src/VM.cpp:79-89 | NEGATE, NOT and POP underflow exactly on an empty stack and touch only its top. |
| MachineFacts.StoreDisciplined | src/VM.cpp:90-106 | STORE underflows exactly below two values, pops two and pushes one. |
| MachineFacts.LoadDisciplined | src/VM.cpp:107-117 | LOAD underflows exactly on an empty stack, pops one and pushes one. |
| MachineFacts.BranchDisciplined | src/VM.cpp:123-142 | Conditional jumps underflow exactly on an empty stack and pop one. |
| MachineFacts.ConcatDisciplined | src/VM.cpp:206-223 | CONCAT_STRING underflows exactly below two values, pops two and pushes one. |
| MachineFacts.PrintValueDisciplined | src/VM.cpp:224-235 | PRINT_VALUE underflows exactly on an empty stack and pops one. |
| MachineFacts.PrintStringDisciplined | src/VM.cpp:236-245 | PRINT_STRING underflows exactly on an empty stack and pops one. |
| MachineFacts.ExecuteDisciplined | src/VM.cpp:43-249 | Every instruction keeps the discipline: underflow exactly when short, leaving the state untouched; exactly its pops and pushes; the pc moves only on jumps; output and pool only grow. |
| MachineFacts.CycleMovesPc | src/VM.cpp:41-142 | The pc moves to the next slot, except that JUMP goes to its operand. JUMP_IF_FALSE/JUMP_IF_TRUE pop and go to the operand exactly on a zero/non-zero value. |
| MachineFacts.OperandsInOrder | src/VM.cpp:50-190 | Binary instructions take `val1` below the top and `val2` on top, and push `val1 op val2`; DIV does so only with a non-zero divisor. |
| MachineFacts.ComparisonsPushFlags | src/VM.cpp:143-197 | Comparisons and NOT push only 0.0 or 1.0: 1.0 exactly when the relation holds, or for NOT when the operand is zero. |
| MachineFacts.DivisionByZeroFails | src/VM.cpp:71-78 | DIV fails exactly on a zero divisor, with the divisor popped and the dividend left. |
| MachineFacts.StoreWrites | src/VM.cpp:90-106 | STORE fails exactly on a negative address. Otherwise memory grows zero-filled to cover the address, the cell holds the value, other cells keep theirs, and the value is pushed back. |
| MachineFacts.LoadReads | src/VM.cpp:107-117 | LOAD succeeds exactly on an address inside memory, pushes that cell, and leaves memory unchanged. |
| MachineFacts.LoadAfterStore | src/VM.cpp:90-117 | A LOAD of the address just stored pushes the stored value. |
| MachineFacts.ConcatAppends | src/VM.cpp:206-223 | CONCAT_STRING succeeds exactly on two valid indices. It appends the joined string as a new pool entry, keeps the older entries and pushes the new index. |
| MachineFacts.PrintsWhatIsOnTop | src/VM.cpp:224-245 | PRINT_VALUE writes `false` for 0, `true` for 1 and the number otherwise. PRINT_STRING writes the pooled string and fails exactly on an index outside the pool. |
| MachineFacts.HaltAndLogicalOperators | src/VM.cpp:118-201 | HALT returns the top of the stack, or 0 on an empty stack; AND and OR end the run with -1. |
| MachineFacts.ExecExtends | src/VM.cpp:23-250 | However far a run goes, nothing printed is taken back and no pooled string is replaced. |
| MachineFacts.CycleExtends | src/VM.cpp:24-249 | One pass only extends output and pool. |
| MachineFacts.ExecuteExtends | src/VM.cpp:43-249 | One instruction only extends output and pool. |
| MachineFacts.PrintsIgnoreOutput | src/VM.cpp:224-245 | What was printed earlier plays no part in a print. |
| MachineFacts.ExecuteIgnoresOutput | src/VM.cpp:43-249 | What was printed earlier plays no part in any instruction. |
| MachineFacts.CycleIgnoresOutput | src/VM.cpp:24-249 | What was printed earlier plays no part in a pass of the loop. |
| MachineFacts.BehindKeepsPc | src/VM.cpp:24 | Earlier output changes neither the pc nor the instruction fetched. |
| MachineFacts.ExecIgnoresOutput | src/VM.cpp:16-254 | What was printed before a run plays no part in it: the outcome, stack, memory, pool and pc are the same, and the run's own output follows the earlier output. |
| MachineFacts.ResumeIgnoresOutput | src/VM.cpp:23-253 | The rest of a run after one step does not depend on earlier output either. |
| MachineFacts.MoreFuelSameRun | src/VM.cpp:23-250 | The fuel is only a bound: a run that finishes finishes the same way with more fuel. |
| MachineFacts.FallingOffFails | src/VM.cpp:252-253 | A pc outside the program, past the end or negative after a jump, ends the run with -1. |
| Scanner.CharAt | src/Lexer.cpp:10-13 | The character at the position, or '\0' at the end. |
| Scanner.Advanced | src/Lexer.cpp:15-21 | Inside the source, one position and one column on; at the end, no change. The line never changes. |
| Scanner.NumberToken | src/Lexer.cpp:56-75 | An INT or FLOAT token whose text is exactly the source it consumes, at the start's line and column, on one line. On a digit it consumes at least one character. |
| Scanner.WordToken | src/Lexer.cpp:134-160 | A token whose text is exactly the source it consumes. It is a keyword exactly when the text is one of the keywords, and an identifier otherwise. On a letter it consumes at least one character, and it stops only at the end or before a character that is not a letter, digit or `_`. |
| Scanner.WithEquals | src/Lexer.cpp:185-220 | Always a token and never an error. It is two characters long exactly when '=' follows, and its kind is the two-character kind then and the one-character kind otherwise. Its text is what it consumes. |
| Scanner.Doubled | src/Lexer.cpp:221-238 | A token exactly when the same character follows, and then the two characters with the given kind. Otherwise an unexpected-character error for the first character at its line and column, and one character consumed. |
| Scanner.Tokenize | src/Lexer.cpp:117-258 | The token list always ends with an end-of-file token with empty text. Empty source gives just that token at line 1, column 1, and no errors. |
| Scanner.Blanks | src/Lexer.cpp:41-54 | Skipping whitespace passes only blanks and stops at a non-blank or the end. |
| Scanner.NumberEnd | src/Lexer.cpp:61-67 | The number loop moves right along one line, column by column. |
| Scanner.WordEnd | src/Lexer.cpp:137-139 | The identifier loop passes only letters, digits and underscores and stops at anything else or the end. |
| Scanner.KeywordKind | src/Lexer.cpp:143-158 | A word gets a keyword kind exactly when it is one of the six keywords. |
| Scanner.StringBody | src/Lexer.cpp:88-104 | The string loop stops at a quote or the end, on the same line. |
| Scanner.QuotedString | src/Lexer.cpp:82-113 | A string literal token sits at the opening quote. It is an end-of-file token exactly when unterminated, and then the rest of the source is consumed and the error is recorded at the quote. |
| Scanner.CommentEnd | src/Lexer.cpp:170-172 | A comment runs up to, not including, the next newline or the end. |
| Scanner.Lexeme | src/Lexer.cpp:125-243 | One pass consumes at least one character on one line, and any token starts where the cursor stood. An end-of-file token only comes from an unterminated string, with its error. |
| Scanner.ScanFrom | src/Lexer.cpp:120-244 | The loop runs to the end of the source and only appends tokens and errors. |
| Scanner.TokenizeFrom | src/Lexer.cpp:117-258 | `tokenize` ends with an empty end-of-file token and keeps earlier errors. |
| Scanner.ScanSkipsBlanks | src/Lexer.cpp:121 | Skipping the blanks first changes nothing about the scan. |
| Scanner.ScanStep | src/Lexer.cpp:120-244 | The scan is one pass followed by the scan of the rest. |
| Scanner.Lexer.constructor | src/Lexer.cpp:5-6 | Starts at position 0, line 1, column 1, with no errors. |
| Scanner.Lexer.Advance | src/Lexer.cpp:15-21 | Steps one column right, or nowhere at the end, and returns the character passed or NUL. |
| Scanner.Lexer.SkipWhitespace | src/Lexer.cpp:41-54 | The loop ends where `Blanks` does. |
| Scanner.Lexer.Number | src/Lexer.cpp:56-75 | The token and cursor are those of the number function. |
| Scanner.Lexer.Word | src/Lexer.cpp:134-160 | The token and cursor are those of the word function. |
| Scanner.Lexer.StringLiteral | src/Lexer.cpp:82-113 | Token, cursor and new errors are those of `QuotedString`. |
| Scanner.Lexer.SkipComment | src/Lexer.cpp:170-172 | The loop ends where `CommentEnd` does. |
| Scanner.Lexer.OneOrTwo | src/Lexer.cpp:185-220 | `=`, `>`, `<` and `!` give the one- or two-character token of the function. |
| Scanner.Lexer.Pair | src/Lexer.cpp:221-238 | The doubled-ampersand and doubled-bar tokens, and the error for a lone ampersand or bar, are those of the function. |
| Scanner.Lexer.LexOne | src/Lexer.cpp:125-243 | One pass is `Lexeme`. |
| Scanner.Lexer.Tokenize | src/Lexer.cpp:117-258 | The loop with its invariant gives `TokenizeFrom`. |
| ScannerFacts.BlankStep | src/Lexer.cpp:44-49 | A blank advances the line and column accounting by one character. |
| ScannerFacts.BlanksFrom | src/Lexer.cpp:41-54 | The accounting holds all the way through the whitespace loop. |
| ScannerFacts.WhitespaceAccounting | src/Lexer.cpp:41-54 | Skipping blanks adds one line per newline, and the column counts the characters since the last newline (or since the start). |
| ScannerFacts.NumeralStep | src/Lexer.cpp:61-66 | A digit, or the first '.', extends the numeral. |
| ScannerFacts.NumeralFrom | src/Lexer.cpp:61-67 | The number loop ends on a numeral that nothing can extend. |
| ScannerFacts.NumberMaximalMunch | src/Lexer.cpp:56-75 | `number` takes the longest run of digits with at most one '.'; the token is a float exactly when that run has a '.'. |
| ScannerFacts.KeywordsExact | src/Lexer.cpp:143-158 | A word has a keyword's kind exactly when it is that keyword's whole spelling. |
| ScannerFacts.WordMaximalMunch | src/Lexer.cpp:134-160 | The longest run of letters, digits and underscores is taken, and it is an identifier exactly when it is no keyword. |
| ScannerFacts.OperatorTokensAreTheirSpelling | src/Lexer.cpp:162-238 | Every operator token's text is the source text it came from, and its kind is the one that spelling names. |
| ScannerFacts.EqualsLongestMatch | src/Lexer.cpp:185-220 | `=`, `>`, `<`, `!` take a following `=` exactly when there is one. |
| ScannerFacts.LoneAmpersandOrBar | src/Lexer.cpp:221-238 | A doubled ampersand or bar is one token. A lone one is consumed, makes no token, and is reported at its own column. |
| ScannerFacts.CommentRunsToLineEnd | src/Lexer.cpp:166-173 | `//` runs up to the newline or the end and makes no token or error. |
| ScannerFacts.BodyEscapedHead | src/Lexer.cpp:90-96 | An escaped quote or backslash reads back as that character. |
| ScannerFacts.BodyPlainHead | src/Lexer.cpp:101-103 | Any other character reads back as itself. |
| ScannerFacts.BodyUnescapes | src/Lexer.cpp:88-104 | The string loop reads `Escape(s)` back as `s` and stops at its end. |
| ScannerFacts.QuoteStartsString | src/Lexer.cpp:184 | A pass on a quote lexes a string literal. |
| ScannerFacts.EscapedStringRoundTrip | src/Lexer.cpp:82-113 | A literal written with `Escape` between quotes lexes to exactly that value, at the quote's position, with no error. |
| ScannerFacts.UnterminatedStringEndsInput | src/Lexer.cpp:106-109 | A quote with no closing quote consumes the rest and gives an end-of-file token and an error at the opening quote. |
| ScannerFacts.UnexpectedCharacterSkipped | src/Lexer.cpp:239-242 | A character that begins no token is reported at its own position and skipped alone. |
| ScannerFacts.ErrorsExactly | src/Lexer.cpp:106-242 | A pass records an error exactly for a character that begins no token, a lone ampersand or bar, or an unterminated string. |
| ScannerFacts.ScanUnfold | src/Lexer.cpp:120-244 | One pass of the scan after the blanks. |
| ScannerFacts.LastPassKeeps | src/Lexer.cpp:106-109 | A pass that ends the source keeps the end-of-file discipline. |
| ScannerFacts.ScanHasNoInnerEof | src/Lexer.cpp:120-244 | The scan yields an end-of-file token only as its last token, and only with an unterminated-string error. |
| ScannerFacts.EndOfFileOnlyAtEnd | src/Lexer.cpp:117-258 | `tokenize` always ends with an end-of-file token. The only other one comes from an unterminated string, stands just before it, and comes with that error last. |
| Syntax.PeekAt | src/Parser.cpp:6-11 | The token at the position; past the last token, an end-of-file token with empty text at line 0, column 0. |
| Syntax.ConsumeAt | src/Parser.cpp:33-41 | `consume` steps on exactly when the kind matches, and never past the end. |
| Syntax.IdentifierAt | src/Parser.cpp:47-51 | Gives a node exactly on an identifier token: that identifier, one step on. |
| Syntax.PrimaryAt | src/Parser.cpp:57-82 | Stays within the tokens, and a node consumes at least one token. |
| Syntax.ParenthesisedAt | src/Parser.cpp:71-81 | Stays within the tokens, and a node consumes at least one token. |
| Syntax.GroupAt | src/Parser.cpp:72-78 | Stays within the tokens, and a node consumes at least one token. |
| Syntax.UnaryAt | src/Parser.cpp:93-101 | Stays within the tokens, and a node consumes at least one token. |
| Syntax.LevelAt | src/Parser.cpp:107-188 | Stays within the tokens, and a node consumes at least one token. |
| Syntax.LoopAt | src/Parser.cpp:110-117 | Stays within the tokens, and gives a node only if the left operand was one. |
| Syntax.AssignmentAt | src/Parser.cpp:194-211 | Stays within the tokens, and a node consumes at least one token. |
| Syntax.ExpressionAt | src/Parser.cpp:217-219 | Stays within the tokens, and a node consumes at least one token. |
| Syntax.VarDeclAt | src/Parser.cpp:226-241 | Any node is a declaration and consumes at least one token. |
| Syntax.InitializerAt | src/Parser.cpp:231-235 | Stays within the tokens. |
| Syntax.PrintAt | src/Parser.cpp:298-306 | Any node is a print statement and consumes at least one token. |
| Syntax.IfAt | src/Parser.cpp:269-291 | Any node is an if statement and consumes at least one token. |
| Syntax.BranchesAt | src/Parser.cpp:276-290 | Any node is an if statement over the given condition. |
| Syntax.ElseAt | src/Parser.cpp:279-287 | An else-branch is an if statement or a block. |
| Syntax.StatementAt | src/Parser.cpp:312-325 | Stays within the tokens, and a node consumes at least one token. |
| Syntax.BlockLoopAt | src/Parser.cpp:250-261 | Any node is a block. |
| Syntax.BlockAt | src/Parser.cpp:247-262 | Any node is a block. |
| Syntax.StatementsAt | src/Parser.cpp:337-346 | The loop of `parse`: the statements already collected stay a prefix. It adds nothing exactly when the next token is the end of file. A statement it adds is never a block. |
| Syntax.ParseFrom | src/Parser.cpp:335-355 | Input at end of file gives null. A block result holds at least two statements. |
| Syntax.ParseTokens | src/Parser.cpp:335-355 | An empty token list, or one that starts at end of file, gives null. A block result holds at least two statements, so one statement comes back unwrapped. |
| Syntax.Parser.constructor | src/Parser.cpp:4 | Holds the tokens, at position 0. |
| Syntax.Parser.Advance | src/Parser.cpp:13-17 | Returns the current token (or end-of-file) and steps one on. |
| Syntax.Parser.Match | src/Parser.cpp:19-25 | Steps on and returns true exactly when the kind matches. |
| Syntax.Parser.MatchLevel | src/Parser.cpp:110-180 | Steps on exactly when the token is an operator of the level. |
| Syntax.Parser.Consume | src/Parser.cpp:33-41 | Token and position are `ConsumeAt`'s. |
| Syntax.Parser.ParseIdentifier | src/Parser.cpp:47-51 | Node and position are `IdentifierAt`'s. |
| Syntax.Parser.Primary | src/Parser.cpp:57-82 | Node and position are `PrimaryAt`'s. |
| Syntax.Parser.Parenthesised | src/Parser.cpp:71-81 | Node and position are `ParenthesisedAt`'s. |
| Syntax.Parser.Group | src/Parser.cpp:72-78 | Node and position are `GroupAt`'s. |
| Syntax.Parser.Unary | src/Parser.cpp:93-101 | Node and position are `UnaryAt`'s. |
| Syntax.Parser.Level | src/Parser.cpp:107-188 | The operand and the loop, with its invariant, give `LevelAt`. |
| Syntax.Parser.Assignment | src/Parser.cpp:194-211 | Node and position are `AssignmentAt`'s. |
| Syntax.Parser.Expression | src/Parser.cpp:217-219 | Node and position are `ExpressionAt`'s. |
| Syntax.Parser.VariableDeclaration | src/Parser.cpp:226-241 | Node and position are `VarDeclAt`'s. |
| Syntax.Parser.Initializer | src/Parser.cpp:231-235 | Node and position are `InitializerAt`'s. |
| Syntax.Parser.Block | src/Parser.cpp:247-262 | The statement loop, with its invariant, gives `BlockAt`. |
| Syntax.Parser.IfStatement | src/Parser.cpp:269-291 | Node and position are `IfAt`'s. |
| Syntax.Parser.Branches | src/Parser.cpp:276-290 | Node and position are `BranchesAt`'s. |
| Syntax.Parser.ElseClause | src/Parser.cpp:279-287 | Node and position are `ElseAt`'s. |
| Syntax.Parser.PrintStatement | src/Parser.cpp:298-306 | Node and position are `PrintAt`'s. |
| Syntax.Parser.Statement | src/Parser.cpp:312-325 | Node and position are `StatementAt`'s. |
| Syntax.Parser.Parse | src/Parser.cpp:335-355 | The statement loop, with its invariant, gives `ParseFrom`. |
| SyntaxFacts.ConsumeReportsMismatch | src/Parser.cpp:6-41 | Past the end, `peek` gives an end-of-file token at 0:0. `consume` returns the matching token one step on, or otherwise an end-of-file token at the current position without moving. |
| SyntaxFacts.PrimaryWellFormed | src/Parser.cpp:57-82 | Every primary built is well formed. |
| SyntaxFacts.ParenthesisedWellFormed | src/Parser.cpp:71-81 | Every parenthesised expression built is well formed. |
| SyntaxFacts.GroupWellFormed | src/Parser.cpp:72-78 | Every group built is well formed. |
| SyntaxFacts.UnaryWellFormed | src/Parser.cpp:93-101 | Every unary built is well formed: only `!` and `-` are prefix operators. |
| SyntaxFacts.LevelWellFormed | src/Parser.cpp:107-188 | Every binary level builds well-formed trees. |
| SyntaxFacts.LoopWellFormed | src/Parser.cpp:110-117 | The loop of a level builds well-formed trees from a well-formed left operand. |
| SyntaxFacts.AssignmentWellFormed | src/Parser.cpp:194-211 | Every assignment built is well formed: the target is an identifier. |
| SyntaxFacts.ExpressionWellFormed | src/Parser.cpp:57-219 | Every expression the parser builds is well formed. |
| SyntaxFacts.InitializerWellFormed | src/Parser.cpp:231-235 | Every initializer built is well formed. |
| SyntaxFacts.StatementWellFormed | src/Parser.cpp:312-325 | Every statement built is well formed. |
| SyntaxFacts.IfWellFormed | src/Parser.cpp:269-291 | Every if statement built is well formed. |
| SyntaxFacts.BranchesWellFormed | src/Parser.cpp:276-290 | The branches are well formed over a well-formed condition. |
| SyntaxFacts.ElseWellFormed | src/Parser.cpp:279-287 | Every else-branch built is well formed. |
| SyntaxFacts.BlockLoopWellFormed | src/Parser.cpp:250-261 | The statement loop of a block builds well-formed blocks. |
| SyntaxFacts.BlockWellFormed | src/Parser.cpp:247-262 | Every block built is well formed. |
| SyntaxFacts.StatementsWellFormed | src/Parser.cpp:337-346 | The statement loop of `parse` gives well-formed statements. |
| SyntaxFacts.ParsedTreesWellFormed | src/Parser.cpp:335-355 | Whatever `parse` returns is well formed. |
| SyntaxFacts.SpelledFromSpells | src/Parser.cpp:57-101 | Tokens that begin with an expression's spelling hold it token by token along the tree. |
| SyntaxFacts.Lift | src/Parser.cpp:107-188 | A finished operand stays finished through the looser levels when the next token is none of their operators. |
| SyntaxFacts.LevelIsExpression | src/Parser.cpp:194-219 | An operand of the loosest level not followed by `=` is a whole expression. |
| SyntaxFacts.Whole | src/Parser.cpp:107-219 | An operand followed by a token that cannot continue it is a whole expression. |
| SyntaxFacts.Enclosed | src/Parser.cpp:71-78 | An expression between `(` and `)` is a primary. |
| SyntaxFacts.AtomParses | src/Parser.cpp:58-70 | A literal, boolean or identifier token is an operand on its own. |
| SyntaxFacts.UnaryCore | src/Parser.cpp:71-99 | A parenthesised prefix operation parses to the unary node. |
| SyntaxFacts.AssignmentCore | src/Parser.cpp:71-208 | A parenthesised assignment parses to the assignment node. |
| SyntaxFacts.AssignsTo | src/Parser.cpp:194-208 | An identifier, `=` and an expression make an assignment. |
| SyntaxFacts.TargetParses | src/Parser.cpp:69-188 | An identifier followed by `=` is a finished operand of the loosest level. |
| SyntaxFacts.LoopStep | src/Parser.cpp:110-115 | One turn of a level's loop builds `l op right` and stops at a non-operator. |
| SyntaxFacts.BinaryLevel | src/Parser.cpp:107-188 | `l op r` parses at `op`'s level to the binary node. |
| SyntaxFacts.LevelEnclosed | src/Parser.cpp:71-78 | An operand of any level between `(` and `)` is a primary. |
| SyntaxFacts.BinaryCore | src/Parser.cpp:71-188 | A parenthesised binary operation parses to the binary node. |
| SyntaxFacts.UnparseParses | src/Parser.cpp:57-219 | The spelling of a well-formed expression parses back to it, ending right after its last token. |
| SyntaxFacts.UnparseUnary | src/Parser.cpp:93-99 | The unary case of that round trip. |
| SyntaxFacts.UnparseAssignment | src/Parser.cpp:194-208 | The assignment case of that round trip. |
| SyntaxFacts.UnparseBinary | src/Parser.cpp:107-188 | The binary case of that round trip. |
| SyntaxFacts.UnparseRightOperand | src/Parser.cpp:107-188 | Once the left operand is parsed, the right operand and the `)` complete the binary node. |
| SyntaxFacts.ExpressionRoundTrip | src/Parser.cpp:57-219 | Parsing the fully parenthesised spelling of a well-formed expression, followed by anything that cannot continue it, gives the expression back and stops right after it. |
| SyntaxFacts.AtomOf | src/Parser.cpp:58-70 | The operand of an atom token is well formed and spelled by that token. |
| SyntaxFacts.AtomOperand | src/Parser.cpp:58-70 | An atom token parses to its operand, one step on. |
| SyntaxFacts.LoopOnce | src/Parser.cpp:110-115 | One turn of a level's loop folds the operator and right operand into the left tree. |
| SyntaxFacts.LoopDone | src/Parser.cpp:110-117 | A level's loop stops at a token that is none of its operators. |
| SyntaxFacts.GroupsLeft | src/Parser.cpp:107-188 | `x o1 y o2 z` groups left when `o1` binds at least as tightly as `o2`: same-level operators are left-associative. |
| SyntaxFacts.GroupsRight | src/Parser.cpp:107-188 | `x o1 y o2 z` groups right when `o2` binds more tightly than `o1`. |
| SyntaxFacts.PrefixBindsTighter | src/Parser.cpp:93-118 | `-x * y` is `(-x) * y`: prefix operators bind tighter than any binary one. |
| SyntaxFacts.AssignmentGroupsRight | src/Parser.cpp:194-211 | `a = b = z` is `a = (b = z)`. |
| SyntaxFacts.InvalidTargetRejected | src/Parser.cpp:197-204 | `x o y = z` is rejected: only an identifier can be assigned to. |
| SyntaxFacts.PrintToleratesMissingTokens | src/Parser.cpp:298-306 | `print(x` with `)` and `;` missing still gives the print statement. |
| SyntaxFacts.PrintWithout | src/Parser.cpp:298-306 | A print statement whose expression is followed by neither `)` nor `;` ends right after the expression. |
| SyntaxFacts.VarDeclarationRecovery | src/Parser.cpp:226-241 | `var n = x` without `;` still declares `n`; `var` without a name is rejected. |
| SyntaxFacts.UnparseStartsExpression | src/Parser.cpp:312-321 | A spelled expression never starts with a statement keyword. |
| SyntaxFacts.ExpressionStatement | src/Parser.cpp:320-324 | An expression followed by `;` is an expression statement. |
| SyntaxFacts.OnlyStatement | src/Parser.cpp:335-351 | A single statement that ends the tokens is the whole program, returned unwrapped. |
| SyntaxFacts.ProgramRoundTrip | src/Parser.cpp:312-355 | A program of one spelled expression statement parses to that statement. |
| SyntaxFacts.ExpressionSpelledAt | src/Parser.cpp:57-219 | The spelling of a well-formed expression anywhere in the tokens, followed by a token that ends expressions, parses back to it. |
| SyntaxFacts.SpelledStatementAt | src/Parser.cpp:312-325 | A spelled expression followed by `;` parses as that expression statement, ending after the `;`. |
| SyntaxFacts.StatementsStep | src/Parser.cpp:337-346 | One turn of `parse`'s loop: a statement that parses is kept and the loop goes on after it. |
| SyntaxFacts.TwoStatements | src/Parser.cpp:335-355 | Two statements that make up the tokens come back wrapped in a block. |
| SyntaxFacts.TwoStatementProgram | src/Parser.cpp:335-355 | Two spelled expression statements parse to a block of the two expression statements. |
| SyntaxFacts.IfStatement | src/Parser.cpp:269-276 | `if (c)` followed by branches is the if statement of those branches. |
| SyntaxFacts.ConsumeMisses | src/Parser.cpp:33-41 | `consume` of an absent kind does not move. |
| SyntaxFacts.ConsumeMatches | src/Parser.cpp:33-36 | `consume` of the present kind moves one on. |
| SyntaxFacts.Branches | src/Parser.cpp:276-290 | A then-block followed by an else clause builds the if node. |
| SyntaxFacts.EmptyBlock | src/Parser.cpp:247-262 | `{}` is an empty block. |
| SyntaxFacts.ElseIf | src/Parser.cpp:281-283 | `else if` parses another if statement as the else-branch. |
| SyntaxFacts.SecondIfParses | src/Parser.cpp:269-291 | The inner `if (y) {}` parses on its own. |
| SyntaxFacts.FirstIfParses | src/Parser.cpp:269-291 | The outer if statement takes the inner one as its else-branch. |
| SyntaxFacts.ElseIfNests | src/Parser.cpp:279-351 | `if (x) {} else if (y) {}` nests the second `if` as the first one's else-branch. |

## Left out

- I/O is not modelled: the error-stream diagnostics, the VM's per-instruction debug trace
  (VM.cpp:25-39) and the text of the lexer's error messages. Printed output is a list of
  events, and lexer errors are recorded with their kind, line and column.
- `main.cpp` is not modelled: file reading and the driver that chains the stages.
- Floating point is not modelled: doubles and floats are exact reals, so IEEE rounding,
  infinities and NaN are missing. `Bytecode.WithFloat` stores the literal's value exactly,
  with no `float` rounding.
- Decimal.StoiValue: does not model `std::stoi` throwing on out-of-range values, because
  integers are unbounded here.
- Decimal.StofValue: gives `std::stof` exactly on the lexer's `digits` and `digits.digits`
  lexemes (`Decimal.StofOfFloatLexeme`); exponents, signs, hexadecimal forms and the
  out-of-range exception of `std::stof` are not modelled, because the lexer never produces
  them, and the single-precision rounding of `float` is left out with floating point above.
- Machine.VM.Run: executes at most `fuel` instructions and returns None when the bound is
  hit, because the source loops forever on a backward jump; `MachineFacts.MoreFuelSameRun`
  shows the bound changes nothing about a run that finishes.
- The unknown-opcode arm of the VM (VM.cpp:246-248) and the unknown-node arm of the compiler
  (Compiler.cpp:448-451) are unreachable: opcodes and nodes are closed datatypes.
- `static_cast<int>` overflow on huge doubles and the `int`/`size_t` comparisons are not
  modelled; only truncation toward zero is.
- Character classes are ASCII only: `isdigit`, `isalpha` and `isalnum` under the C locale.
- `toString` of the syntax tree and the ownership of nodes (`delete` in the destructors) are
  left out; trees are values.
- CodeGen.StringLiteralAt: returns the error text by value; the identity of the static
  string it refers to is not modelled.
- Syntax.Parser.Level: `factor`, `term`, `comparison`, `logical_and` and `logical_or` are one
  method parameterised by the precedence level, because the five share one shape and differ
  only in their operators.
- Syntax.Parser.Group, Syntax.Parser.Parenthesised, Syntax.Parser.Branches,
  Syntax.Parser.ElseClause and Syntax.Parser.Initializer are parts of `primary`,
  `parseIfStatement` and `parseVariableDeclaration`, split out as methods of their own.
- CodeGen.CompileExpr, CodeGen.CompileStmt, CodeGen.CompileBlock and CodeGen.CompileIf:
  their own contracts state only growth and shape. What they emit is stated by the
  soundness, scope and layout lemmas of `CompilerFacts`.
- CodeGen.CompileUnary: its own contract states only growth and shape; what it emits and
  when it fails is `CompilerFacts.UnaryLayout`.
- CodeGen.CompileAssignment: its own contract states only growth and shape; what it emits,
  when it fails and how it retypes is `CompilerFacts.AssignmentChecks`.
- CodeGen.CompileBinary: its own contract states only growth and shape; the type check and
  the instruction emitted are `CompilerFacts.BinaryChecks`.
- CodeGen.CompileOperands: its own contract states only growth and shape; its layout is
  `CompilerFacts.OperandsLayout`.
- CodeGen.CompilePrint: its own contract states only growth; the choice of print
  instruction is `CompilerFacts.PrintResolvesType`.
- CodeGen.CompileVarDecl: its own contract states only growth; its layout and failures are
  `CompilerFacts.VarDeclLayout`. It uses the repaired declaration type, so the null
  dereference the source performs for initializers like `-x` or `x = 1`
  (Compiler.cpp:350-352) is replaced by a lookup of the identifier under them.
- CodeGen.CompileInitializer: its own contract states only growth; its layout is part of
  `CompilerFacts.VarDeclLayout`.
- CompilerFacts.ResolveAgreesWithGetType: holds on identifier-free expressions only,
  because identifiers resolve through the table while `getType` reports
  IDENTIFIER_EXPRESSION; the rule for all expressions is the contract of
  `CodeGen.ResolveType`.
- CompilerFacts.PrintChoosesByType: holds on identifier-free expressions only; the choice
  for all expressions is `CompilerFacts.PrintResolvesType`.
- Lexer input is a sequence of characters, not bytes. A character outside ASCII, which the
  source reads as several bytes, moves the column by one and gives one unexpected-character
  error where the source gives one per byte.
- Syntax.ConsumeAt: its own contract states the position and whether it steps; the token it reports on a mismatch is stated by `SyntaxFacts.ConsumeMisses`, `SyntaxFacts.ConsumeMatches` and `SyntaxFacts.ConsumeReportsMismatch`.
- Syntax.IdentifierAt: its own contract states when it succeeds and the identifier node it builds; nothing more is left to other lemmas.
- Syntax.PrimaryAt: its own contract states only positions; what it builds is stated by `SyntaxFacts.PrimaryWellFormed` and `SyntaxFacts.AtomParses`.
- Syntax.ParenthesisedAt: its own contract states only positions; what it builds is stated by `SyntaxFacts.ParenthesisedWellFormed` and `SyntaxFacts.Enclosed`.
- Syntax.GroupAt: its own contract states only positions; what it builds is stated by `SyntaxFacts.GroupWellFormed` and `SyntaxFacts.LevelEnclosed`.
- Syntax.UnaryAt: its own contract states only positions; what it builds is stated by `SyntaxFacts.UnaryWellFormed`, `SyntaxFacts.UnaryCore` and `SyntaxFacts.UnparseParses`.
- Syntax.LevelAt: its own contract states only positions; what it builds is stated by `SyntaxFacts.LevelWellFormed`, `SyntaxFacts.BinaryLevel`, `SyntaxFacts.GroupsLeft` and `SyntaxFacts.GroupsRight`.
- Syntax.LoopAt: its own contract states positions and that it builds nothing without a left operand; what it builds is stated by `SyntaxFacts.LoopWellFormed`, `SyntaxFacts.LoopStep`, `SyntaxFacts.LoopOnce` and `SyntaxFacts.LoopDone`.
- Syntax.AssignmentAt: its own contract states only positions; what it builds is stated by `SyntaxFacts.AssignmentWellFormed`, `SyntaxFacts.AssignsTo`, `SyntaxFacts.AssignmentGroupsRight` and `SyntaxFacts.InvalidTargetRejected`.
- Syntax.ExpressionAt: its own contract states only positions; what it builds is stated by `SyntaxFacts.ExpressionWellFormed` and `SyntaxFacts.ExpressionRoundTrip`.
- Syntax.VarDeclAt: its own contract states positions and the node's kind; what it builds is stated by `SyntaxFacts.StatementWellFormed` and `SyntaxFacts.VarDeclarationRecovery`.
- Syntax.InitializerAt: its own contract states only positions; what it builds is stated by `SyntaxFacts.InitializerWellFormed`.
- Syntax.PrintAt: its own contract states positions and the node's kind; what it builds is stated by `SyntaxFacts.PrintToleratesMissingTokens` and `SyntaxFacts.PrintWithout`.
- Syntax.IfAt: its own contract states positions and the node's kind; what it builds is stated by `SyntaxFacts.IfWellFormed`, `SyntaxFacts.IfStatement`, `SyntaxFacts.FirstIfParses` and `SyntaxFacts.SecondIfParses`.
- Syntax.BranchesAt: its own contract states positions, the node's kind and its condition; the branches it builds are stated by `SyntaxFacts.BranchesWellFormed` and `SyntaxFacts.Branches`.
- Syntax.ElseAt: its own contract states positions and that an else branch is an `if` or a block; what it builds is stated by `SyntaxFacts.ElseWellFormed`, `SyntaxFacts.ElseIf` and `SyntaxFacts.ElseIfNests`.
- Syntax.StatementAt: its own contract states positions and that a statement is never a block (a block is parsed only as a branch of `if`); what it builds is stated by `SyntaxFacts.StatementWellFormed`, `SyntaxFacts.ExpressionStatement` and `SyntaxFacts.SpelledStatementAt`.
- Syntax.BlockLoopAt: its own contract states positions and the node's kind; what it builds is stated by `SyntaxFacts.BlockLoopWellFormed`.
- Syntax.BlockAt: its own contract states positions and the node's kind; what it builds is stated by `SyntaxFacts.BlockWellFormed` and `SyntaxFacts.EmptyBlock`.

## Findings

| source | as written | input that shows it | evidently intended | confidence | as-written member | corrected member |
|---|---|---|---|---|---|---|
| src/Compiler.cpp:350-352 | When the initializer's `getType` is IDENTIFIER_EXPRESSION, it is `dynamic_cast` to an identifier node and dereferenced. Unary and assignment nodes pass their operand's tag through, so for `-x` the cast yields null. | `var x = 1; var y = -x;` | Look up the identifier under the unary or assignment node, giving `y` the type of `x`. | not executed | CompilerFacts.NegatedIdentifierInitializerCrashes | CompilerFacts.NegatedIdentifierTakesItsType |
