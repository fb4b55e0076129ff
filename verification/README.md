# A verified model of the Elson-V stack

Elson-V is a small GPU with its own instruction set: a C-like compiler emits scalar assembly, a
two-pass assembler turns it into words, and cores that run several warps fetch and execute those
words through handshakes with memories of any speed. The stack was built to run K-means, whose kernel
ends in a parallel sum. This project models these parts and proves that they fit together.

| part | modules |
|---|---|
| the instruction set, one instruction at a time | Words, Isa, AluLaws |
| source programs and what they mean | Source, SourceLaws, Comparison |
| the code generator: a specification, its correctness, and the mutable context that computes it | Generator, Accounting, Registers, Labels, Layout, Expressions, Statements, Functions, Locals, CodeGenerator |
| labelled assembly and the machine that runs it | Asm |
| assembler and hardware decoder | Encoding, Decoder, Assembler, AssemblerLaws, Linking |
| the core with one warp | Warp, Units, Core, Refinement, Leftover |
| the whole stack | EndToEnd, Example, Sampler |
| several warps, several blocks | Scheduler, Dispatcher |
| the K-means kernel and driver, the kernel's save areas | Reduction, KMeans, KernelLayout |

## How the parts are modelled

Code that works by mutation is a class or a method with loops: the compiler's `Context`, the
assembler's passes, every clocked unit, the scheduler, the dispatcher, the kernel's reduction. Each
method is proved to do what a function on values says; the theorems are about these functions. A C++
exception is a `Failure`.

The definitions that both sides of a theorem share, the ALU's operation table, source operators and
statements, operands and data of the assembler, the scheduler's states, the centroid update, are in turn
pinned by laws that do not name them (AluLaws, SourceLaws, AssemblerLaws and the lemmas beside the
others), and by two functions whose whole text and result are given.

A clock edge is one step that reads only values from before it. Blocking assignments come first where
the hardware description has them (a finished fetch is seen by the search for the next warp). The
memories are not modelled beyond their promise: data that arrives with `ready` is the data at the
address asked for, and a write happens at the edge at which it is accepted. Delays are arbitrary.

Integers are unbounded in Dafny; words are residues modulo 2^32 and every wrap-around is written out.
The source fragment is that of the scalar `int` functions without parameters: `+ - * << < ==`,
assignment, `x++` and `x--` as statements, declarations with and without initialiser, one- and
two-dimensional arrays with constant indices, blocks, `if`, `while`, `for`, `break`, `continue`,
`return`. Reading an indeterminate cell, an index out of range or an unknown name has no meaning; a
loop takes fuel, so that runs without end can be told from the others.

## What turned out not to hold

The code is modelled as it is. Where it does not do what it is for, a lemma gives the exact condition
under which it does, or a concrete input on which it does not.

- `<` compares unsigned words: it is C's `<` if and only if the operands' sign bits agree.
- A branch lands on its label if and only if the label is 0 to 31 words ahead: two bits of the
  distance have no place in the word, and the sign is extended to 30 bits only.
- `%hi` and `%lo` together form an address if and only if it is in the lower half of its 4096-byte
  page, since the load's 15-bit field does not see the low part as negative.
- The frame size misses uninitialised scalars and nested declarations. The locals are separate words
  inside the frame if and only if the deepest nesting of blocks fits beside ra and s0; otherwise one of
  them has the word below the stack pointer. With plain identifiers last in their declarations that is
  132 missed bytes: of uninitialised variables 33 fit, the 34th lies below the stack pointer and the
  35th shares a word with another.
- `==`, `++` and `--` keep a register for good, over all functions of a unit. Code can be emitted if and
  only if its names resolve and the pool of 23 lasts: the 23rd `x++` of a function is an exception.
- `seqi` writes what the ALU was left with, which is the operation of the instruction before it done
  again on the registers and pc as they are then; it is right if and only if that is the right value.
  After `addi x1, x1, 1` it writes x1 + 1.
- LUI goes on to the next instruction if and only if the ALU operation before it was not a jump;
  otherwise it jumps by its immediate.
- A jump lands on its label if and only if the label is less than 2^25 words away.
- Cores that are in reset together are given the same block, and all of them are when a kernel starts:
  each block runs once only with a single core.
- A rejected line shifts all later words against the addresses the labels were given; `.zero` and
  alignment shift all later data.

`docs/ISA.md` gives `slt` without saying how it compares and the branch immediate with all its bits;
the model follows `alu.sv` and `assembler.cpp`. The `continue` statement emits `j` without the `s.`
prefix, which the assembler treats alike.

The largest conditions of the end-to-end theorems are those of the encoding: immediates within 14 bits
for `li` and `addi` and 15 bits for loads and stores, and every branch at most 31 words ahead of its
label. They are checks of the emitted lines.

## Model

| member | source | states |
|---|---|---|
| Expressions.ExprCorrect | compiler/src/operations/ast_arithmetic_operation.cpp:45-95 | Emitted expression code leaves the source value (mod 2^32) in the destination, changes no memory, and changes no register that was not free; for every nesting of `+ - * << < ==` |
| Expressions.BinCorrect | compiler/src/operations/ast_bitwise_operation.cpp:40-73 | For one binary operator: evaluating the right operand cannot disturb the left one, and the result is the operator applied to both values; only free registers change |
| Expressions.OpCorrect | compiler/src/operations/ast_relational_operation.cpp:40-114 | Each source operator means what the ALU operation chosen for it computes |
| Expressions.AddressCorrect | compiler/src/arrays/ast_array_index_access.cpp:21-68 | The address arithmetic of an element access ends at the address of exactly that cell |
| Expressions.ReadCorrect | compiler/src/symbols/ast_identifier.cpp:3-32 | A variable or element is loaded from the word that holds it |
| Expressions.AssignScalar | compiler/src/statements/ast_assignment.cpp:24-74 | An assignment turns memory that holds the environment into memory that holds the assigned environment, and changes nothing else |
| Expressions.AssignElement | compiler/src/statements/ast_assignment.cpp:86-138 | An assignment to an array element changes that cell in memory and no other, and only free registers |
| Expressions.BumpCorrect | compiler/src/operations/ast_unary_operations.cpp:49-112 | `x++` and `x--` as statements add or subtract one, mod 2^32 |
| Expressions.DeclsCorrect | compiler/src/statements/ast_declaration.cpp:35-84 | Declarations make room for their cells, keep all others, and store their initialisers |
| SourceLaws.OperatorExact | compiler/src/operations/ast_bitwise_operation.cpp:40-73 | The value of each source operator, said by congruence of signed numbers: exactly one word fits |
| SourceLaws.WriteRead | compiler/src/arrays/ast_array_index_access.cpp:108-118 | A write is seen by a read of its own cell and of no other, shadowed names and other elements included |
| SourceLaws.RowMajor | compiler/src/arrays/ast_array_index_access.cpp:108-118 | The next column is the next element, the next row is a row of elements further on |
| SourceLaws.SimpleMeans | compiler/src/statements/ast_assignment.cpp:24-74 | An assignment gives its place the value of the expression, `x++` and `x--` count by one on signed numbers, and nothing else changes |
| SourceLaws.SimpleStuck | compiler/src/context/ast_context_variables.cpp:15-29 | Such a statement has no meaning exactly when its place does not exist or a value it reads is missing |
| SourceLaws.DeclareHides | compiler/src/statements/ast_declaration.cpp:35-84 | A declaration hides what had its name, with cells without a value, and no other name |
| SourceLaws.InitGives | compiler/src/statements/ast_declaration.cpp:43-62 | An initialiser is worked out after its variable is declared, and is what is then read |
| SourceLaws.IfMeans | compiler/src/control_flow/ast_ifelse.cpp:67-97 | A condition that is a multiple of 2^32 selects the `else` part, any other the `if` part |
| SourceLaws.LoopJumps | compiler/src/control_flow/ast_while.cpp:6-30 | `break` leaves its loop, `return` the function, `continue` alone goes round for ever |
| SourceLaws.ForCounts | compiler/src/control_flow/ast_forloop.cpp:4-35 | `for (x = 0; x < n; x++)` leaves n in x, also when its body is `continue`, and 0 when it is `break` |
| SourceLaws.RestSkipped | compiler/src/control_flow/ast_break.cpp:4-7 | What follows a jump in a block is not run |
| Statements.StmtCorrect | compiler/src/statements/ast_statements.cpp:8-16 | For every statement: running its code from its first line reaches the exit line that matches the source outcome (fall-through, loop end, loop start or update, function end) with the same variables and s1; a source run that is not over after n iterations means at least n machine steps |
| Statements.IfCorrect | compiler/src/control_flow/ast_ifelse.cpp:67-97 | An `if`, with or without `else`, reaches the exit line that matches the source outcome, with the same variables |
| Statements.WhileCorrect | compiler/src/control_flow/ast_while.cpp:6-30 | A `while`, for any number of turns, follows the source: `break` reaches the end label, `continue` the start label, a loop without end keeps the machine going |
| Statements.ForCorrect | compiler/src/control_flow/ast_forloop.cpp:4-35 | A `for`, with each part optional, follows the source: `continue` reaches the update, `break` the end label |
| Statements.BreakFollows | compiler/src/control_flow/ast_break.cpp:4-7 | `break` and `continue` go to the line of the innermost loop's label |
| Statements.ReturnFollows | compiler/src/statements/ast_return.cpp:3-12 | `return e` puts the value in s1 and goes to the function's end label |
| Functions.FunctionCorrect | compiler/src/functions/ast_function_definition.cpp:37-72 | A whole function, from line 0: reaches `exit` with the returned value in s1, the stack pointer at the top of its frame, ra as before and no memory outside the frame changed; and does not stop before the source does |
| Functions.DivergesTogether | compiler/src/control_flow/ast_while.cpp:6-30 | The machine runs for ever if and only if no amount of fuel is enough for the source |
| Functions.NeverStops | compiler/src/control_flow/ast_forloop.cpp:12-35 | A source run still going after n iterations means the machine makes at least n steps |
| Functions.PrologueRuns | compiler/src/functions/ast_function_definition.cpp:55-62 | The prologue leaves the frame at 4000 with ra and s0 saved in its two top words |
| Functions.EpilogueRuns | compiler/src/functions/ast_function_definition.cpp:67-71 | The epilogue restores ra and s0 from those words and takes the frame down |
| Functions.ReturnsNumbers | compiler/src/functions/ast_function_definition.cpp:55-71 | The same by number: x6 holds the result, x2 is 4000 and the frame, x1, x3, x4, x30 and x31 and memory outside [4000, 4000 + frame) are as before |
| Functions.FunctionUnique | compiler/src/context/ast_context_labels.cpp:3-6 | No label is defined twice in the text of a function |
| Functions.UnitUnique | compiler/src/ast_translation_unit.cpp:5-22 | Nor in the text of several functions with different names, since the counter goes on |
| Functions.UnitInOrder | compiler/src/ast_translation_unit.cpp:5-22 | The texts of the functions of a unit follow one another, each starting with what those before it have left |
| Functions.MissedFits | compiler/src/functions/ast_function_definition.cpp:40-53 | If locals that the frame size misses total at most 132 bytes (so also at most 128), the frame has room for the deepest nesting, whatever the order of declarators |
| Functions.FitsExactly | compiler/src/statements/ast_declaration.cpp:105-155 | With plain identifiers last in each declaration that condition on the frame holds if and only if the missed locals total at most 132 bytes |
| Functions.PlainBetween | compiler/src/statements/ast_declaration.cpp:105-155 | n plain identifiers between two charged declarators make each word of the second count 4 bytes and n times the bytes of the first; before the first they cost nothing |
| Functions.PlainBetweenExample | compiler/src/statements/ast_declaration.cpp:143-143 | `int a = 1, b, c = 2;` counts for 12 bytes and makes a frame of 152 |
| Functions.RaiseExact | compiler/src/context/ast_context_stacks.cpp:34-40 | An offset is raised to the least multiple of 4 that is not below the sum |
| Functions.ListBytesLow | compiler/src/statements/ast_statements.cpp:115-134 | The size sum is never below the bytes of the arrays and initialised scalars it counts, whatever the running type size does |
| Comparison.LessAgrees | hardware/rtl/lock_in/alu.sv:71-71 | The unsigned comparison of the ALU is C's signed `<` if and only if both operands have the same sign bit |
| Comparison.ExecAgrees | compiler/src/operations/ast_relational_operation.cpp:76-79 | A run in which no comparison crosses the sign bit is the same run under signed and unsigned `<` |
| Comparison.SignedFunctionCorrect | compiler/src/functions/ast_function_definition.cpp:37-72 | FunctionCorrect against C's signed `<` for such runs |
| Locals.LocalsApart | compiler/src/context/ast_context_stacks.cpp:6-48 | In a function that fits its frame: on every way down through nested scopes any two cells of live variables are non-overlapping words inside the frame, below the saved ra and s0 |
| Locals.Overflows | compiler/src/statements/ast_declaration.cpp:43-62 | In every function that does not fit its frame some live variable has the word just below the stack pointer |
| Locals.FrameExact | compiler/src/functions/ast_function_definition.cpp:40-53 | All cells of live variables, on every way down, are separate words inside the frame if and only if the frame has room for the words of the deepest nesting |
| Locals.DeclsAllocate | compiler/src/statements/ast_declaration.cpp:35-84 | Emitting declarations records the same variables and offsets whatever code is emitted with them |
| Locals.PlainFits | compiler/src/statements/ast_declaration.cpp:137-141 | n `int` variables without initialiser leave the frame at 140 bytes; they are separate words inside it if and only if n <= 33 |
| Locals.PlainOverflow | compiler/src/context/ast_context_stacks.cpp:30-32 | From 34 on the one numbered 33 lies just below the stack pointer, and from 35 on two share a word |
| Layout.StoreMatches | compiler/src/statements/ast_assignment.cpp:63-66 | A store to the address of a place is an assignment to that place and to no other |
| Layout.LoadMatches | compiler/src/symbols/ast_identifier.cpp:13-16 | The word at the address of a place is its value |
| Layout.AllocateLaid | compiler/src/statements/ast_declaration.cpp:43-62 | A new variable is placed apart from every visible one, shadowed ones included |
| Source.LinearInRange | compiler/src/arrays/ast_array_declaration.cpp:19-40 | The element number of in-range indices is below the array size |
| Source.LinearInjective | compiler/src/arrays/ast_array_index_access.cpp:108-118 | Different in-range indices name different elements |
| Accounting.StmtAccounts | compiler/src/context/ast_context_registers.cpp:159-197 | After any statement the free registers are the earlier ones less exactly one for each `==`, `++`, `--`; label stacks, scopes and offsets are restored; every label defined in it is defined once, with a number from its own stretch of the counter |
| Accounting.ExprAccounts | compiler/src/operations/ast_equality.cpp:30-78 | An expression gives back all registers but one for each `==`, and emits no label or jump |
| Accounting.JumpsAlone | compiler/src/statements/ast_return.cpp:3-12 | `break`, `continue` and a bare `return` are one jump each |
| Registers.NeedExact | compiler/src/context/ast_context_registers.cpp:159-188 | Emission of an expression succeeds if and only if its names resolve and Need(e) registers are free |
| Registers.StmtExact | compiler/src/context/ast_context_registers.cpp:159-197 | Emission of any statement succeeds if and only if every name is declared where it is used, `break` and `continue` are in loops, and as many registers are free as it needs, those kept for good by earlier parts counted |
| Registers.FunctionExact | compiler/src/functions/ast_function_definition.cpp:4-80 | A function can be emitted if and only if its names resolve and its body needs at most 23 registers |
| Registers.UnitExact | compiler/src/ast_translation_unit.cpp:5-22 | A list of functions can be emitted if and only if each one's names resolve and the pool lasts, each function lacking what the earlier ones kept |
| Registers.BumpsRunOut | compiler/src/operations/ast_unary_operations.cpp:49-112 | `x++;` n times can be compiled if and only if n <= 22 |
| Registers.EqualsRunOut | compiler/src/operations/ast_equality.cpp:30-78 | `x == x;` n times can be compiled if and only if n <= 21 |
| Registers.PlainNeed | compiler/src/operations/ast_arithmetic_operation.cpp:51-92 | Without `==` and arrays Need is 0 for a leaf and max(1 + left, 2 + right) for an operator |
| Labels.TextInjective | compiler/src/context/ast_context_labels.cpp:3-6 | Different generated labels are different texts |
| Labels.NumberedApart | compiler/src/context/ast_context_labels.cpp:3-6 | A prefix that does not end in a digit followed by a decimal counter determines both |
| Labels.DigitPrefixClashes | compiler/src/context/ast_context_labels.cpp:3-6 | A prefix ending in a digit would not |
| Labels.DecimalReads | compiler/src/context/ast_context_labels.cpp:3-6 | The counter in a label reads as its number, without leading zeros |
| CodeGenerator.Context.GetRegister | compiler/src/context/ast_context_registers.cpp:159-188 | The scan takes the first available register from 5 up, or throws when there is none |
| CodeGenerator.Context.DeallocateRegister | compiler/src/context/ast_context_registers.cpp:191-197 | Makes the register available again and changes nothing else |
| CodeGenerator.Context.CreateLabel | compiler/src/context/ast_context_labels.cpp:3-6 | A label with the next number |
| CodeGenerator.Context.CreateScope | compiler/src/context/ast_context_stacks.cpp:6-10 | A new scope that starts at the current offset |
| CodeGenerator.Context.PopScope | compiler/src/context/ast_context_stacks.cpp:12-22 | The scope and its offset are dropped |
| CodeGenerator.Context.IncreaseStackOffset | compiler/src/context/ast_context_stacks.cpp:34-40 | The top offset is raised and rounded up to a word |
| CodeGenerator.Context.DefineVariable | compiler/src/context/ast_context_variables.cpp:6-12 | The variable is in the innermost scope |
| CodeGenerator.Context.GetVariable | compiler/src/context/ast_context_variables.cpp:15-29 | The innermost variable of a name, or an exception |
| CodeGenerator.Context.EmitPosition | compiler/src/arrays/ast_array_index_access.cpp:70-178 | Four times one more than the element number of constant indices, with a scratch register taken and given back, or an exception |
| CodeGenerator.GetLinearIndex | compiler/src/arrays/ast_array_index_access.cpp:180-231 | The indices of an access in source order, from the loop that collects them backwards and reverses |
| CodeGenerator.CollectDims | compiler/src/arrays/ast_array_declaration.cpp:49-65 | The bounds of a nested declaration in source order |
| CodeGenerator.AccessNests | compiler/src/arrays/ast_array_index_access.cpp:180-231 | `a[i][j]` is element j of row i, and its indices are i and j |
| CodeGenerator.DeclarationOffset | compiler/src/statements/ast_declaration.cpp:105-155 | The loop computes the size sum with its running type size |
| CodeGenerator.ListOffset | compiler/src/statements/ast_statements.cpp:115-134 | The loop over declarations computes their rounded sum |
| CodeGenerator.Context.EmitAddress | compiler/src/arrays/ast_array_index_access.cpp:21-68 | Emits the address code of the specification, with the same registers, or throws where it fails |
| CodeGenerator.Context.EmitBin | compiler/src/operations/ast_equality.cpp:30-78 | Emits an operator as the specification says: lines, registers taken and kept, exceptions |
| CodeGenerator.Context.EmitAssign | compiler/src/statements/ast_assignment.cpp:24-138 | Writes exactly the lines specified for an assignment, takes, keeps and frees the same registers and labels, and throws exactly where the specification fails |
| CodeGenerator.Context.EmitBump | compiler/src/operations/ast_unary_operations.cpp:49-112 | Writes exactly the lines specified for `x++` or `x--`, takes, keeps and frees the same registers and labels, and throws exactly where the specification fails |
| CodeGenerator.Context.EmitDeclaration | compiler/src/statements/ast_declaration.cpp:35-84 | Writes exactly the lines specified for the declarators of a declaration, left to right, takes, keeps and frees the same registers and labels, and throws exactly where the specification fails |
| CodeGenerator.Context.EmitIf | compiler/src/control_flow/ast_ifelse.cpp:67-97 | Writes exactly the lines specified for an `if`, with the condition register held over both branches, takes, keeps and frees the same registers and labels, and throws exactly where the specification fails |
| CodeGenerator.Context.EmitWhile | compiler/src/control_flow/ast_while.cpp:6-30 | Writes exactly the lines specified for a `while`, with its labels on the stacks meanwhile, takes, keeps and frees the same registers and labels, and throws exactly where the specification fails |
| CodeGenerator.Context.EmitFor | compiler/src/control_flow/ast_forloop.cpp:4-35 | Writes exactly the lines specified for a `for`, with the update label as the start label, takes, keeps and frees the same registers and labels, and throws exactly where the specification fails |
| CodeGenerator.Context.EmitBlock | compiler/src/statements/ast_statements.cpp:8-16 | Writes exactly the lines specified for a compound statement in a scope of its own, takes, keeps and frees the same registers and labels, and throws exactly where the specification fails |
| CodeGenerator.Context.EmitStmt | compiler/src/statements/ast_statements.cpp:99-107 | Writes exactly the lines specified for any statement, takes, keeps and frees the same registers and labels, and throws exactly where the specification fails |
| CodeGenerator.Context.EmitFunction | compiler/src/functions/ast_function_definition.cpp:4-80 | Writes the whole text of a function, first or later in its unit, throws exactly where the specification fails, and leaves the registers not kept, the counter and empty stacks to the next |
| CodeGenerator.Context.EmitUnit | compiler/src/ast_translation_unit.cpp:5-22 | Writes the texts of all functions in order, or throws at the first that fails |
| Sampler.ProgramCode | compiler/src/functions/ast_function_definition.cpp:4-80 | The text of a function with an array, a `for` and an `if`, line by line in register numbers |
| Sampler.ProgramReturns | compiler/src/control_flow/ast_forloop.cpp:4-35 | That function returns 1 |
| Decoder.RoundTripR | assembler/assembler.cpp:136-148 | Decoding an encoded R-type instruction gives back operation, scalar flag and registers |
| Decoder.RoundTripI | assembler/assembler.cpp:150-185 | Decoding an encoded I-type instruction gives back operation, flag and registers; the immediate comes back as its signed 14-bit residue, that of `slli` as its low 5 bits, for every integer |
| Decoder.RoundTripLoad | assembler/assembler.cpp:240-290 | Decoding an encoded load gives back registers, flag and the signed 15-bit residue of any immediate |
| Decoder.RoundTripStore | assembler/assembler.cpp:292-346 | Decoding an encoded store gives back registers, flag and the signed 15-bit residue, put together from the split field |
| Decoder.RoundTripLui | assembler/assembler.cpp:521-547 | Decoding an encoded LUI gives back register, flag and the immediate shifted up by 12, mod 2^32 |
| Decoder.RoundTripX | assembler/assembler.cpp:557-597 | Decoding an encoded `sx.slt` gives back its registers and the vector-to-scalar signals |
| Decoder.RoundTripJump | assembler/assembler.cpp:353-365 | A jump decodes to the signed 26-bit residue of its word distance, through the split field |
| Decoder.RoundTripBranch | assembler/assembler.cpp:366-439 | beqz and beqo decode to the sign-extended 16-bit field made of their distance |
| Decoder.RoundTripExit | assembler/assembler.cpp:512-519 | The word of `exit` decodes to the halt signal and leaves the ALU operation |
| Decoder.FloatMemory | hardware/rtl/lock_in/decoder.sv:185-238 | Float loads and stores give the signals of the integer ones |
| Decoder.FloatOperation | hardware/rtl/lock_in/decoder.sv:162-183 | Ten function codes go to the floating-point unit, the others keep the ALU operation |
| Decoder.UnknownWord | hardware/rtl/lock_in/decoder.sv:63-113 | Words without an operation write nothing, branch nowhere and leave the ALU operation |
| Decoder.ReservedFunction | hardware/rtl/lock_in/decoder.sv:116-160 | A reserved function code repeats the operation of the instruction before it |
| Decoder.BranchLands | hardware/rtl/lock_in/decoder.sv:40-40 | A branch lands on its label if and only if the label is 0 to 31 words ahead, for every 32-bit byte distance |
| Decoder.BranchDelivers | hardware/rtl/lock_in/common.svh:154-162 | What a branch adds to the pc at every other distance; up to 2^17 words backward it jumps ahead by almost 2^30 |
| Decoder.HighLow | assembler/assembler.cpp:86-109 | `lui %hi(S)` with a `%lo(S)` load forms S if S mod 4096 < 2048, and S + 4096 otherwise |
| AssemblerLaws.OperandExact | assembler/assembler.cpp:86-123 | What an operand stands for: the nearest page for `%hi`, the place in the page for `%lo`, the address of a symbol, zero for an unknown one or a number that is no int; and nothing else |
| AssemblerLaws.SymbolAddress | assembler/assembler.cpp:86-109 | The words assembled for `lui %hi(S)` and a `%lo(S)` load form S in the lower half of its page and S + 4096 in the upper half |
| AssemblerLaws.LineAssembled | assembler/assembler.cpp:776-812 | For every line that is not rejected, symbols, `sync`, `ret` and unknown labels included, what the decoder makes of the word written |
| AssemblerLaws.ExpectedRegisters | assembler/tests/expected_output/rscalar.instr.hex:1-20 | Words that the assembler tests expect of register instructions |
| AssemblerLaws.ExpectedImmediates | assembler/tests/expected_output/iscalar.instr.hex:1-15 | Words they expect of immediate instructions |
| AssemblerLaws.ExpectedMemory | assembler/tests/expected_output/rscalar.instr.hex:1-20 | Words they expect of a load and a store |
| AssemblerLaws.ExpectedLabels | assembler/tests/expected_output/cscalar.instr.hex:1-12 | Words they expect of jumps, branches, `lui %hi`, `sx.slt` and `exit` |
| Decoder.LowFields | hardware/rtl/lock_in/decoder.sv:29-42 | The low fields of a word that is a sum of shifted fields |
| Decoder.HighFields | hardware/rtl/lock_in/decoder.sv:29-42 | The high fields of such a word |
| Assembler.TwoPass.FirstPass | assembler/assembler.cpp:648-725 | The loop over lines computes addresses, labels, instructions and data words |
| Assembler.TwoPass.SecondPass | assembler/assembler.cpp:735-823 | The loop over instructions writes the words of those that are not rejected |
| Assembler.WordPlace | assembler/assembler.cpp:735-823 | An accepted instruction's word comes after those of the accepted instructions before it: each rejected line shifts the rest |
| Assembler.WordAt | assembler/assembler.cpp:717-722 | With nothing rejected and no text alignment above 4 bytes, output word k is the instruction at address 4k |
| Assembler.LabelIndex | assembler/assembler.cpp:683-694 | A text label stands for four times the index of the first instruction after its last definition |
| Assembler.JumpLands | assembler/assembler.cpp:353-365 | `j L` at word k decodes to an offset that takes the core from k to the first instruction after L if and only if that is at most 2^25 words back or less than 2^25 ahead |
| Assembler.DataAddresses | assembler/assembler.cpp:700-719 | The next data address is four times the data words so far plus the bytes passed over by `.zero` and by alignment, which are not output |
| Assembler.DataLabel | assembler/assembler.cpp:683-694 | A data label is four times the output index of the first data word after it if and only if no bytes before it were passed over |
| AssemblerLaws.WordInOutput | assembler/assembler.cpp:703-708 | The value of the k-th `.word` line of the data sections is the k-th word of the data output, and there are no others |
| AssemblerLaws.DataFound | assembler/assembler.cpp:683-708 | A data label's index in the output holds the `.word` that follows the label; its address is four times that index if and only if nothing was passed over |
| AssemblerLaws.CodeInOrder | assembler/assembler.cpp:717-722 | The k-th line of the text sections that is more than a label is the k-th instruction; a data directive there becomes one that is rejected |
| AssemblerLaws.SectionHolds | assembler/assembler.cpp:657-662 | The section in force is the one named last, and `.text` at first |
| AssemblerLaws.RoundUpExact | assembler/assembler.cpp:670-680 | Alignment goes to the next multiple of the size and stays at one |
| AssemblerLaws.Aligns | assembler/assembler.cpp:670-680 | An alignment line moves the address of its own section only |
| Linking.StepLinked | hardware/rtl/lock_in/compute_core.sv:341-350 | One step of the labelled machine is no instruction at a label and one decoded instruction of the assembled words elsewhere |
| Linking.LabelPlaced | assembler/assembler.cpp:683-694 | In emitted code the label map holds four times the instruction index of each label |
| EndToEnd.RunLinked | assembler/assembler.cpp:735-823 | A run of the labelled machine is a run of the assembled words |
| EndToEnd.CoreReturns | hardware/rtl/lock_in/compute_core.sv:336-353 | Compiled, assembled and fetched with any memory delays: when the warp is done, s1 is the source result and memory outside the frame is untouched |
| EndToEnd.FromReset | hardware/rtl/lock_in/compute_core.sv:177-207 | From reset and start, against C's signed `<`: when the warp is done, s1 is the source result and memory outside the frame is untouched |
| EndToEnd.CoreFinishes | hardware/rtl/lock_in/compute_core.sv:208-359 | When the source run ends, a bounded number of clock edges at which the core is not waiting for a memory suffices for the warp to be done |
| EndToEnd.CoreRunsOn | hardware/rtl/lock_in/compute_core.sv:208-359 | When the source run does not end, the warp is never done |
| EndToEnd.EncodableFunction | assembler/assembler.cpp:380-401 | What has to be checked of an emitted text for this: immediates in range, branches 0 to 31 words ahead, jumps within 2^25 words; label names never clash |
| Example.CountdownInstalled | compiler/src/control_flow/ast_while.cpp:6-30 | A function with a variable, a `while` and a branch 5 lines ahead meets all the conditions, wherever it is loaded |
| Example.CountdownLoaded | assembler/assembler.cpp:735-823 | There is an instruction memory that holds its words |
| Example.CountdownReturns | compiler/src/control_flow/ast_while.cpp:6-30 | Its source run ends with 0 under every order |
| Example.CountdownOnCore | hardware/rtl/lock_in/compute_core.sv:208-359 | So a core that runs it from reset has 0 in s1 when it is done |
| Units.FetcherUnit.Clock | hardware/rtl/lock_in/fetcher.sv:24-56 | One edge of the fetch handshake |
| Units.LsuUnit.Clock | hardware/rtl/lock_in/lsu.sv:41-127 | One edge of the load and store handshakes, both enabled or not |
| Units.LsuLeft | hardware/rtl/lock_in/lsu.sv:41-52 | Vector instructions and those without memory leave the unit as it is |
| Units.LsuMoves | hardware/rtl/lock_in/lsu.sv:52-127 | The states, requests and data of the unit edge by edge, for a load, a store or both at once |
| Units.AluUnit.Clock | hardware/rtl/lock_in/alu.sv:34-103 | One edge of the two-stage ALU: the result is of the operands captured before |
| AluLaws.AluExact | hardware/rtl/lock_in/alu.sv:66-91 | The result an enabled ALU registers, for every operation, by its relation to the captured operands as signed numbers: exactly one word fits |
| Units.FileUnit.Clock | hardware/rtl/lock_in/scalar_reg_file.sv:46-78 | One edge of the register file: reads every edge, writes in the update state, x0 never |
| Units.FileWrites | hardware/rtl/lock_in/scalar_reg_file.sv:58-78 | Only rd, never x0, takes a new value, in the update state and from the selected source; operands are those before the edge |
| Core.ComputeCore.ClockControl | hardware/rtl/lock_in/compute_core.sv:174-359 | One edge of the state machine, next pc, `done` and the decoder registers |
| Core.ComputeCore.Clock | hardware/rtl/lock_in/compute_core.sv:552-645 | One edge of the core: all units read values from before it |
| Warp.FloatWaits | hardware/rtl/lock_in/compute_core.sv:300-335 | Only floating-point operations wait in ALU_WAIT, until the unit reports a result |
| Core.VectorLeaves | hardware/rtl/lock_in/compute_core.sv:552-645 | Vector instructions leave the scalar ALU, load-store unit and registers alone |
| Core.FloatWrites | hardware/rtl/lock_in/compute_core.sv:336-353 | A scalar floating-point operation writes what the floating-point unit gives |
| Core.NotStarted | hardware/rtl/lock_in/compute_core.sv:189-207 | A core that has not been started stays where it is |
| Refinement.EdgeRefines | hardware/rtl/lock_in/compute_core.sv:208-359 | Every edge keeps the invariant that ties the core to a state of the instruction set, or moves both to the next |
| Refinement.RunRefines | hardware/rtl/lock_in/compute_core.sv:208-359 | Over every run and every memory delay the core is on its way from the n-th iterate of the one-step instruction set, n being the instructions finished |
| Refinement.AtFetch | hardware/rtl/lock_in/fetcher.sv:24-56 | Each time a fetch starts, pc, registers and memory are exactly that iterate; the accepted transfers and the clock edges used are exactly those of the instructions |
| AluLaws.ExecuteDoes | docs/ISA.md:35-58 | What each instruction does to registers, memory and pc, without naming the operation table |
| AluLaws.StepDoes | hardware/rtl/lock_in/compute_core.sv:208-359 | So each state at which the core starts a fetch comes from the one before by what the instruction does |
| Refinement.RunTransfers | hardware/rtl/lock_in/lsu.sv:52-127 | The accepted transfers are one fetch an instruction and one read or write a load or store, with the right addresses and data, in order |
| Refinement.AddressStable | hardware/rtl/lock_in/lsu.sv:61-66 | A request stays valid with the same address and data until it is accepted |
| Refinement.RunCycles | hardware/rtl/lock_in/compute_core.sv:255-335 | An instruction takes ten edges, a load or store eleven, besides those spent waiting |
| Refinement.UsefulBound | hardware/rtl/lock_in/compute_core.sv:208-359 | At most twelve edges an instruction at which the core neither waits for a memory nor is done |
| Refinement.AllUseful | hardware/rtl/lock_in/compute_core.sv:355-357 | A done core stays done |
| Refinement.AtDone | hardware/rtl/lock_in/compute_core.sv:337-339 | A done core is at an `exit` with that state's registers and memory |
| Refinement.StartRefines | hardware/rtl/lock_in/compute_core.sv:186-207 | After reset and start the core is at the base address, x31 all ones and every other register zero |
| Refinement.ResetClears | hardware/rtl/lock_in/compute_core.sv:177-189 | After a reset the core is idle with nothing asked for, x31 all ones and every other register zero |
| Refinement.DecodeSignals | hardware/rtl/lock_in/decoder.sv:63-269 | The decoder's signals for each supported instruction word |
| Leftover.LuiExact | hardware/rtl/lock_in/decoder.sv:240-249 | Over every run and memory delay LUI writes its immediate and goes on to the next instruction if and only if the ALU operation before it was not a jump; else it jumps by the immediate |
| Leftover.LuiJumps | hardware/rtl/lock_in/decoder.sv:240-249 | A run from reset in which `lui` after a `j` jumps to 4097 |
| Leftover.SeqiExact | hardware/rtl/lock_in/compute_core.sv:552-560 | Over every run and memory delay `seqi` writes what the ALU was left with, and is right if and only if that is the value of the comparison |
| Leftover.SeqiAfter | hardware/rtl/lock_in/alu.sv:34-103 | After any supported instruction that value is the instruction done again on the registers after it and the new pc; so `seqi` is right if and only if this equals the comparison |
| Leftover.LeftAfter | hardware/rtl/lock_in/alu.sv:34-103 | What a finished instruction leaves in the ALU: its own operation done once more on the registers after it and the new pc |
| Leftover.SeqiFails | hardware/rtl/lock_in/compute_core.sv:552-560 | A run from reset in which `seqi x2, x1, 1` after `addi x1, x1, 1` finds 1 and writes 2 |
| Leftover.Reaches | hardware/rtl/lock_in/compute_core.sv:208-359 | From reset such a word is fetched and finished after any supported instruction, by memories that are ready |
| Scheduler.WarpScheduler.FindNext | hardware/rtl/lock_in/compute_core.sv:226-248 | The loop finds the first ready warp in cyclic order after the current one |
| Scheduler.WarpScheduler.ComputeAllDone | hardware/rtl/lock_in/compute_core.sv:153-162 | The loop tells whether all warps in use are done |
| Scheduler.WarpScheduler.Clock | hardware/rtl/lock_in/compute_core.sv:174-359 | One edge of warp states, current warp and `done`, blocking assignments first |
| Scheduler.EdgeKeeps | hardware/rtl/lock_in/compute_core.sv:209-248 | For any number of warps: current_warp stays in use, only the current warp moves except from fetch to decode, DONE is absorbing, `done` rises exactly an edge after all warps are DONE |
| Scheduler.GivesAway | hardware/rtl/lock_in/compute_core.sv:220-248 | In UPDATE, DONE, WAIT, ALU_WAIT and INT_ALU_WAIT the core goes to the next warp that is past FETCH and neither IDLE nor DONE, if there is another; in every other state it stays |
| Scheduler.OthersMove | hardware/rtl/lock_in/compute_core.sv:209-217 | Of the other warps exactly those whose fetch is done move, to DECODE |
| Scheduler.CurrentMoves | hardware/rtl/lock_in/compute_core.sv:250-359 | Where the current warp goes from each state |
| Scheduler.StartsAll | hardware/rtl/lock_in/compute_core.sv:177-207 | A reset makes all warps idle; a start sets all in use to FETCH and makes warp 0 current |
| Scheduler.SwitchNearer | hardware/rtl/lock_in/compute_core.sv:222-248 | Each time the core is given away the cyclic distance to any waiting ready warp strictly decreases |
| Scheduler.NoStarvation | hardware/rtl/lock_in/compute_core.sv:222-248 | A ready warp is served before the core has been given away n - 1 times, over any run |
| Scheduler.RunKeeps | hardware/rtl/lock_in/compute_core.sv:153-162 | Over any run `done` implies every warp is DONE |
| Scheduler.OneWarp | hardware/rtl/lock_in/compute_core.sv:208-359 | With one warp this is the control of module Core |
| Dispatcher.DispatchUnit.Clock | hardware/rtl/lock_in/dispatcher.sv:35-95 | One edge of the dispatcher for any number of cores, non-blocking counters included |
| Dispatcher.DispatchUnit.Dispatch | hardware/rtl/lock_in/dispatcher.sv:72-82 | The dispatching loop |
| Dispatcher.DispatchUnit.Complete | hardware/rtl/lock_in/dispatcher.sv:85-92 | The completion loop |
| Dispatcher.EdgeSafe | hardware/rtl/lock_in/dispatcher.sv:61-93 | With one core, every edge keeps: blocks begun are 0, 1, 2, ... once each; dispatched = finished + 1 while one is under way, else equal; no stale done; `done` only when all are finished |
| Dispatcher.RunSafe | hardware/rtl/lock_in/dispatcher.sv:65-69 | Over any run and any behaviour of the warps: when `done` is up, exactly blocks 0 to total - 1 have been begun, in order, and finished |
| Dispatcher.KernelEnds | hardware/rtl/lock_in/dispatcher.sv:61-93 | With one core and blocks to run: if the warps of every block begun get to DONE, `done` rises after finitely many edges, all blocks begun and finished |
| Dispatcher.CountedWhenDone | hardware/rtl/lock_in/dispatcher.sv:85-92 | A block is counted only when every warp of the core is DONE, and the core is reset at once |
| Dispatcher.SharedBlock | hardware/rtl/lock_in/dispatcher.sv:72-82 | Two cores in reset at the same edge get the same block, counted once |
| Dispatcher.SharedAtStart | hardware/rtl/lock_in/dispatcher.sv:50-58 | Two edges after a kernel is asked for, every core, however many, has been given block 0, counted once: exactly-once needs a single core |
| Dispatcher.EachCore | hardware/rtl/lock_in/dispatcher.sv:72-92 | What an edge does to one core among any number |
| Dispatcher.FinishedTogether | hardware/rtl/lock_in/dispatcher.sv:85-92 | Cores that finish at the same edge are counted once between them |
| Dispatcher.NothingToDo | hardware/rtl/lock_in/dispatcher.sv:50-69 | The counters move only for a core that takes or finishes a block; `done` rises exactly when all blocks of a kernel with some are counted |
| Reduction.RoundsSum | code/kmeans_kernel.c:64-79 | After h rounds in lock-step cell i holds the sum of cells i up to min(n, i + 2^h), for every n and h |
| Reduction.ReductionTotal | code/kmeans_kernel.c:64-79 | With 2^h >= n cell 0 holds the sum of all n cells |
| Reduction.InPlaceIsLockStep | code/kmeans_kernel.c:65-78 | In place, any order in which no thread runs before the reader of a cell it will change gives the lock-step result |
| Reduction.OrderExact | code/kmeans_kernel.c:65-78 | Exactly those orders do, on all arrays |
| Reduction.AddPartner | code/kmeans_kernel.c:69-78 | One thread's turn over all clusters and buffers |
| Reduction.OneRound | code/kmeans_kernel.c:65-78 | The in-place loop over threads in ascending order is a lock-step round of every row |
| Reduction.Reduce | code/kmeans_kernel.c:64-79 | The loop over rounds leaves every row's sum in column 0 |
| KMeans.BestIsNearest | code/kmeans_kernel.c:32-49 | Each point goes to a centroid of least L1 distance, and of equally near ones to 1 before 0 before 2 |
| KMeans.DistanceIsSum | code/kmeans_kernel.c:33-35 | The distance is the sum of both coordinate differences, each with the sign that makes it largest |
| KMeans.AssignPoint | code/kmeans_kernel.c:32-62 | A thread's assignment and its column of the buffers |
| KMeans.FillColumn | code/kmeans_kernel.c:51-62 | The loop over clusters puts the point in the row of its cluster and zeros in the others, in one column only |
| KMeans.Kernel | code/kmeans_kernel.c:25-80 | Column 0 of the buffers ends with each cluster's count and coordinate sums |
| KMeans.CountsConserved | code/kmeans_kernel.c:51-62 | Cluster counts add up to the number of points |
| KMeans.SumsConserved | code/kmeans_kernel.c:51-62 | Cluster sums add up to the sum over all points |
| KMeans.UpdateCentroids | code/ps_driver.c:105-119 | Each new centroid times its count is the sum, coordinate by coordinate; with count zero it stays |
| KMeans.Run | code/ps_driver.c:86-120 | The driver's loop computes the iterated cycle |
| KMeans.CyclesMean | code/ps_driver.c:105-119 | In every cycle each centroid times the number of points nearest to it becomes the sum of their coordinates, counted from the points alone; without such points it stays |
| KMeans.CyclesInBox | code/ps_driver.c:86-120 | After any number of cycles each centroid is its initial value or lies within the points' coordinate range |
| KernelLayout.KernelFrame.SplitThreads | compiler/src/kernel/ast_kernel.cpp:360-382 | The countdown loop makes full warps and a last one with the rest |
| KernelLayout.KernelFrame.KernelStackSize | compiler/src/kernel/ast_kernel.cpp:529-542 | The loop computes 256 bytes for each warp and each thread |
| KernelLayout.KernelFrame.SetOffsets | compiler/src/kernel/ast_kernel.cpp:388-405 | The running subtraction gives every save area its offset |
| KernelLayout.SizesSum | compiler/src/kernel/ast_kernel.cpp:360-382 | For every thread count and warp size the warp sizes sum to the thread count |
| KernelLayout.WarpsExact | compiler/src/kernel/ast_kernel.cpp:360-382 | As many warps as the threads need and no more |
| KernelLayout.StackBytes | compiler/src/kernel/ast_kernel.cpp:529-542 | 256 bytes for each warp and each thread, from 15000 up |
| KernelLayout.SlotBytes | compiler/src/kernel/ast_kernel.cpp:388-405 | The address of every register slot and of the completion flag, in numbers |
| KernelLayout.SlotsApart | compiler/src/kernel/ast_kernel.cpp:149-206 | All slots, the completion flag among them, are pairwise distinct words inside [15000, 15000 + KernelStackSize) |

## Left out

- Vector-mode code, divergence handling and the emitted warp-switch code: only the layout arithmetic of the kernel's save areas is modelled.
- Source constructs beyond the fragment above: `!=`, `>`, `<=`, `>=`, `do`, `&&`, `||`, unary minus and not, the ternary operator, `switch`, calls, parameters, pointers, structs, chars, floats, variable indices, chained assignment, the value of `x++`, globals; a local that shares its name with a global is looked up as the global, so names are taken to be distinct.
- Array accesses with a number of indices other than the number of dimensions have no meaning in the source language; the code emitted for them is modelled, their result is not compared.
- CodeGenerator.Context.GetVariable: there are no globals, whose table the compiler searches first.
- CodeGenerator.Context.EmitPosition: two indices on an array with one bound, for which the compiler reads past the end of a vector, are an exception.
- CodeGenerator.Context.EmitFunction: after an exception nothing is said of the context.
- Functions.FunctionCorrect: the first function of a unit; the text of a later one differs in registers and label numbers, and the order in which functions run is that of calls, which are not modelled.
- CodeGenerator.Context.EmitStmt: after an exception nothing is said of the context, which the compiler abandons.
- The operation-type stack, the set of allocated registers (kept for calls), debug output, `.size` and other directives around a function.
- Assembler text handling: lines come split into parts, registers as numbers; instructions with missing operands, the division instructions, floating point and `call` are not modelled, and addresses stay below 2^31.
- Core.ComputeCore.Clock: the scalar units only; vector lanes and floating-point units are no part of the edge, the latter's `valid` and result are inputs.
- Decoder.Decode: floating-point operations are one operation `FPU`, and the flags that steer the float register files are not modelled.
- Refinement.RunRefines: floating point, LUI, `seqi`, `ret`, `sync` and vector instructions are outside the supported words; LuiExact and SeqiExact say what two of them do. The lanes' load-store units, which scalar instructions never enable, are taken to be idle, and the ALU operation left over from before the first decode to be no floating-point one.
- The race between the scheduler's blocking assignment to a warp's state and the units that read it at the same edge: units read the value from before the edge.
- Results of data operations with more than one warp, which share one set of load-store units: only scheduling facts are stated.
- Scheduler.EdgeKeeps: the number of warps is taken to be between 1 and WARPS_PER_CORE, without which the hardware divides by zero or leaves its arrays.
- Dispatcher.RunSafe: one core, as in KernelEnds; with more, the first block is always shared, as SharedAtStart states, and nothing is said of the counts after that. Starting again without a reset is covered only in so far as it begins no further block.
- KMeans.CyclesInBox: numbers are exact reals; rounding of floats is not modelled.
- KMeans.Kernel: each thread's part between two barriers runs as a whole before the next thread's, in ascending order; InPlaceIsLockStep and OrderExact say for which other orders the sums are the same.
- The polling and memory mapping of the driver, the memory controller, the lexer and parser, the test benches and scripts.
