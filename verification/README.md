# cabor: a verified model of the compiler

cabor is a small compiler written in C: text is tokenized, parsed into a tree, typed, lowered to a flat list of
instructions with labels and jumps, and written out as x64 assembly, beside a hand-written assembly runtime.
This project models those stages in Dafny and proves what they are for: that each stage keeps the meaning of
what it is given, from the text of a program to the calls its assembly makes.

Run `dafny verify dfyconfig.toml` to check everything.

## How it is laid out

| stage | as the source writes it | what it computes | what is proved about it |
|---|---|---|---|
| tokenizer | `Tokenizer` (methods) | `Tokenizer` (functions) | `TokenizerInverse` |
| parser | `Parser` (class) | `ParserSpec`, `Printer` | `ParserInverse`, `Precedence`, `ParserRange`, `ParserSound`, `ParserSpells`, `ParserCost`, `NaturalText`, `Allocation`, `NodeList` |
| type checker | `TypeChecker` (class) | `TypeChecker` (functions) | `CheckerAgreement`, `CheckerNodes` |
| IR generation | `IrGenerator` (classes) | `Lowering` | `LoweringShape`, `LoweringMeaning`, `LoweringTheorems`, `ValueTypes`, `ClosedControlFlow`, `SingleAssignment`, `CallArguments`, `VarNames` |
| code generation | `Codegen` (classes) | `Codegen` (functions), `Machine` | `CodegenMeaning`, `LabelNames`, `CalledNames`, `NameClash`, `Intrinsics`, `CompilerTheorem` |
| runtime | `Runtime` (methods) | `Runtime` (functions) | `Runtime` |
| scopes | `HashMap` (class) | finite maps | `HashMap` |
| base64 | `Base64` (methods) | `Base64` (functions) | `Base64` |
| all together | `FrontEnd` (a method) | | `FrontEnd` |

Code that works in place is a class or a method with loops, proved to compute a function; the theorems are
about the functions. `Syntax`, `SourceSemantics`, `Ir`, `Tokens` and `Words` hold the trees, the meaning of
programs, the IR, tokens and 64-bit numbers.

The meaning of a program is the trace of the calls it makes. Every operator and function is an uninterpreted
call, answered by an oracle that sees all earlier calls, which is how the IR treats them (`src/language/ir.c:423-464`);
`while` needs fuel in the source semantics only, and the theorems say that a program runs out of every fuel
exactly when its code runs forever.

## Where the code is not what it seems

The model follows the code. Where that defeats its evident intent, a theorem says exactly when.

- An `if` without `else` places its then-label twice and its end-label never (`src/language/ir.c:583`):
  `ClosedIffEveryIfHasElse`, `StuckIffElseless`.
- Its parser steps over the token behind it, if there is one (`src/language/parser.c:448`). Written with a `;` to step over,
  every tree is read back: `ProgramRoundTrip`. Written with nothing there, a tree is read back exactly when such ifs are on
  its right edge and leave enough closing parentheses: `NaturalIff`, `SwallowedSemicolon`, `DanglingElse`.
- Label names repeat, and the code generator emits names, which calls use too: `ShippedNames`, `ClashesIff`. The simulation
  holds for any distinct names that the program does not call.
- A call keeps a pointer to its arguments in a vector that moves when it grows (`src/language/ir.c:204-217`,
  `src/core/vector.c:301-306`). The model finds them at the same index afterwards; `GenerateIr` says that the vector does
  not move exactly when there are at most 1024 of them, and that otherwise only the last call points where they are.
- An operator's intrinsic is followed by an external call of the same name (`src/language/codegen.c:313-388`), whose
  answer overwrites the result: `CallSim`. The simulation is about that code; `Intrinsics` is about the sequences alone,
  and `SequenceIsStep` about what they would do if no call followed.
  Only a division in the sequence can still be felt, when it faults: `FaultsIffBadDivision`.
- The line of a comparison's `setcc` has no newline (`src/language/codegen.c:117`), so it runs into the next one and the
  file does not assemble. The model takes the two lines as they were meant.
- A comparison gets the type of its operands (`src/language/type_checker.c:91-106`), so none of Ints can be a condition:
  `IntComparisonIsNoCondition`.
- `<` and `<=` are dispatched crosswise (`src/language/codegen.c:349-356`): `BinaryIntrinsicIff`.
- A call with more than six arguments is dropped (`src/language/codegen.c:370-374`): `SevenArgsDropCall`.
- Looking up an absent key in a bucket that is in use dereferences NULL (`src/core/hashmap.c:133-141`): `HashMap.Get`,
  `LookupPastTheEnd`.
- The stack that lists a tree overwrites its entries when it should grow (`src/core/stack.c:23-38`): `ListNodes`. Programs
  for which it does can be written: `DeepProgramOverflows`.
- Names that start with `or`, `and` or `not` are split (`src/language/tokenizer.c:140-181`): `NameReadIff`.
- Closing parentheses missing at the end of the input are forgiven (`src/language/parser.c:318-331`): `PrintedIffBalanced`.
- Integer literals above 2^31 - 1 change value (`src/language/ir.c:496-502`): `LiteralIsExact`.
- A block sees its own names only, so callees inside a block are unbound (`src/language/ir.c:555-567`,
  `src/test/language/type_checker_test.c:190-194`): `Syntax.Scoped` says so.

## Model

| member | source | states |
|---|---|---|
| LoweringTheorems.LoweringPreservesMeaning | src/language/ir.c:271-692 | For every well-scoped program, every oracle and every amount of loop fuel: if the source finishes, the IR reaches its end with the same trace of calls, arguments and answers, ending in the print of the root value; if the source is still looping, the IR has made the same calls, is still running and has taken at least as many steps; if the source comes to the end of an `if` without `else`, the IR is stuck after the same calls; the source never goes wrong otherwise |
| LoweringTheorems.IrHasOnlySourceBehaviour | src/language/ir.c:271-692 | The converse, for every number of steps: the IR is stuck only if the source has come to the end of an `if` without `else`; otherwise its trace is a prefix of the source's, and when it has ended the source has finished with the same trace |
| LoweringTheorems.SameTermination | src/language/ir.c:423-692 | A trace is one the source finishes with if and only if the IR finishes with it |
| LoweringMeaning.SimNode | src/language/ir.c:651-692 | The induction behind it, for every node in every scope: running the node's code from its first instruction leads to one past its last with the node's value in the returned variable, only variables created meanwhile changed, and names bound as in the source |
| LoweringMeaning.SimIfElse | src/language/ir.c:587-610 | An `if` with `else` runs the condition and one branch only, and leaves the branch's value in the join variable |
| LoweringMeaning.SimIfThen | src/language/ir.c:571-585 | An `if` without `else` makes the calls of its condition, and of its branch if that is taken, and then jumps to a label that is placed nowhere |
| LoweringMeaning.SimWhile | src/language/ir.c:614-631 | A `while` of the IR makes the calls of the source loop turn by turn, and exits exactly when the condition is zero |
| LoweringMeaning.SimStatements | src/language/ir.c:555-567 | Statements run in order, each seeing the declarations before it; the last value is the block's |
| LoweringMeaning.SimCall | src/language/ir.c:532-548 | Arguments are evaluated left to right, before the call |
| LoweringMeaning.SimVarExpr | src/language/ir.c:633-644 | A declaration evaluates its initialiser, copies it to the variable, and binds the name for what follows |
| LoweringShape.VisitScope | src/language/ir.c:410-421 | Lowering a node keeps every name bound to an IR variable of that name, adds operator names only, and rebinds nothing but a declared name |
| LoweringShape.VisitExtends | src/language/ir.c:59-149 | The vectors of variables, labels and instructions only grow: every index given out stays valid and keeps its meaning |
| LoweringShape.VisitValue | src/language/ir.c:423-612 | A value node of a well-scoped program returns a variable created for a value: never a function, UNIT or INVALID |
| LoweringShape.VisitUnit | src/language/ir.c:550-644 | A node that is no value returns UNIT |
| LoweringShape.UnboundName | src/language/ir.c:517-548 | A name that is not bound gives -1, as an operand and as the function of a call |
| LoweringShape.UncheckedLiteral | src/language/ir.c:466-515 | A literal without a type, as the checker leaves those it does not reach, gives -1 and no instruction |
| ValueTypes.ReturnsValueType | src/language/ir.c:410-612 | The IR variable returned for a value has the type of the value: that of its declaration for a name, of the then-branch for an `if`, of the last statement for a block |
| ValueTypes.RootTypeIs | src/language/ir.c:295-316 | So for every well-scoped program, checked or not, the call that prints its value is chosen by the source |
| LoweringTheorems.StaysInside | src/language/ir.c:569-631 | One step from inside a subtree's code lands inside it or one past its end |
| LoweringTheorems.StuckIffElseless | src/language/ir.c:571-585 | As shipped, generated code gets stuck if and only if the evaluation of the source comes to the end of an `if` without `else`, anywhere in the program and whether the branch was taken or not, and it has made the same calls by then |
| LoweringTheorems.ElselessGetsStuck | src/language/ir.c:571-585 | It does for `if true then 1`, before any call |
| LoweringTheorems.NeverStuck | src/language/ir.c:423-692 | A program whose ifs all have an else never gets stuck and never reads an unwritten variable |
| LoweringTheorems.FunctionsAsValues | src/language/ir.c:289-316 | Variable 0 is never printed: the program `print_int` has no code, while `print_bool` prints variable 1 |
| ClosedControlFlow.ClosedIffEveryIfHasElse | src/language/ir.c:115-149 | Every label a subtree creates is placed exactly once in its code if and only if every `if` in it has an `else` |
| ClosedControlFlow.VisitPlaces | src/language/ir.c:569-631 | A visit places no label created outside it, and each of its own exactly once when every `if` has an `else` |
| ClosedControlFlow.VisitOwnJumps | src/language/ir.c:569-631 | Every jump in a subtree's code goes to a label created while visiting that subtree |
| ClosedControlFlow.UnplacedLabel | src/language/ir.c:571-585 | A tree with an `if` without `else` creates a label that is never placed |
| ClosedControlFlow.ProgramLabelsUnique | src/language/ir.c:136-149 | In a generated program whose ifs have an else, each label index is placed once, so a jump has one target |
| SingleAssignment.VisitAssigns | src/language/ir.c:101-113 | For every tree: the code of a subtree writes only variables created while visiting it, and two instructions write the same variable only as the two copies that join an `if` |
| SingleAssignment.ProgramWrites | src/language/ir.c:592-610 | In a generated program whose ifs have an else, two instructions write the same variable only as the copies that join one `if`, and no third writes it |
| SingleAssignment.OneCopyRuns | src/language/ir.c:592-610 | A run that comes to either of two such copies goes on from it past both: they lie on different branches |
| IrGenerator.IrData.VisitIrNode | src/language/ir.c:651-692 | Each visitor, working on the vectors and scopes in place, reaches exactly the state the lowering functions give |
| IrGenerator.IrData.VisitIrUnaryop | src/language/ir.c:439-464 | The same for unary operators, whose function is named `unary_` and the operator |
| IrGenerator.IrData.VisitIrBinaryop | src/language/ir.c:423-437 | The same for binary operators |
| IrGenerator.IrData.VisitIrLiteral | src/language/ir.c:466-515 | The same for literals, by the type the checker gave them |
| IrGenerator.IrData.VisitIrFunctionCall | src/language/ir.c:532-548 | The same for calls, with the loop over the arguments |
| IrGenerator.IrData.VisitIrBlock | src/language/ir.c:555-567 | The same for blocks, in a new scope; the enclosing scope is not written |
| IrGenerator.IrData.VisitIrIfThen | src/language/ir.c:571-585 | The same for an `if` without `else`, as shipped |
| IrGenerator.IrData.VisitIrIfThenElse | src/language/ir.c:587-610 | The same for an `if` with `else` |
| IrGenerator.IrData.VisitIrWhile | src/language/ir.c:614-631 | The same for `while` |
| IrGenerator.IrData.VisitIrVarExpr | src/language/ir.c:633-644 | The same for declarations: the variable is created before its initialiser is visited and bound after |
| IrGenerator.IrData.RequireIrVar | src/language/ir.c:410-421 | An operator's variable is created in the scope on first use and found there later |
| IrGenerator.IrData.CreateIrCall | src/language/ir.c:201-225 | Appends the argument list to the shared vector, which is moved if it is too small, and a call that points to it there |
| IrGenerator.PoolGrows | src/core/vector.c:301-306 | What is stored in the vector of arguments stays at its index as the vector grows |
| IrGenerator.MemoriesStore | src/language/ir.c:201-225 | Storing a call keeps this: while there are at most 1024 arguments every call points into the memory in use, and from then on only the last call with arguments does |
| CallArguments.ProgramCounts | src/language/ir.c:423-548 | The calls of a generated program have as many arguments as are counted on its tree: one for a unary operator, two for a binary one, those of each call, and one for the final print |
| IrGenerator.IrData.GenerateIr | src/language/ir.c:271-317 | The whole generation: the root scope with the two print functions, the tree, and the print its type selects; the vector of arguments has not moved exactly if at most 1024 are counted on the tree, and if it has, a call still points to its arguments exactly if it is the last one that has any |
| CompilerTheorem.CompilationPreservesMeaning | src/language/codegen.c:251-399 | From source to machine: for every well-scoped program whose ifs have an else and whose calls have at most six arguments, any pairwise distinct label names none of which the program calls, any answers of the outside world and any initial registers and frame, as long as no division faults, the machine makes the source's calls with the same arguments, stops when the source finishes, and keeps running while it loops |
| CompilerTheorem.AssemblyHasOnlySourceBehaviour | src/language/codegen.c:251-399 | The converse, for every number of steps: without a faulting division the machine is not stuck, the calls it has made are the source's first calls, and if it has stopped the source finishes with the same calls |
| CompilerTheorem.FaultsIffBadDivision | src/language/codegen.c:90-110 | The machine gets stuck if and only if the source, at some point of its run, divides by zero or the minimum by -1 |
| CompilerTheorem.BadDivisionStops | src/language/codegen.c:90-110 | If such a division is among the calls the source makes, the machine is stuck after some number of steps |
| CompilerTheorem.OneOverZeroFaults | src/language/codegen.c:90-110 | It gets stuck on `1 / 0` |
| CompilerTheorem.ShippedNames | src/language/ir.c:571-618 | For programs whose ifs have an else, the label names as shipped are fit for this exactly when there are at most one `if` and one `while`, and the program calls nothing by the name of one of their labels |
| LabelNames.LabelsAre | src/language/ir.c:571-618 | The labels of a generated program have the three names of an `if` if there is one, the three of a `while` if there is one, and no other |
| CalledNames.ProgramCallsNamed | src/language/ir.c:423-548 | The functions that generated code calls are exactly those counted on the tree: operators, callees and the one that prints the value |
| NameClash.ClashesIff | src/language/codegen.c:366-399 | Some name is both placed as a label and called in the assembly if and only if a label has the name of a function counted on the tree |
| NameClash.EndClashes | src/language/codegen.c:366-399 | It happens with the names as shipped, although they are distinct: `{ var end = 1; end(if true then 1 else 2) }` |
| CompilerTheorem.ProgramReady | src/language/codegen.c:194-204 | Slot 0, shared by UNIT and the first variable, is never read as a value by generated code, no call's destination is among its arguments, and all operands and labels exist |
| CodegenMeaning.StepSim | src/language/codegen.c:257-398 | For any IR fit for code generation, one IR step is matched by running its instructions: same calls, and every written variable in its slot |
| CodegenMeaning.RunSim | src/language/codegen.c:251-399 | The same for runs of any length, taking at least as many machine steps unless the IR has ended |
| CodegenMeaning.StoppedIffHalted | src/language/codegen.c:251-399 | The machine is past its last instruction exactly when the IR is |
| CodegenMeaning.FindDefIsFindLabel | src/language/codegen.c:432-445 | Under distinct names, a label's text leads to the code of the IR instruction that places that label |
| CodegenMeaning.IntrinsicHarmless | src/language/codegen.c:313-388 | The intrinsic sequence run before the external call it falls into makes no call and changes no slot but the result's, for every machine state in which its division, if it has one, does not fault |
| CodegenMeaning.DivisionRuns | src/language/codegen.c:90-110 | A division sequence runs if and only if the divisor is not zero and the quotient fits, and then leaves the truncated quotient or remainder |
| CodegenMeaning.DivisionFaults | src/language/codegen.c:90-110 | An IR division with a zero divisor, or of the minimum by -1, faults in the fourth machine step |
| CodegenMeaning.SevenArgsDropCall | src/language/codegen.c:366-388 | The call instruction is emitted if and only if there are at most six arguments |
| CodegenMeaning.CallSim | src/language/codegen.c:313-388 | After the code of a call of a name that is no label, the result's slot holds the answer of the external call of that name, whatever its intrinsic computed before |
| CodegenMeaning.ArgumentRegisters | src/language/codegen.c:366-381 | Before a call with at most six arguments, the code has put the first in `%rdi`, the second in `%rsi`, the third in `%rdx`, the fourth in `%rcx`, the fifth in `%r8` and the sixth in `%r9` |
| CodegenMeaning.CallPasses | src/language/codegen.c:366-388 | A call of k arguments passes the first k of these registers, in this order, and its answer is in `%rax` |
| Codegen.Locals.InitLocals | src/language/codegen.c:173-192 | Named variables get the slots 8, 16, 24, ... so distinct variables have distinct slots |
| Codegen.Locals.GetStackSlot | src/language/codegen.c:194-204 | A variable's slot; UNIT gives the slot of variable 0 |
| Codegen.Assembly.EmitCallInstr | src/language/codegen.c:303-391 | The code of a call: the intrinsic of that name if there is one, then argument registers, call and result, unless there are more than six arguments |
| Codegen.Assembly.EmitInstr | src/language/codegen.c:257-398 | The code appended for one IR instruction |
| Codegen.Assembly.GenerateAssembly | src/language/codegen.c:251-399 | The loop appends the code of the instructions in order |
| LabelNames.NamesDistinctIff | src/language/ir.c:571-618 | Generated label names are pairwise distinct if and only if the program has at most one `if` and at most one `while` |
| LabelNames.VisitNames | src/language/ir.c:115-134 | A tree adds exactly the labels counted from its ifs and whiles, under every name |
| Intrinsics.BinaryIntrinsicIff | src/language/codegen.c:63-152 | For every arithmetic operator and comparison: the sequence leaves the operator's value in the result slot under 64-bit two's complement, for all operands (division by nonzero with a quotient that fits) if and only if the operator is not `<` or `<=`, which are dispatched crosswise, or the operands differ |
| Intrinsics.SequenceIsStep | src/language/codegen.c:63-152 | Where operators are answered by their meaning, the sequence of an operator alone leaves every variable as the IR's step does if and only if it is not `<` or `<=` between equal operands |
| Intrinsics.UnaryMinusResult | src/language/codegen.c:51-55 | Negation modulo 2^64: the minimum stays itself |
| Intrinsics.UnaryNotResult | src/language/codegen.c:57-61 | `not` gives the logical negation if and only if its argument is 0 or 1 |
| Intrinsics.SetsLowByte | src/language/codegen.c:112-122 | `setcc` as the machine has it writes the lowest byte of `%rax` and no other |
| Runtime.PrintInt | src/language/preamble.h:11-60 | Writes exactly the decimal text of its argument and a newline for every 64-bit value including the minimum, between 2 and 21 bytes, and returns the argument |
| Runtime.DigitLoop | src/language/preamble.h:24-39 | The loop stores the digits of the absolute value below the newline, also when the remainders are negative, and ends |
| Runtime.ReadInt | src/language/preamble.h:91-149 | Reads up to a newline, or to the end of input after at least one byte: the number of its digits, negated for an odd number of dashes, modulo 2^64; otherwise the error exit |
| Runtime.ReadsBackPrinted | src/language/preamble.h:11-140 | What `print_int` writes for any 64-bit number, `read_int` reads back as that number, whatever follows |
| Runtime.ReadsBackAtEnd | src/language/preamble.h:110-140 | So it does when the input ends behind the digits |
| Runtime.EndIsNewline | src/language/preamble.h:110-140 | Any input that ends without a newline gives the number it gives with one |
| Runtime.ReadFailsIff | src/language/preamble.h:105-113 | Reading takes the error exit if and only if no newline comes before the input ends, and it ends at once or in a failure |
| Runtime.FirstLineRead | src/language/preamble.h:114-118 | Of longer input, the first line and its newline are taken |
| Runtime.DigitsValue | src/language/preamble.h:122-129 | A line of digits has the value they denote, modulo 2^64 |
| Runtime.OthersIgnored | src/language/preamble.h:122-125 | A character that is neither digit nor dash changes nothing, wherever it stands in the line |
| Runtime.DashNegatesLine | src/language/preamble.h:119-135 | A dash negates the value, wherever it stands |
| Words.DecimalReadsBack | src/language/preamble.h:24-39 | Decimal digits denote the number they were made from |
| SourceSemantics.LiteralIsExact | src/language/ir.c:496-502 | A literal means the number written if and only if that number fits in a C int |
| SourceSemantics.LiteralWraps | src/language/ir.c:496-502 | A literal below 2^63 means the number written modulo 2^32, in the range of a C int; from there on it means -1 |
| ParserInverse.ParserInvertsPrinter | src/language/parser.c:180-710 | Parsing inverts printing: for every tree the parser can build, printed with the parentheses precedence requires and any redundant ones and a `;` behind every `if` without `else`, anywhere in a token vector and whatever follows that is no operator (nor a parenthesis after a name), the parser returns the tree with the cursor on the last printed token, having appended one UNIT token per block that ends in one; without any `;` this holds where every `if` has an `else` |
| ParserInverse.ProgramRoundTrip | src/language/parser.c:147-156 | The same for a whole program printed with no parentheses but the required ones |
| ParserInverse.IfThenFactor | src/language/parser.c:406-472 | An `if` without `else` ends on the token behind its branch, which it steps over |
| NaturalText.NaturalIff | src/language/parser.c:406-472 | Written with nothing behind an `if` without `else`, a tree the parser can build is read back if and only if all such ifs are on its right edge (the last child of an operator, a call, a keyword form or a declaration) and closing parentheses enough follow: each such `if` steps over one; what is missing then is forgiven to parentheses if no UNIT token was appended, and never to a call |
| NaturalText.OffEdgeLost | src/language/parser.c:406-472 | Whatever tree is read back from such a text has them all on the right edge: for another there are not tokens enough |
| ParserCost.ExpressionCost | src/language/parser.c:180-710 | Whatever the tokens, the parser has read at least as many for a tree as the tree is written with and one more for each `if` without `else`, or all there are |
| NaturalText.BranchEndsProgram | src/test/language/parser_test.c:585-597 | A branch that ends the program is read back |
| NaturalText.DanglingElse | src/language/parser.c:439-446 | Two trees have the text `if a then if b then c else d`, and the parser takes the one whose `else` is with the nearer `if` |
| NaturalText.SwallowedSemicolon | src/language/parser.c:448-472 | `{ if a then b; c }` is not read at all |
| ParserInverse.PrintingUnambiguous | src/language/parser.c:349-397 | No two trees have such a printed form in common |
| Precedence.OperatorsGroup | src/language/parser.c:27-36 | Of two binary operators between three single operands, the one whose group comes later in the list `=`; `or`; `and`; `==` `!=`; `<` `<=` `>` `>=`; `+` `-`; `*` `/` `%` takes the operand in the middle, and of one group the first does |
| Precedence.NoOperatorJoins | src/language/parser.c:364-395 | Behind an operand, any token that is none of these ends the program, but for a parenthesis |
| Precedence.PrefixFirst | src/language/parser.c:280-289 | `-` and `not` take the operand behind them before any binary operator, and no other operator can come first |
| ParserRange.ProgramParsed | src/language/parser.c:180-637 | Whatever tokens the tokenizer makes, a tree the parser returns has the shape printing is for, so `ProgramRoundTrip` reads all of them back |
| ParserRange.Reparsed | src/language/parser.c:147-156 | Any program read, then printed with no parentheses but those it needs and a `;` behind every `if` without `else`, and read again, is the same program |
| ParserInverse.BinaryHere | src/language/parser.c:349-397 | A binary operator at its own level: both operands are read, and the loop goes on with the joined tree, which makes all seven levels left-associative |
| ParserInverse.StatementList | src/language/parser.c:200-251 | Statements up to the closing brace are read back, and a final `;` becomes a UNIT statement |
| ParserInverse.Arguments | src/language/parser.c:639-710 | An argument list is read back, although the walk to the next separator looks at an argument's first token when the cursor is already on its last |
| ParserSound.PrecedenceSound | src/language/parser.c:280-397 | Whatever operators, operands and parentheses the parser accepts, the tokens read are a printed form of its result but for missing closing parentheses: as many as there are too few, and none unless the input ends there |
| ParserSound.PrintedIffBalanced | src/language/parser.c:318-331 | The tokens read are a printed form of the result if and only if they hold as many closing as opening parentheses |
| ParserSound.TokensInOrder | src/language/parser.c:318-397 | Parentheses aside, the tokens read are the operators and operands of the tree in order |
| ParserSound.UnbalancedAccepted | src/language/parser.c:318-331 | The unbalanced case is real: `((a)` is accepted |
| ParserSpells.ProgramSpelled | src/language/parser.c:180-710 | Whatever program the parser accepts, the tokens it has read spell it, parentheses aside: every keyword, operator, separator and name in its place, and nothing else but the token each `if` without `else` steps over and what stands between an argument and its separator |
| ParserSpells.CallQuirks | src/language/parser.c:656-697 | Such tokens are passed over, and a comma before the closing parenthesis too |
| ParserSpells.ElseAtEnd | src/language/parser.c:442-450 | An `else` at the very end is taken without a branch |
| ParserSpells.EmptyBlockRefused | src/language/parser.c:180-251 | `{}` is no program |
| ParserSpec.ParseBinary | src/language/parser.c:349-397 | Terminates by the unread program tokens and then the levels left, although UNIT tokens are appended meanwhile, and never moves the cursor back |
| Parser.Parser.BinaryExpression | src/language/parser.c:349-397 | The loop on the cursor in place gives, in every outcome, the tree, cursor and appended UNIT tokens of the specification, and allocates exactly the nodes of its result, in order |
| Parser.Parser.Factor | src/language/parser.c:570-637 | The same for the dispatch on the first token |
| Parser.Parser.BlockExpression | src/language/parser.c:180-277 | The same for blocks |
| Parser.Parser.Statements | src/language/parser.c:200-251 | The same for the loop that fills a block and appends the UNIT token |
| Parser.Parser.IfThenElse | src/language/parser.c:406-473 | The same for `if`, whose cursor is one token further when no `else` follows |
| Parser.Parser.ElseBranch | src/language/parser.c:439-472 | The same for what follows the branch: the else-branch, or one step too far |
| Parser.Parser.WhileExpression | src/language/parser.c:475-504 | The same for `while` |
| Parser.Parser.VarExpression | src/language/parser.c:506-562 | The same for declarations with or without a type |
| Parser.Parser.UnaryExpression | src/language/parser.c:280-289 | The same for unary operators |
| Parser.Parser.Parenthesized | src/language/parser.c:318-331 | The same for parentheses |
| Parser.Parser.Arguments | src/language/parser.c:656-697 | The same for the loop over call arguments |
| Parser.Parser.Next | src/language/parser.c:38-49 | Moves the cursor by one unless it is at the end of the vector |
| Parser.Parse | src/language/parser.c:147-156 | The tree of a whole token vector, and the nodes allocated for it, which are those of the tree |
| Parser.ParseAndDestroy | src/language/parser.c:147-164 | Parsing a program and destroying its tree leaves no node and no byte allocated, exactly when listing the tree needs at most 100 stack entries; otherwise every node of it stays |
| Allocation.BuiltExactly | src/language/parser.c:712-741 | What a successful parse allocated is exactly the nodes of the tree it returns, each at one place in it |
| Allocation.AllocExactly | src/language/parser.c:280-562 | Allocating children in order and then their node, and a declaration's value before its name and type, gives an unshared tree of consecutive addresses |
| Allocation.ListingDescends | src/language/parser.c:755-792 | In a tree without declarations, the listing goes from the node allocated last to the one allocated first |
| Allocation.ValueFirst | src/language/parser.c:506-562 | A declaration allocates its value, then its name, then its type, then itself |
| Allocation.NestedCallsMeetBound | src/language/parser.c:755-792 | The bound on the stack is met at every height by trees the parser builds: nested calls with ten arguments, unshared wherever they are allocated |
| FrontEnd.DeepProgramOverflows | src/language/parser.c:755-792 | Calls nested twelve deep or more can be written as text, are tokenized and parsed, and overflow the stack that lists their tree |
| NodeList.ListNodes | src/language/parser.c:755-792 | The iterative listing gives the recursive root-first right-to-left preorder, every node once, exactly when the stack never holds more than 100 entries |
| NodeList.PeakBound | src/language/parser.c:755-792 | The stack never holds more than 1 + 9 * height entries |
| NodeList.HeightElevenFits | src/language/parser.c:759-760 | Every tree of height at most 11 is listed |
| NodeList.ListsAllocated | src/language/parser.c:712-741 | The listing of a tree has as many nodes as the parser allocated for it |
| NodeList.Allocator.FreeAst | src/language/parser.c:858-881 | Frees every node of an unshared tree once and nothing else, and takes their bytes off the total; nothing is freed if the stack would overflow |
| NodeList.Stack.Push | src/core/stack.c:21-41 | Within the capacity, one more entry on top |
| NodeList.Stack.Pop | src/core/stack.c:43-57 | The top entry, or none when empty |
| TokenizerInverse.TokenizerInvertsRendering | src/language/tokenizer.c:365-435 | Legal tokens of fewer than 64 characters, written with gaps of blanks and closed comments, are read back exactly, with their kinds; a gap may be empty wherever the next character could not be part of the token: no letter or digit behind a name, no digit behind a number, no operator character and no `or`, `and` or `not` behind an operator |
| TokenizerInverse.TokenRead | src/language/tokenizer.c:102-342 | One legal token is read as it is, whatever such character comes next |
| TokenizerInverse.GapSkipped | src/language/tokenizer.c:36-86 | Any sequence of blanks and closed comments before a text is skipped |
| TokenizerInverse.CommentIff | src/language/tokenizer.c:36-86 | A comment is skipped if and only if it is closed, and to its end exactly |
| TokenizerInverse.CharactersAre | src/language/tokenizer.c:13-100 | Which characters are letters, digits, blanks, punctuation and parts of operators |
| TokenizerInverse.RunRead | src/language/tokenizer.c:102-230 | Any run of operator characters and the words `or`, `and`, `not`: it is one operator if it is one of the words or holds none, dropped otherwise, and refused if it is too long or dropped at the end of the text |
| TokenizerInverse.NameRead | src/language/tokenizer.c:298-342 | Letters and digits that start with a letter and none of these words are one token, or refused from 64 characters on |
| TokenizerInverse.IntegerRead | src/language/tokenizer.c:232-280 | So are digits |
| TokenizerInverse.OtherSkipped | src/language/tokenizer.c:429-432 | A character of no token is skipped |
| TokenizerInverse.NameReadIff | src/language/tokenizer.c:140-181 | Any letters and digits that start with a letter are read as the one name or keyword they are if and only if they are fewer than 64 and do not start with `or`, `and` or `not` |
| TokenizerInverse.WordPrefixSplit | src/language/tokenizer.c:140-181 | What such a name is read as when the rest is a name itself: the word as an operator, then the rest |
| Tokenizer.CaborTokenize | src/language/tokenizer.c:365-435 | The loop gives the tokens the specification gives, or its failure |
| Tokenizer.MatchComment | src/language/tokenizer.c:36-86 | Moves past a closed comment, and not at all otherwise |
| Tokenizer.MatchOperator | src/language/tokenizer.c:102-230 | Takes the longest run of operator characters and words; a run with a word counts only if it is that word |
| Tokenizer.MatchIdentifier | src/language/tokenizer.c:298-342 | Takes the longest run of letters and digits that starts with a letter, and tells keywords from names |
| Tokenizer.MatchIntegerLiteral | src/language/tokenizer.c:232-280 | Takes the longest run of digits |
| HashMap.HashMap.Insert | src/core/hashmap.c:80-125 | The map held afterwards is the old one with the key bound to the value; the chains stay acyclic, with distinct keys that hash to their bucket |
| HashMap.HashMap.Get | src/core/hashmap.c:127-144 | The value of a key that is there; for an absent key, not found if no stored key shares its bucket, and otherwise a NULL dereference |
| HashMap.LookupPastTheEnd | src/core/hashmap.c:133-141 | In a scope of the size the compiler uses that declares `x` alone, looking up `iy` dereferences NULL |
| HashMap.HashMap.GetEntry | src/core/hashmap.c:146-164 | The entry of a key, with the same outcomes |
| HashMap.HashMap.SetValue | src/language/ir.c:410-421 | Writing through a returned entry changes that key's value alone |
| HashMap.HashMap.Append | src/core/hashmap.c:117-125 | A new entry at the end of its chain |
| HashMap.HashMap.Walk | src/core/hashmap.c:102-115 | Walking a chain finds the entry of the key or the last entry |
| HashMap.HashMap.Chain | src/core/hashmap.c:102-125 | In a bucket in use, the entry of the key is overwritten or a new one is appended |
| HashMap.HashString | src/core/hashmap.c:52-63 | The loop computes the FNV-1a hash |
| HashMap.Replay | src/core/hashmap.c:80-125 | After any history of insertions into an empty map, the map held is the one the history describes |
| HashMap.LastInsertWins | src/core/hashmap.c:80-125 | In it, the last insertion of a key decides its value |
| HashMap.Links.AppendKeeps | src/core/hashmap.c:117-125 | Appending behind the last entry of a bucket keeps all chains well formed |
| HashMap.Links.FillKeeps | src/core/hashmap.c:94-100 | So does filling an unused head |
| CheckerAgreement.CheckerDecides | src/language/type_checker.c:59-334 | For programs of the fragment without calls, as parsed: the checker accepts exactly when some assignment of types to the nodes obeys the typing rules, and there is then no other |
| CheckerAgreement.IntComparisonIsNoCondition | src/language/type_checker.c:91-106 | A comparison of Ints, having the type of its operands, is refused as the condition of every `if` and `while` |
| CheckerAgreement.CheckerSound | src/language/type_checker.c:59-334 | What the checker accepts obeys the rules; it changes nothing but types, returns the node's type, and leaves the scope as it was but for the node's own declaration |
| CheckerAgreement.CheckerComplete | src/language/type_checker.c:59-334 | Any well-typed tree is what the checker makes of its untyped form |
| CheckerNodes.IntDeclared | src/language/type_checker.c:42-57 | In any scope, a declaration with the type `Int` is accepted if and only if its value is an Int and its name is new |
| CheckerNodes.BoolDeclared | src/language/type_checker.c:189-234 | The same for `Bool` |
| CheckerNodes.OtherDeclared | src/language/type_checker.c:189-234 | Without a type any new name is bound to the type of its value, an error included; no other type can be declared |
| CheckerNodes.PrefixChecked | src/language/type_checker.c:108-139 | `-` takes and gives an Int, `not` a Bool, and nothing else is a prefix operator |
| CheckerNodes.OperandsChecked | src/language/type_checker.c:91-106 | A binary operator has a type if and only if both operands have it |
| CheckerNodes.BranchesChecked | src/language/type_checker.c:59-89 | Behind a Bool, an `if` has the type of its branch, and with `else` if and only if both branches have it |
| CheckerNodes.LiteralChecked | src/language/type_checker.c:236-262 | `true` and `false` are Bools, all other literals Ints |
| CheckerNodes.CallChecked | src/language/type_checker.c:141-152 | The arguments of a call are checked one after another in its scope, and the call keeps the type it has |
| CheckerNodes.CheckKeepsTree | src/language/type_checker.c:283-334 | Checking any tree, with errors or without, changes nothing but types |
| CheckerNodes.TypeIsWritten | src/language/type_checker.c:283-334 | In a parsed program, the type written to a node is the type returned for it |
| CheckerNodes.NotReached | src/language/type_checker.c:59-89 | Behind a condition that is no Bool nothing is checked |
| CheckerNodes.ErrorsPassed | src/language/type_checker.c:154-187 | An erroneous loop body, or statement before the last, does not make the loop or block erroneous |
| CheckerAgreement.TypedIsScoped | src/language/ir.c:517-530 | In a well-typed tree every identifier is declared before it in its own block, so lowering finds it |
| ValueTypes.VisitKeepsTypes | src/language/ir.c:633-644 | Lowering keeps every name bound to an IR variable of the type it was declared with, whatever the rules say about the node |
| CheckerAgreement.ValueHasType | src/language/ir.c:423-612 | The IR variable returned for a value node has the node's checked type |
| CheckerAgreement.AcceptedLowers | src/language/ir.c:295-316 | A program the checker accepts is well scoped, and its value is printed by its checked type |
| TypeChecker.SymbolScope.Typecheck | src/language/type_checker.c:283-334 | Each checker, writing its scope in place, gives the annotated tree, the type returned and the scope of the specification |
| TypeChecker.SymbolScope.TypecheckBlock | src/language/type_checker.c:172-187 | A nested block is checked in a scope of its own: the names of the enclosing scope are not written |
| TypeChecker.SymbolScope.TypecheckVarExpr | src/language/type_checker.c:189-234 | A declaration binds its name unless the declared type differs or the name is already there |
| TypeChecker.SymbolScope.TypecheckIfThenElse | src/language/type_checker.c:59-89 | An `if` with `else`: after a condition that is no Bool nothing more is checked |
| TypeChecker.SymbolScope.NewScope | src/language/type_checker.c:34-40 | A new scope is empty, and linked both ways |
| FrontEnd.TextToAssembly | src/language/compiler.c:6-39 | The whole compiler: the text of a program, with any gaps that keep its tokens apart, is tokenized and parsed back to that program, and the assembly generated for its checked form does what the checked form does |
| FrontEnd.TextRoundTrip | src/language/compiler.c:11-13 | Text to tokens to tree: the tree that was written |
| FrontEnd.AcceptedCompiles | src/language/compiler.c:14-36 | A program the checker accepts can be compiled, under distinct label names it does not call, if and only if its ifs have an else |
| FrontEnd.CaborCompile | src/language/compiler.c:6-39 | The stages called in turn, in place, for any text: no result when it is not tokenized or not parsed, a failed check on an index when an operand of the generated code names no variable, and otherwise the code of the checked tree, which is `AssemblyOf` when that is defined |
| FrontEnd.UnboundCallFails | src/language/codegen.c:306-310 | A text that is the call of an unknown function compiles to no assembly: its index is -1 |
| FrontEnd.OutputBehaves | src/language/compiler.c:6-39 | What that output does, under the label names it uses: for any text whose checked program is well scoped, has an `else` for every `if`, at most one `if` and one `while`, at most six arguments in a call, and calls nothing by the name of their labels, the machine makes the program's calls unless a division faults, and gets stuck if and only if one does |
| FrontEnd.TextFaultsIff | src/language/compiler.c:6-39 | For any program read from text that can be compiled, the machine gets stuck if and only if the source makes a bad division |
| VarNames.ProgramNamed | src/language/codegen.c:173-192 | Every variable of the code generated for a parsed program has a name, so each gets a slot |
| FrontEnd.TokensAreLexed | src/language/tokenizer.c:365-435 | No token is empty, only punctuation starts with a comma, names start with a letter and numbers with a digit: what the parser relies on |
| Base64.ConvertToBase64 | src/network/network.c:124-177 | The buffer holds exactly the encoding of section 4 of RFC 4648 for every byte array, of length 4 * ceil(n / 3), padding included, and a terminator; no write is outside the buffer |
| Base64.DecodeEncode | src/network/network.c:124-177 | The decoder of that section undoes it |
| Base64.Quantum | src/network/network.c:151-158 | The four sextets taken from three octets by shifts and masks are the next 24 bits in order |
| Base64.Padding | src/network/network.c:159-169 | Overwriting one or two of the last characters with `=` hits exactly those that stand for no input |

## Left out

- LoweringTheorems.LoweringPreservesMeaning: for well-scoped programs: operands, conditions, the branches of an `if` with `else`, and initialisers are value nodes, `var` is a statement or the root, and names are bound in their own block. Outside that the code has no useful meaning: INVALID variables are used as indices.
- CompilerTheorem.CompilationPreservesMeaning: programs whose ifs have an else, since an assembler refuses the labels of the others, and whose calls have at most six arguments. A division that faults is excluded by its trace; `FaultsIffBadDivision` says what happens then. The machine knows no stack pointer, call frames, red zone or instruction encodings (what a call pushes is not modelled, so neither is a return to it), and allows memory-to-memory forms and a call to any name, which an assembler would refuse for operators.
- CompilerTheorem.FaultsIffBadDivision: for programs in which names start with letters, as they do in any text: no function is called `/` or `%`.
- Intrinsics.BinaryIntrinsicIff: the sequence alone, before the external call that follows it, and as if the `setcc` line ended where it should.
- Intrinsics.SequenceIsStep: one step; whole runs of a code generator that does not fall through are not the code's.
- FrontEnd.CaborCompile: operands without a variable are looked for before code is generated, where the code stops at the first; the checks on indices are there in debug builds only. The printed lines around the code are left out.
- Parser.Parse: everything the code does on malformed input (a null node, a failed assertion, an exit, a missing return, endless recursion at the end of input, more than 10 edges) is one failure, after which nothing is said about nodes left allocated. Addresses are numbered in the order of allocation.
- ParserSound.PrecedenceSound: operators, operands and parentheses; not calls, blocks and keyword forms.
- TypeChecker.SymbolScope.Typecheck: gives the annotated tree as a result instead of writing the nodes; the scopes are finite maps.
- CheckerAgreement.CheckerDecides: programs without calls, which the checker always leaves untyped.
- IrGenerator.IrData.CreateIrCall: a pointer into memory the vector has left is followed to the vector's new memory; the code reads what is freed. `GenerateIr` says for which programs there are such pointers.
- IrGenerator.IrData.RequireIrVar: scopes are finite maps, as intended; the NULL dereference of `HashMap.Get` is not carried into the generator. An operator's entry is looked up by name where the code keeps a pointer to it.
- Tokenizer.CaborTokenize: the character read past the end of the text, after a dropped run such as `or=`, gives a failure; the code would look at whatever byte is there. The text is any sequence of characters.
- HashMap.HashMap.Insert: values are unbounded integers; copying keys and freeing the map are left out.
- NodeList.ListNodes: a tree is a value whose nodes carry addresses; the writes past the array after an overflow are not followed.
- Runtime.PrintInt: the write succeeds; bytes are characters and the stack is a map of addresses.
- Runtime.ReadInt: the register it restores wrongly on return (`src/language/preamble.h:136`), and its error message, are left out.
- Base64.ConvertToBase64: the allocation succeeds; shifts and masks of disjoint bits are written as arithmetic.
- The operators `=`, `and` and `or` are ordinary strict calls, as in the code; assignment and short-circuit evaluation are not modelled because they are not there.
- `print_bool`, which only picks one of two fixed texts.
- Limits on the length of names and labels in the IR, which tokens of fewer than 64 characters do not reach, and the type map, whose names, by then only the two print functions, are copied to the root scope (`src/language/ir.c:277-285`) and which is not read afterwards.
- More than two arguments overflow an array of operand texts before an intrinsic is chosen (`src/language/codegen.c:216-249`); the model leaves an operand that is not passed unset.
- The prologue and epilogue lines written around the generated code, files, the assembler and the linker.
- The server, JSON, timeouts, logging, mutexes, argument parsing and debug text.
