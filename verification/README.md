# enumc: verified model of the code generator, the layouts and the front-end algorithms

enumc compiles a small C-like language to x86-64 assembly. This project models the parts of the
compiler that transform programs or lay out memory, and proves what they do:

- **Code generation** (`AsmSpec`, `CodeGen`, `Machine`, `ExprProof`, `StmtProof`, `FuncProof`, `KnownLimits`,
  `Shifts`, `Truthiness`).
  The generator is a class that appends to an instruction buffer, takes registers and names stack slots;
  each method is proved to do what a function of the generator's state says. A machine with registers,
  flags, memory, labels and a program counter runs the instructions. The main result is compiler correctness
  in both directions: a call of a compiled function ends exactly when the source function does, with the same
  value and the stack given back.
- **Resources of the generator**: the length of code and the labels that it defines, read off the source, and
  from them when the labels of a whole program are unique (`CodePlan`, `PlanProof`, `LabelMarks`, `ProgramMarks`,
  `ArmLabels`, and for matches without conditionals `Labels`, `MatchLabels`, `LabelProof`); how many registers a
  function needs, exactly (`RegisterBudget`); which registers survive an expression, and what that means for
  assignments to elements (`UsedRegs`, `ElementProof`, `Writes`); the stack pointer after declarations anywhere, and
  the variables that are lost when it is out of step (`FrameCount`, `FrameRuns`, `Lagging`, `LetLoops`,
  `Redeclared`); literals that an instruction cannot hold (`WideLiterals`); and for statements of every kind when
  they compile at all (`Compiles`).
- **Constant folding** (`ConstFold`, `EndToEnd`, `Lowering`), composed with code generation, and the laws of the
  arithmetic that it shares with the meaning of expressions (`ValueLaws`).
- **Layout** (`Layout`, `FrameProof`, `StructProof`, `EnumProof`, `MatchProof`). Sizes, room on the stack,
  struct and enum initialisers, field addresses and `match`, run on the same machine: what one walk over a
  type stores, another walk reads.
- **The operator-precedence parser** (`Precedence`, `ExprParser`), with the exact condition under which
  its tree is the one that precedence and left associativity prescribe.
- **Generic types** (`Generics`, `TypeArgs`, `ParamIter`): substitution, matching, the inference of a
  struct's type arguments with the exact condition under which its sorting loop is right, and the
  breadth-first iterator over dependents.
- **Lexer and base structures** (`Lexer`, `TokenShapes`, `Numbers`, `RawStrings`, `Comments`, `TokenCursor`, `RawVec`,
  `Interner`, `Keywords`): every input is cut into tokens in exactly one way.

Conventions. Registers are taken from a hash set whose iteration order is unknown: every definition has
the order as a parameter and every theorem holds for all orders. Panics, `unwrap` of nothing and `todo!`
are results (`Panic`, `None`), not preconditions, except where "Left out" says so. `checked` chooses
between a build with overflow checks and one without. Machine words are 64 bits and wrap. Names are
numbers.

Some properties that one would expect of the code do not hold; the model keeps the code as it is, and a
lemma says for all inputs when it is right:

| what can go wrong | exactly when it is right | an input |
|---|---|---|
| an ordering with a literal on its left is emitted the other way round | `KnownLimits.ComparisonRightExactly` | |
| a literal that the instruction cannot hold | `WideLiterals.LiteralsRunExactly`, `KnownLimits.LiteralStoredExactly` | |
| a right shift of a negative number | `Shifts.RightShiftExactly` | |
| a shift with a literal on its left, or by a computed amount | `Shifts.ShiftRunsExactly`, `Shifts.OneShiftedExactly` | |
| `!`, `&&` and `\|\|` on integers | `Truthiness.NotIntegerExactly`, `AndIntegersExactly`, `OrIntegersExactly` | |
| registers run out, because `!` in a condition gives none back | `RegisterBudget.FunctionCompilesExactly` | `RegisterBudget.NegatedTestsLeak` |
| a register in use is overwritten under `!` | `UsedRegs.KeptExactly`, `ElementProof.SetItemRightExactly`, `FreshItemLostExactly` | `UsedRegs.NegatedAndLosesRegister` |
| a statement does not compile | `Compiles.StmtUsed`, `Compiles.ProgramUsed` | |
| a `let` in a branch or loop is counted but not pushed, and a later one erases a variable | `FrameRuns.IfInStepExactly`, `LoopInStepExactly`, `BlockInStepExactly`; `Lagging.LetLagging`, `LetLoops.LetLoopRuns` | `KnownLimits.LetInBranchLosesValue` |
| conditionals in different arms of a `match` define the same label | `ProgramMarks.ProgramUniqueExactly`, `ArmLabels.MatchUniqueExactly`, `SettledUniqueExactly` | `ArmLabels.ConditionalsClash`, `ArmLabels.OrderDecides` |
| a second `let` of a name starting with `_` reads its new slot | `Redeclared.LetAgainRuns` | |
| no arm of a `match` is for the tag | `MatchProof.MatchReaches` | |
| a payload item that is no word, or a bare variable | `EnumProof.BindingsRightExactly`, `EnumProof.EnumRunsExactly` | |
| struct fields written out of order | `Layout.StoredWhereRead` | |
| enums without variants are counted but not pushed | `Layout.PushedBytes`, `FrameProof.AllocAllRuns` | |
| a constant expression without a value panics | `ConstFold.LowerPanicsExactly` | |
| operators are grouped against precedence, and a trailing one is dropped | `ExprParser.MakeExpr` | `ExprParser.SumAfterComparison` |
| type arguments replaced one after the other | `Generics.SimultaneousExactly` | `Generics.SwapIsNotSimultaneous` |
| inferred type arguments come out in the wrong order | `TypeArgs.SortsExactly` | `TypeArgs.OrderedInputStaysOrdered` |

## Model

| member | source | states |
|---|---|---|
| FuncProof.CompilerCorrect | src/gen/asm.rs:2151-2197 | For every program that compiles and whose labels, read off the source, are different, every covered function in it, all arguments, every register order and any fuel: the machine run from the function's label matches the source run. A normal return leaves the value in RAX, restores RSP and RBP and keeps the caller's stack; running out of fuel is matched by at least as many machine steps |
| FuncProof.EndsTogether | src/gen/asm.rs:1522-1960 | The machine halts on a compiled call if and only if the source function terminates, so neither loops are cut short nor endless runs invented |
| FuncProof.ReturnsSourceValue | src/gen/asm.rs:1872-1916 | If the source returns a value, every halting machine run of the call leaves exactly its encoding in RAX |
| FuncProof.FuncRuns | src/gen/asm.rs:2151-2197 | Prologue, pushed parameters, body and epilogue together simulate the source function, for `main` and for other functions |
| FuncProof.ParamsRun | src/gen/asm.rs:832-863 | Pushing the argument registers in order makes each parameter a variable with the argument's value |
| FuncProof.LetRuns | src/gen/asm.rs:1528-1533 | A top-level `let` pushes a slot, evaluates in the old scope and leaves the new variable with the initialiser's value while all others keep theirs |
| FuncProof.BodyRuns | src/gen/asm.rs:1522-1960 | A body of declarations and statements simulates its source run; RSP stays the current frame size below RBP throughout |
| ExprProof.BuildValueComputes | src/gen/asm.rs:915-1290 | For every well-typed expression that compiles the code never gets stuck, writes no memory and leaves in the returned location the value of the expression as emitted; without permission to give registers back it also keeps every register that was in use |
| UsedRegs.UsedKept | src/gen/asm.rs:968-1016 | With permission to give registers back, an expression in which no `!` stands above a binary operation still keeps every register in use, for every order, every set of used registers and every state, and its result is in none of them |
| UsedRegs.KeptExactly | src/gen/asm.rs:302-324 | With permission to give registers back, for every order, every set of registers in use and every one of them: an expression keeps it if and only if it is none of the 2nd, 4th, … registers of the order, one for each `!` above the binary operation, passing over that operation's own; otherwise it ends up holding a truth value |
| UsedRegs.NegatedAndLosesRegister | src/gen/asm.rs:968-1016 | An input: `!(p && q)` while RCX is in use, with the order RAX, RDX, RCX, RBX, puts its result into RCX |
| UsedRegs.SameCode | src/gen/asm.rs:302-324 | Without a `!` above a binary operation the permission changes neither the code nor the location of the result |
| ElementProof.SetItemRuns | src/gen/asm.rs:1528-1537 | `name[index] = value` with any index expression, any registers in use and any order, when the negations of the value do not overwrite the register of the address: the element gets the value, no other cell changes and both stack registers stay |
| ElementProof.SetItemRightExactly | src/gen/asm.rs:1724-1745 | For any index expression, any registers in use and any order the value arrives in the element, and nowhere else, if and only if the number of registers before that of the address in the order is even or at least twice the number of `!` above the value's binary operation |
| ElementProof.FreshItemLostExactly | src/gen/asm.rs:407-535 | When no register is in use before it the order does not matter: the address is lost if and only if the index takes an even number of registers and the value has more than half as many `!` above its binary operation |
| ElementProof.StoreThroughRuns | src/gen/asm.rs:1528-1537 | A value built after the address of its target arrives there and nowhere else |
| ElementProof.SetFieldRuns | src/gen/asm.rs:865-913 | `name.path = value` stores the value at the leaf's own place in the struct and changes no other cell; only elements of array fields need the condition on the address |
| ElementProof.SetFieldRightExactly | src/gen/asm.rs:865-913 | The same with the exact condition: the value arrives at the leaf, and nowhere else, if and only if the address is not lost |
| Writes.ExprWrites | src/gen/asm.rs:915-1290 | The code of an expression writes registers other than the stack and frame pointer and nothing else |
| ExprProof.NothingFlipped | src/gen/asm/inst.rs:394-454 | What is emitted has the source's meaning when no ordering has a literal on its left |
| ExprProof.CombineRuns | src/gen/asm.rs:1135-1288 | Ordering the operands, loading the right one and operating computes the operation's word for every mix of literals, slots and registers |
| ExprProof.CmpRuns | src/gen/asm/inst.rs:394-454 | The compare-and-set sequence leaves one or zero as the signed comparison says, whichever operand had to be loaded |
| ExprProof.BinWordIsValue | src/lir/const_fold.rs:156-213 | The word that an instruction computes encodes the value that the evaluator gives, on integers and on booleans |
| Shifts.ShiftRuns | src/gen/asm/inst.rs:388-391 | A shift of covered operands, one of them a literal from 0 to 255: the code leaves the other operand shifted by the literal, for every order and any registers in use |
| Shifts.ShiftRunsExactly | src/gen/asm.rs:365-404 | The code of a shift can be run if and only if one operand is a literal that can be a count |
| Shifts.RightShiftExactly | src/lir/lower.rs:178-196 | `x >> k`: the code leaves the value of the source, which keeps the sign, if and only if `x` is not negative or `k` is zero modulo 64 |
| Shifts.OneShiftedExactly | src/gen/asm.rs:365-404 | `1 << x` is emitted as `x << 1`, and right if and only if `x`, apart from its highest bit, is 1 or 2 |
| Truthiness.NotIntegerExactly | src/gen/asm.rs:968-1016 | `!x` on an integer compares with one: right if and only if `x` is 0 or 1 |
| Truthiness.AndIntegersExactly | src/lir/lower.rs:178-196 | `a && b` on integers combines bits: right if and only if one of them is 0 or they share the lowest bit and no other |
| Truthiness.OrIntegersExactly | src/lir/lower.rs:178-196 | `a \|\| b` on integers: right if and only if both are 0 or 1 |
| Truthiness.EndlessExactly | src/gen/asm.rs:1819-1845 | A loop is taken to be endless exactly when its condition is a literal stored as a positive number |
| StmtProof.StmtRuns | src/gen/asm.rs:1522-1960 | Every statement without declarations, nested conditionals and loops included, simulates its source run from any related state |
| StmtProof.LoopRuns | src/gen/asm.rs:1819-1845 | Jumping to the test first and back to the body while it holds is the source's loop, for as many rounds as it takes |
| StmtProof.IfRuns | src/gen/asm.rs:1787-1818 | Test, two branches and the join labels run exactly the branch that the condition chooses |
| StmtProof.StoreUpdates | src/gen/asm.rs:1744-1775 | Storing to a variable's slot changes that variable and no other, and nothing in the caller's stack |
| LabelProof.ProgramSound | src/gen/asm.rs:1787-1870 | In the buffer of a whole program, `match` statements included, every label is defined at most once, across functions, and every jump target is defined, as long as the arms of each `match` hold no conditional, loop or further `match` |
| LabelProof.StmtSound | src/gen/asm.rs:1787-1870 | A statement's labels are numbered by its own buffer positions and its jumps stay inside it |
| ProgramMarks.ProgramUniqueExactly | src/gen/asm.rs:1787-1990 | For every program that compiles, whatever stands in the arms of its matches: each jump goes to a label that is defined, and no label is defined twice if and only if the labels read off the source are different |
| ProgramMarks.BlockUniqueExactly | src/gen/asm.rs:1787-1990 | The same for any block, nested matches included; the labels that its code defines are exactly those read off the source |
| ProgramMarks.FlatIsUnique | src/gen/asm.rs:1787-1870 | They are different whenever functions have different names and no arm holds a conditional, a loop or a further match |
| LabelMarks.StmtPlanned | src/gen/asm.rs:1522-1990 | The length of any statement's code, the labels it defines in their order, and the slots known behind it are those of its plan, for every order and any registers in use; registers decide only whether a move is left out |
| PlanProof.SimplePlanned | src/gen/asm.rs:1522-1777 | The length of the code of every statement without control flow, and the slots known behind it |
| CodePlan.ExprPlanned | src/gen/asm.rs:915-1290 | The length of an expression's code and the kind of place of its value, read off the expression, for every order and any registers in use |
| RegisterBudget.ExprCompilesExactly | src/gen/asm.rs:283-324 | For every order of the register set and every set of used registers, an expression compiles if and only if its peak, read off the expression, is at most 14; the number of registers left in use is exactly the one read off |
| RegisterBudget.BudgetSuffices | src/gen/asm.rs:283-324 | A simple bound: one register per arithmetic operator, three per comparison and two per `!`; an expression compiles whenever that many are free, in any order |
| RegisterBudget.FunctionCompilesExactly | src/gen/asm.rs:2151-2197 | A covered function compiles if and only if it never needs more than 14 registers at a time, for every order, and leaves none in use |
| RegisterBudget.ProgramCompilesExactly | src/gen/asm.rs:2151-2197 | A program of covered functions compiles if and only if each of them stays within 14 registers |
| Compiles.StmtUsed | src/gen/asm.rs:1522-1990 | A statement of any kind, aggregates and nested matches included, with covered expressions: it compiles, for every order and any registers in use, if and only if its names are known, its fields, payloads and patterns lie in their slots and its registers suffice, all read off the source; and the registers and names behind it are those read off |
| Compiles.ProgramUsed | src/gen/asm.rs:2151-2197 | The same for functions with their parameters and for whole programs |
| Compiles.FieldAddressExactly | src/gen/asm.rs:2199-2258 | The address of a field compiles if and only if every name on the way is known, the field lies inside the slot and its index has the registers that it takes; it is as far from the slot's end as the layout says |
| Compiles.BindExactly | src/gen/asm.rs:1963-1990 | The names of a pattern are bound if and only if its items lie in the slot |
| Compiles.TagExactly | src/gen/asm.rs:1409-1462 | A variant's tag is the number of the first variant of its name |
| RegisterBudget.FunctionCompiles | src/gen/asm.rs:2151-2197 | A function whose expressions cost at most 13 and whose conditions and returned values are no negations compiles in any order: a corollary of the exact condition |
| RegisterBudget.NegatedTestsLeak | src/gen/asm.rs:1787-1818 | A row of `if (!p)` compiles if and only if it has at most seven: `!` takes two registers that no statement gives back |
| KnownLimits.ComparisonRightExactly | src/gen/asm/inst.rs:394-454 | Run the code of a comparison with a literal on the left and any covered right operand: the result location holds the value of the comparison if and only if the operator is no ordering or the operand's value equals the literal |
| KnownLimits.IntegersCompareNothing | src/gen/asm/inst.rs:394-454 | Integer expressions hold no comparison, so for them the condition on literals always holds |
| KnownLimits.LiteralStoredExactly | src/gen/asm.rs:1768-1777 | The instruction that stores a literal in a variable can be run if and only if the literal fits into a signed 32-bit immediate |
| WideLiterals.LiteralsRunExactly | src/gen/asm.rs:1135-1288 | The code of an expression with literals of any size can be run, for every order and any registers in use, if and only if every literal operand fits into a signed 32-bit immediate, apart from one from which something is subtracted, which is loaded first |
| KnownLimits.LetInBranchLosesValue | src/gen/asm.rs:820-830 | An input for the lemmas below: with a `let` in a branch that is not taken the source returns one value and the machine another |
| FrameRuns.BlockInStepExactly | src/gen/asm.rs:820-830 | Any block, declarations at any depth: after a run of its code from start to end RSP lags by the bytes that the block declares and for which the run made no room; so it is `current_stack` below RBP if and only if there are none. RBP stays |
| FrameRuns.StmtInStepExactly | src/gen/asm.rs:820-830 | The same for one statement of any kind |
| FrameRuns.IfInStepExactly | src/gen/asm.rs:1787-1818 | After a conditional RSP lags by the bytes of the branch that was not taken, and 8 for each enum without variants in the other one; it is where the generator takes it to be if and only if there are none |
| FrameRuns.LoopInStepExactly | src/gen/asm.rs:1819-1845 | After a loop RSP lags by what the body declares less what each round pushed; without enums that have no variants it is where the generator takes it to be if and only if the body declares nothing or ran exactly once |
| LetLoops.LetLoopRuns | src/gen/asm.rs:1819-1845 | A loop whose body declares variables matches its source run for any number of rounds, values included, although each round pushes the variables again; behind it RSP lags by the declared bytes less those of the source's rounds, so it is in its place if and only if the source ran one round, and a later push can erase a variable if and only if it ran none |
| LetLoops.BodyOnceMore | src/gen/asm.rs:820-830 | In a later round the body finds its variables in their old slots and matches the source although RSP is lower than the generator takes it to be |
| Lagging.LetLagging | src/gen/asm.rs:820-830 | A `let` with RSP any amount above or below its place does what the source does in the environment where the variable whose slot the push hits is null; no other variable changes, and with RSP in its place or below it none is lost |
| Redeclared.LetAgainRuns | src/gen/asm.rs:1528-1537 | A second `let` of a name gives the new variable the value of the initialiser with the name read as null, which is the source's value when the initialiser does not mention the name; other variables keep theirs |
| FrameCount.StmtAccounted | src/gen/asm.rs:777-818 | The code of any statement holds instructions that lower RSP by exactly the bytes that its declarations push, and both of the generator's counters grow by the bytes that they take |
| ConstFold.LowerPreservesMeaning | src/lir/lower.rs:467-470 | The lowered expression has the value of the original in every environment, undefined values included, with and without overflow checks |
| ConstFold.FoldPreservesMeaning | src/lir/const_fold.rs:11-104 | Folding one node over folded children keeps its value in every environment |
| ConstFold.LowerReachesNormalForm | src/lir/const_fold.rs:26-69 | After lowering no operator has only literals under it and no literal is in parentheses |
| ConstFold.NormalFormIsFixed | src/lir/const_fold.rs:26-69 | Folding and lowering an expression in normal form change nothing |
| ConstFold.LowerKeepsTypes | src/lir/const_fold.rs:106-118 | Lowering a well-typed expression gives a well-typed expression of the same type |
| ConstFold.LowerPanicsExactly | src/lir/const_fold.rs:121-180 | Lowering panics if and only if some closed subexpression has no value, such as a constant division by zero |
| ConstFold.ClosedLowersToLiteral | src/lir/const_fold.rs:106-118 | An expression without variables lowers to the literal of its value |
| ValueLaws.DivisionFolds | src/lir/const_fold.rs:156-180 | Literals are divided if and only if there are words `q` and `r` with `a == b * q + r`, `r` smaller than `b` and zero or of the sign of `a`; and then these are the results |
| ValueLaws.DivisionIsUnique | src/lir/const_fold.rs:156-180 | There is at most one such quotient and remainder |
| ValueLaws.ShiftFolds | src/lir/const_fold.rs:156-180 | Shifts multiply by, or divide rounding down by, the power of two of the count modulo 64; a build with overflow checks refuses exactly the counts outside 0 to 63 |
| ValueLaws.BitwiseFolds | src/lir/const_fold.rs:156-180 | Each bit of `&`, `\|`, `^` and `~` comes from the bits at its place |
| ValueLaws.LogicFolds | src/lir/const_fold.rs:156-180 | On integers `&&`, `\|\|` and `!` are those of truth, and only zero is false |
| ValueLaws.OverflowExactly | src/lir/const_fold.rs:156-180 | A build with overflow checks refuses `+`, `-` and `*` exactly when the result is no word; without them the result is taken modulo 2 to the power of 64 |
| EndToEnd.LowerAgrees | src/lir/const_fold.rs:156-213 | A compiler built with overflow checks either panics on an expression or folds it exactly as one built without |
| EndToEnd.LowerStmtPreserves | src/lir/lower.rs:1038-1165 | A lowered statement has the same runs as the statement |
| Lowering.StmtReplaced | src/lir/lower.rs:1038-1165 | Lowering a statement of any kind, aggregates and matches included, panics exactly when lowering one of its expressions does; otherwise each expression is replaced, where it stands, by its lowered form and nothing else changes |
| EndToEnd.AssignOpRuns | src/lir/lower.rs:1147-1158 | A compound assignment, which lowers to an assignment of an unfolded operation, reads the variable, evaluates the right side and stores what the operator makes of the two; it has no outcome exactly when one of these has no value |
| EndToEnd.SupportedExactly | src/lir/lower.rs:467-470 | The lowered expression is one that code generation covers if and only if a condition on the expression as written holds |
| EndToEnd.LoweredAndCompiled | src/lir/lower.rs:1273-1283 | Folding followed by code generation is correct, with all conditions on the source function: the machine run of the lowered and compiled call matches the run of the function as written |
| CodeGenerator.Compile | src/gen/asm.rs:2151-2197 | Running the generator object over all functions produces exactly the specified program, or the specified panic |
| CodeGenerator.CodeGen.BuildValue | src/gen/asm.rs:915-1290 | The method appends exactly the specified code, takes exactly the specified registers and changes nothing else |
| CodeGenerator.CodeGen.FreeReg | src/gen/asm.rs:283-300 | The first free register of the set's order, or a panic when all are in use |
| CodeGenerator.CodeGen.OrderOperands | src/gen/asm.rs:365-404 | The operand order and the load of a literal that the specification gives |
| CodeGenerator.CodeGen.FromBinopCmp | src/gen/asm/inst.rs:394-454 | The comparison sequence and the registers that the specification gives |
| CodeGenerator.CodeGen.GenStatement | src/gen/asm.rs:1522-1960 | A statement's code, aggregates and `match` included, with labels numbered by the buffer length, and the generator's state after it |
| CodeGenerator.CodeGen.GenIf | src/gen/asm.rs:1787-1818 | Test, branches and labels of a conditional in the specified order |
| CodeGenerator.CodeGen.GenWhile | src/gen/asm.rs:1819-1845 | Body and test of a loop in the specified order |
| CodeGenerator.CodeGen.VisitFunc | src/gen/asm.rs:2151-2197 | A function's code, and the counters reset behind it |
| CodeGenerator.CodeGen.PushStack | src/gen/asm.rs:777-818 | The loops over fields and variants emit exactly the specified room for any type |
| CodeGenerator.CodeGen.AllocStack | src/gen/asm.rs:820-830 | Room for the type, both counters advanced by its size, and the name bound to the new top |
| CodeGenerator.CodeGen.Declare | src/gen/asm.rs:1524-1527 | A run of declarations allocates them one after the other |
| CodeGenerator.CodeGen.InitStruct | src/gen/asm.rs:1351-1408 | The loop with its running offset stores the flattened expressions as specified and gives each scratch register back |
| CodeGenerator.CodeGen.InitEnum | src/gen/asm.rs:1409-1462 | The tag at the slot's start and each item further on by the sizes of the items so far |
| CodeGenerator.CodeGen.StoreElement | src/gen/asm.rs:1724-1745 | The move through the register of the address, or nothing when the value is in that register |
| CodeGenerator.CodeGen.GenSetItem | src/gen/asm.rs:1528-1537 | Address, value and move of an assignment to an element, in this order |
| CodeGenerator.CodeGen.GenSetField | src/gen/asm.rs:1528-1537 | Address, value and move of an assignment to a field |
| CodeGenerator.CodeGen.FieldAddress | src/gen/asm.rs:2199-2258 | The loop over fields with its running count ends at the first field of that name, at every level, or fails when there is none |
| CodeGenerator.CodeGen.IndexArr | src/gen/asm.rs:407-480 | The address code for literal and computed indices |
| CodeGenerator.CodeGen.GenMatchArm | src/gen/asm.rs:1963-2014 | The comparison, the label for the arm's own stream and the names bound to payload slots |
| CodeGenerator.CodeGen.GenMatch | src/gen/asm.rs:1846-1870 | Swapping the buffer for each arm and joining the streams gives the comparisons, then the blocks, then the end label |
| Layout.PushedBytes | src/gen/asm.rs:777-818 | `push_stack` takes the type's size less 8 bytes for every enum without variants; so exactly the size if and only if there is none |
| Layout.LargestIsSize | src/lir/lower.rs:795-821 | The running maximum over variants with the tag added equals tag plus largest payload |
| Layout.SlotsCover | src/gen/asm.rs:820-830 | A byte is in the new part of the frame if and only if it is in some variable's slot |
| Layout.SlotsDisjoint | src/gen/asm.rs:820-830 | No byte is in two variables' slots |
| Layout.LeafAt | src/gen/asm.rs:2207-2219 | Walking names and sizes finds the leaf that is number `i` in declaration order at `8 * i` |
| Layout.LeafListed | src/gen/asm.rs:2242-2254 | Every leaf path, whatever the nesting, is in that list at the place its offset says |
| Layout.LeavesDisjoint | src/gen/asm.rs:2199-2258 | Different leaf paths have different words, all inside the struct |
| Layout.InOrderPaths | src/gen/asm.rs:1352-1365 | An initialiser written in declaration order at every level flattens to the leaves in their order |
| Layout.StoredWhereRead | src/gen/asm.rs:1366-1395 | Every expression is stored where its leaf is read if and only if the flattened initialiser lists the leaves in their order |
| FrameProof.PushCodeRuns | src/gen/asm.rs:777-818 | The code for any type lowers RSP by exactly the bytes counted, touches no other register and no cell in use |
| FrameProof.AllocAllRuns | src/gen/asm.rs:820-830 | After any list of declarations RSP is `current_stack` below RBP if and only if no enum without variants was declared |
| FrameProof.SlotsNamed | src/gen/asm.rs:826-829 | Every declared name is bound to the top of its own slot |
| FrameProof.FrameTiles | src/gen/asm.rs:820-830 | The slots tile the frame: each byte belongs to exactly one variable and none reaches outside |
| FrameProof.AllocRuns | src/gen/asm.rs:820-830 | A declaration of any type keeps every source variable, the frame relation and the caller's stack |
| StructProof.LetStructRuns | src/gen/asm.rs:1351-1408 | Running a struct declaration with arbitrary scalar expressions leaves the value of expression `i` in word `i` of the struct and every variable as it was |
| StructProof.FieldAddressRuns | src/gen/asm.rs:2199-2258 | The code for a field path, with literal or computed indices, computes the struct's start plus the leaf's offset and changes no memory |
| StructProof.ElementAddressRuns | src/gen/asm.rs:407-470 | The address of an element of an array field, whatever its elements are, is as many elements further as the index says |
| StructProof.FieldCompilesExactly | src/gen/asm.rs:2199-2258 | For every access that resolves to a leaf inside the slot the address compiles, for every order, if and only if there are registers for its index and two more |
| StructProof.LetStructCompilesExactly | src/gen/asm.rs:1351-1408 | A struct initialiser that fits compiles, for every order, if and only if there are registers for its leaves |
| StructProof.StructRoundTrip | src/gen/asm.rs:1351-1408 | If there are registers for the expressions, a struct initialiser and the address of any of its leaves compile, and when both have run there is in memory, at the address, the value written for the leaf |
| EnumProof.LetEnumRuns | src/gen/asm.rs:1409-1462 | Running an enum declaration whose items are words, none of them a bare variable, leaves the variant's number and each item's value in the enum's slot and every variable as it was |
| EnumProof.LetEnumCompilesExactly | src/gen/asm.rs:1409-1462 | An enum initialiser compiles, for every order, if and only if there are registers for its items |
| EnumProof.EnumRunsExactly | src/gen/asm.rs:1439-1455 | The emitted code can be run if and only if every payload item is a scalar and none is a bare variable, which would be a move from memory to memory |
| EnumProof.PayloadFits | src/lir/lower.rs:800-810 | Tag and payload of any variant, whatever the sizes of its items, lie inside the enum's size |
| EnumProof.PayloadFills | src/lir/lower.rs:800-810 | Some variant fills its enum's slot to the last byte |
| MatchProof.MatchReaches | src/gen/asm.rs:1846-1870 | Control reaches the block of the first arm for the stored tag; without such an arm it falls into the first arm's block; registers and memory stay |
| MatchProof.MatchRuns | src/gen/asm.rs:1846-1870 | The chosen block, conditionals and loops included, runs as the source says, in the environment extended by the payload, and control goes on behind the match |
| MatchProof.InitThenMatch | src/gen/asm.rs:1409-1462 | Build a variant and match on it: if some arm is for it, the first such arm runs with its names standing for the items that were stored |
| EnumProof.BindingsRightExactly | src/gen/asm.rs:1999-2014 | A declaration and a pattern for the same variant: every name of the pattern is bound to the location to which the emitted code moves its item if and only if every item has 8 bytes |
| EnumProof.BindSlots | src/gen/asm.rs:1999-2014 | The name for item `k` is bound to the word `k + 1` places behind the tag |
| MatchLabels.MatchSound | src/gen/asm.rs:1846-1990 | A match whose arms hold no conditional has unique labels, numbered by its own positions, and all its jumps stay inside |
| ArmLabels.MatchUniqueExactly | src/gen/asm.rs:1846-1990 | A match whose arms hold conditionals and loops but no further match, for any order and any registers in use: its jumps stay inside, and its labels are unique if and only if the labels of the arms' blocks, computed from the source alone and the omitted moves, have none in common |
| ArmLabels.SettledUniqueExactly | src/gen/asm.rs:1846-1990 | When no arm returns a computed value or stores one that may overwrite its address, that condition is about the source and the slots of the variables alone, the same for every order of the registers |
| ArmLabels.OrderDecides | src/gen/asm.rs:1872-1913 | An input on which the register order decides: two arms whose labels are unique if and only if the first register of the order is not RAX |
| ArmLabels.OneBusyArm | src/gen/asm.rs:1846-1990 | With conditionals and loops in at most one arm the labels are unique: a corollary |
| ArmLabels.ConditionalsClash | src/gen/asm.rs:1853-1863 | Two arms whose blocks start with a test of a variable, whatever the patterns, the branches and the rest of the blocks, define the same label, because each block is numbered in a buffer of its own: a corollary |
| Precedence.TablesAgree | src/ast/parse/ops.rs:52-180 | In the tree an operator keeps the spelling and the precedence that it has for the parser, and all operators but the assignments, which are the right-associative ones, become tree nodes |
| Precedence.WrittenApart | src/ast/types.rs:100-147 | No two operators are written alike |
| Precedence.LevelsAgree | src/ast/parse/ops.rs:99-117 | How tightly an operator binds is the level on which its spelling is listed |
| Precedence.RespectingTreeIsUnique | src/ast/parse/ops.rs:110-135 | At most one tree over given operands and operators respects precedence and left associativity |
| Precedence.ReferenceRespects | src/ast/parse/ops.rs:110-135 | Splitting at the last loosest operator gives that tree |
| ExprParser.MakeExpr | src/ast/parse.rs:773-868 | For every sequence of operands and operators: the operands and the spellings of the operators in the tree are, from left to right, those that were read, and it is the prescribed one if and only if the first operators of the maximal rising precedence runs never rise; assignment operators end in a panic; a trailing operator is dropped, with everything but the last operand if it binds tighter than the one before |
| ExprParser.ReduceLeft | src/ast/parse.rs:794-815 | The inner loop pops exactly the pending left-associative operators and nests their operands to the right |
| ExprParser.Finish | src/ast/parse.rs:834-864 | The final loop reduces everything from the right, and fails on an operator without a tree form |
| ExprParser.StackedStep | src/ast/parse.rs:781-829 | The loop's invariant: as many trees as operators, precedences on the stack strictly rising, atoms above the bottom, and the bottom tree right exactly when the run heads so far never rise |
| ExprParser.SumAfterComparison | src/ast/parse.rs:781-829 | `a == b * c + d` is an input on which the condition fails |
| Generics.PeelInvertsApply | src/typeck/infer.rs:747-762 | Matching any instance of a type against the type finds its first parameter and exactly what the substitution gave it |
| Generics.NothingToPeel | src/typeck/infer.rs:747-762 | Matching against a type without parameters finds nothing |
| Generics.ReportedExactly | src/ast/types.rs:437-452 | A type without parameters is asked for parameters all the same exactly when, under arrays and pointers, it is a struct or enum with type arguments |
| Generics.FoundBeside | src/typeck/infer.rs:747-762 | What matching finds stands beside a parameter of the pattern, at a place up to which both types are built alike, names included |
| Generics.NothingBeside | src/typeck/infer.rs:747-762 | Matching fails only if nothing stands beside any parameter |
| Generics.SubsTypeArgs | src/typeck.rs:1620-1627 | Parameters replaced one after the other, repeated ones included; nothing if and only if some parameter of the type has no type argument; the simultaneous substitution if and only if no type argument is changed by the parameters that are replaced after its own |
| Generics.InOrderIsChain | src/typeck.rs:1620-1627 | Replacing any list of parameters one after the other is one simultaneous substitution: each parameter by its type argument with the later ones replaced in it |
| Generics.SimultaneousExactly | src/typeck.rs:1620-1627 | For every type and substitution, one after the other equals all at once if and only if each type argument is unchanged by the replacements behind the first occurrence of its parameter |
| Generics.SimultaneousByMention | src/typeck.rs:1620-1627 | When no type argument is itself a parameter: if and only if no type argument mentions a parameter that is replaced after its own |
| Generics.InOrderIsApply | src/ast/types.rs:460-483 | Sequential substitution equals simultaneous substitution when no type argument mentions a parameter that is replaced later |
| Generics.GroundArgsLeaveNone | src/ast/types.rs:412-483 | With ground arguments for all parameters no parameter is left |
| Generics.SwapIsNotSimultaneous | src/typeck.rs:1620-1627 | An input: exchanging two parameters by their type arguments gives one of them twice |
| TypeArgs.InferAll | src/typeck/infer.rs:491-550 | For a call whose arguments are instances of the declared types under one substitution: an error if and only if something was found and a declared parameter was not; otherwise the type arguments come out in declared order if and only if they were found in one of the orders that the loop can sort, and each is the type that the substitution gives it |
| TypeArgs.InferTypeArgs | src/typeck/infer.rs:491-519 | The loop over fields collects each parameter once, first match first |
| TypeArgs.CollectsTheSubstitution | src/typeck/infer.rs:491-519 | When the fields are instances of their declared types under one substitution, what is collected is that substitution, and covers the first parameter of every field |
| TypeArgs.SortTypeArgs | src/typeck/infer.rs:672-679 | The loop only permutes what was collected, and fails if and only if a declared parameter was not collected |
| TypeArgs.CallTypeArgs | src/typeck/infer.rs:521-540 | At a call nothing is sorted and nothing reported when nothing was collected; otherwise as above |
| TypeArgs.SortsExactly | src/typeck/infer.rs:672-679 | The loop ends in declaration order if and only if the list, with the first parameter moved to the end, is the declaration order rotated by one |
| TypeArgs.OrderedInputStaysOrdered | src/typeck/infer.rs:672-679 | A list that is already in declaration order stays in order if and only if it has at most two parameters |
| ParamIter.GenericParamIter.Next | src/typeck/generic.rs:96-104 | Yields the next pending node; once nothing is pending it yields nothing for good |
| ParamIter.AllDependents | src/typeck/generic.rs:91-114 | Visiting all dependents lists the descendants in level order, each exactly as often as it occurs |
| ParamIter.PendingIsLevelOrder | src/typeck/generic.rs:96-104 | The refilled queue lists level by level |
| RawVecModel.RawVec.Push | src/data_struc/rawvec.rs:183-208 | Appends one element, keeps the others and the capacity and moving-cost invariants, and moves nothing while there is room |
| RawVecModel.RawVec.Pop | src/data_struc/rawvec.rs:210-220 | Takes the last element off, or nothing from an empty array |
| RawVecModel.RawVec.Remove | src/data_struc/rawvec.rs:222-251 | Takes one element out and closes the gap in order; an index out of range is a panic |
| RawVecModel.PushAll | src/data_struc/rawvec.rs:156-208 | `n` pushes on a new array hold the items in order, have moved fewer than `2 * n` elements and leave a capacity that is zero or a power of two of at least 4 |
| RawVecModel.NextAfterPow2 | src/data_struc/rawvec.rs:190-200 | From a full power-of-two capacity the next one is its double |
| Lexer.Cursor.RawStringUnvalidated | src/ast/lex.rs:629-692 | Succeeds exactly when some quote is followed by the opening number of hashes and stops behind the first such place; otherwise reports the longest run of hashes behind a quote and the first place where it occurs |
| Lexer.Cursor.RawDoubleQuotedString | src/ast/lex.rs:617-627 | The same, with more than 65535 opening hashes reported as an error after the string has been eaten |
| RawStrings.QuotedReadsBack | src/ast/lex.rs:660-682 | A quoted text is read back whole if and only if it holds no quote followed by the number of hashes |
| RawStrings.EndIsUnique | src/ast/lex.rs:660-682 | A raw string has at most one end |
| Lexer.Cursor.EatBlockComment | src/ast/lex.rs:424-459 | A block comment ends exactly where the nesting depth returns to zero for the first time, and is reported unterminated exactly when it never does |
| Comments.CloseIsUnique | src/ast/lex.rs:438-456 | There is at most one such place |
| Lexer.Cursor.EatDoubleQuoted | src/ast/lex.rs:598-614 | A string ends behind its first quote that is not escaped |
| Comments.EscapedReadsBack | src/ast/lex.rs:598-614 | Any text, once escaped, is closed by the quote put behind it and by no earlier one |
| Lexer.Cursor.AdvanceToken | src/ast/lex.rs:286-406 | Whatever the input, the next token takes at least one character and none past the end, and kind, details and length are those of `Shape`: runs are as long as they can be, comments, strings and characters end where they are closed for the first time or are unterminated, documentation comments are told by their marks, numbers have the base of their prefix, and only complete literals have a suffix |
| TokenShapes.ShapeIsUnique | src/ast/lex.rs:286-406 | An input has at most one token of its shape at its start, so kind, details and length are determined |
| TokenShapes.PunctPoints | src/ast/lex.rs:352-382 | The marks that are tokens of their own are the punctuation of ASCII but quotes, slashes, the underscore and the backtick |
| Lexer.Cursor.EatNumber | src/ast/lex.rs:474-541 | A number's base is the one that its prefix says, its digits are the longest runs, it is empty exactly when no digit follows the prefix, a float has a dot or an exponent, and a missing exponent is reported |
| Numbers.DecimalReadsBack | src/ast/lex.rs:474-541 | Digits and underscores that start with a digit are read back whole |
| Numbers.FloatReadsBack | src/ast/lex.rs:474-541 | And with a dot and more digits as a float |
| Lexer.Cursor.EatSingleQuoted | src/ast/lex.rs:555-595 | A character literal ends where it is closed or broken off |
| Comments.CharReadsBack | src/ast/lex.rs:555-595 | Any character between quotes is read back |
| Comments.SlashBreaksOff | src/ast/lex.rs:555-595 | A slash in a longer literal breaks it off |
| Lexer.Tokenize | src/ast/lex.rs:206-215 | Tokenizing ends, each token has its shape at the place where it stands, no token is empty and the texts of the tokens joined together are the input |
| Lexer.CutIsUnique | src/ast/lex.rs:206-215 | There is only one way to cut a whole input into tokens of their shapes |
| Lexer.TextsJoin | src/ast/lex.rs:206-215 | Texts cut one after the other by lengths that add up to the input join to the input |
| TokenCursor.AstBuilder.EatTkn | src/ast/parse.rs:2280-2284 | The parser moves by exactly one token, keeping position and stream in step, and panics exactly at the end mark |
| TokenCursor.AstBuilder.EatUntil | src/ast/parse.rs:2247-2251 | Stops at the first matching token; a panic means that none is left |
| TokenCursor.MatchesText | src/ast/parse.rs:2262-2277 | What a pattern matches is read off the text where the token stands |
| TokenCursor.AstBuilder.EatSeqIgnoreWs | src/ast/parse.rs:2227-2244 | Succeeds exactly when the kinds follow in order with at most one blank token before each, and has eaten them then |
| TokenCursor.OpIsWhole | src/ast/parse.rs:1135-1250 | What is eaten for an operator is how the operator is written, and no longer one was there; the parser cannot go on in exactly the cases named |
| TokenCursor.AstBuilder.MakeOp | src/ast/parse.rs:1135-1250 | Reads the operator at two tokens and moves behind it |
| TokenCursor.MarkIsText | src/ast/lex.rs:352-382 | What is read for a mark of one character is that character |
| TokenCursor.AstBuilder.InputCurr | src/ast/parse.rs:2309-2312 | The current text is the one that the lexer cut for the current token |
| TokenCursor.AstBuilder.CoversInput | src/ast/parse.rs:66-79 | In every state the position, the current token and the tokens behind it account for the whole input |
| InternerModel.Interner.Intern | src/ast/parse/symbol.rs:141-154 | A known name keeps its number, a new one gets the next; every earlier number still reads the same text, and no buffer outgrows its capacity |
| InternerModel.Interner.Alloc | src/ast/parse/symbol.rs:164-181 | The slice reads back the name and everything written before stays where it was |
| InternerModel.InternAll | src/ast/parse/symbol.rs:141-162 | Over any run of interning, two inputs get the same number if and only if they are the same text, and every number reads back its text at the end |
| InternerModel.PreloadIsInverse | src/ast/parse/symbol.rs:132-139 | Tables preloaded from a list of names are inverse to each other if and only if no name is repeated |
| InternerModel.KeywordsPreloaded | src/ast/parse/kw.rs:59-95 | The keywords are all different, so the preloaded tables are inverse to each other |
| Keywords.KeywordInterned | src/ast/parse/kw.rs:59-95 | In the preloaded table each keyword's text has the number of its place in the declaration |
| Keywords.ReadIsUnique | src/ast/parse/kw.rs:22-33 | No text is read as two keywords |

## Left out

- Division and remainder in code generation: both copy RAX back after `cdq`, so a remainder would be the quotient; the model refuses to compile them. `~` is refused by the source. Right shifts, shifts with a literal on the left and `!`, `&&` and `||` on integers are no part of covered expressions; `Shifts` and `Truthiness` say when each is right.
- CodeGenerator.CodeGen.BuildValue: variables, literals, `!`, binary operations and parentheses; calls, dereferencing, field and element reads and aggregates are not expressions here.
- CodeGenerator.CodeGen.OrderOperands: without the `swapped` flag, which only comparisons of arrays use, and without floats.
- CodeGenerator.CodeGen.GenStatement: calls, `Stmt::Block`, built-ins and inline assembly are not statements here.
- CodeGenerator.CodeGen.InitStruct: initialisers of enums inside a struct are left out.
- CodeGenerator.CodeGen.IndexArr: the address of an element of a one-dimensional array; reading elements and further dimensions are left out.
- CodeGenerator.CodeGen.GenMatchArm: enum patterns that hold names; nested patterns and patterns that are values are left out.
- CodeGenerator.CodeGen.GenMatch: the matched expression is a variable.
- FuncProof.CompilerCorrect: declarations stand at the top level of a function and declare new names (the type checker also accepts a second `let` of a name that starts with `_`; `Redeclared.LetAgainRuns` says what it does); struct, enum and `match` statements and assignments to elements and fields have no meaning in `Exec` and are covered one at a time by StructProof, EnumProof, MatchProof and ElementProof.
- EndToEnd.LowerStmtPreserves: statements about aggregates have no meaning in `Exec`, before and after lowering; StmtReplaced says what lowering does to them.
- Compiles.StmtUsed: says nothing about expressions that are not covered, about functions named like variables, and about assignments to elements whose value overwrites registers in use.
- EndToEnd.AssignOpRuns: compound assignment to variables, not to elements and fields.
- MatchProof.MatchRuns: the blocks of arms declare nothing, and what they do to the enum being matched is not said.
- MatchProof.InitThenMatch: as MatchRuns.
- FrameRuns.IfInStepExactly: declarations stand at the top level of the branches; for deeper ones BlockInStepExactly counts the bytes that the run made room for.
- FrameRuns.LoopInStepExactly: as for conditionals; rounds are counted on the machine, LetLoopRuns counts those of the source.
- LetLoops.LetLoopRuns: the body declares scalars at its top level, and the loop stands where labels are numbered by its own place, outside the arms of a `match`.
- KnownLimits.LetInBranchLosesValue: one input; what holds of all inputs is in FrameRuns, Lagging and LetLoops.
- `ArrayInit`, the initialiser of a local array by a list of elements (src/gen/asm.rs:1463-1500).
- The initialiser of a local `const` is ignored by the source and by the model.
- Floats, strings, characters, globals, calls, traits and the text format of instructions.
- The callee-saved registers are not preserved by the source and not required by the model's caller.
- Stack memory is taken to be mapped where arrays and enums get their room; pushes map what they write.
- In-place updates of expressions and types (`const_fold`, `subst_generic`) are modelled on values, so aliasing of shared subtrees is not captured.
- Struct fields that are enums or arrays of structs, assignment through pointers.
- Prefix operators, calls and field access in the expression parser: operands are atoms or parenthesised groups; the short cut for `true` and `false` as the first operand is left out.
- Function types and paths in generic types, on which substitution and matching are unfinished in the source.
- Type inference beyond matching, trait solving, name resolution, monomorphisation and error snippets.
- Characters are units, without their UTF-8 length; the Unicode identifier tables are parameters.
- Zero-sized elements of the growable array, and its iterators and slices.
- File and thread work, printing, the command line, the test builder, the derive macro and the LLVM back end.
