# mini-cc in Dafny

mini-cc compiles C functions to Cranelift. This project models the compiler pass in the middle,
`src/codegen.c`, together with the structural check before it (`src/sema.c`) and the lists it walks
(`src/ast.c`), and proves that the code it emits means what the C source means.

* **Source language.** `Ast` and `CTypes` hold the syntax tree and types; `CSemantics` is a big-step
  interpreter for it over byte memory, with fuel for loops, so that running forever is an outcome
  too. `SourceRuns` shows that fuel is only a bound. `Scoping` gives a second meaning, with
  block-scoped names, object lifetimes, and no meaning for reading a byte without a value.
* **Target.** `Clif` is a small-step machine over numbered blocks and typed words; an instruction
  with missing or ill-typed operands is stuck. `Words` and `ByteMemory` are shared by both sides.
* **Compiler.** `SlotTable` and `Lowering` say as functions what the compiler builds. `Codegen` has
  the program's own form: a `FunctionBuilder` and a `CgCtx` whose methods change them in place, with
  the loops of the program, each method proved equal to those functions. `Sema` and `AstLists` model
  the check and the linked lists the same way, and `AstBuild` the constructors of the tree.
* **Theorems.** `ExprCorrect`, `StmtCorrect` and `FuncCorrect` are the meaning preservation proof;
  `Growth`, `Cfg`, `Unfilled`, `DeadCode`, `IrTyping` and `Safety` are about the graph;
  `SlotTableCorrect` and `FrameSlots` about the slot table and the slots of a function; `Progress` and
  `Rejects` about when compilation stops; `ObjectMemory`, `Places` and `PointerLaws` about memory;
  `NullExact`, `Limits` and `ScopeLimits` about where the promises end. `TestPrograms` applies the
  theorems to functions of the repository's tests.

The fragment is the predicate `WellTyped.TypedFunc`: `char`, `short` (signed or unsigned), `int` and
pointers as values, arrays and structures as storage; `int` results, indices and pointer offsets; no
null pointer constants; no use of the value of an assignment to a narrow object; `break` and
`continue` inside loops only; objects below 2 GiB and fields below 256 MiB into their structure; a
body that is not empty. Arithmetic on `int` wraps. Dividing by zero and a quotient that does not fit
trap, in source and target alike; a remainder by -1 is 0. The address of an assignment's target is
computed before its right-hand side, and operands go from left to right. A callee is an arbitrary
function of its name, arguments, the memory and the calls made before, the same on both sides. In
`CSemantics` memory that was never written reads as zero and a variable keeps the bytes of its slot,
so its theorems also hold for runs that read such bytes; in `Scoping` such runs have no meaning.
Addresses wrap at 64 bits.

The build host is the one of `Makefile`, MinGW-w64, where `long` has 32 bits: the compiler cuts
sizes and offsets in bits to that, and a signed overflow in its rounding is taken to wrap.

Some promises hold only under a condition. For each there is a program that shows it, and the exact
condition for all inputs:

* One binding per name against block scope: `ScopeLimits.ShadowingDiffers`, and the places of all
  objects agree exactly under the condition of `Scoping.ObjectsAgreeExactly`.
* The value of a narrow assignment: `Limits.NestedNarrowAssignWrong`, `Limits.ValueWidthExactly`,
  `Limits.NestedNarrowAssignExactly`.
* Null safety after the check: `NullExact.AcceptedYetUnsafe`, `NullExact.FunctionNullExactly`. The
  program's own constructors never finish such a tree, and for the trees they finish the promise
  holds: `AstBuild.BuiltFuncExactly`, `AstBuild.BuiltAndAcceptedSafe`.
* The size of a stack slot: `Places.BigArrayOverflows`, `Places.SlotHoldsExactly`.
* Null pointer constants: `p == 0` is illegal (`Limits.ComparisonExactly`), and `p = 0` stores four of
  eight bytes (`Limits.NullInitWrong`, `Limits.NullAssignExactly`, `Limits.NullInitExactly`).
* Structures by value: `Limits.RecordArgumentExactly`, `Limits.RecordAssignStores`.
* A definition with an empty body: `Limits.EmptyBodyDropped`, `Limits.EmptyBodyExactly`.

## Model

| member | source | states |
|---|---|---|
| FuncCorrect.FunctionEquivalence | src/codegen.c:695-754 | For every function of the fragment, frame, arguments and memory, the emitted graph returns `v` exactly when the C function does, with the same memory and external calls; it faults exactly when the source traps, runs forever exactly when the source does, and never gets stuck |
| FuncCorrect.FunctionForward | src/codegen.c:735-742 | One direction with a step count: the run of the graph answers every source outcome, falling off the end as a return of 0, and takes at least as many steps as the fuel when fuel runs out |
| FuncCorrect.HaltedAnswers | src/codegen.c:735-742 | The other direction: if the graph has halted within `n` steps, the source has an outcome with fuel `n + 1`, and it is the same one |
| FuncCorrect.SourceWorldPlaced | src/codegen.c:179-183 | Every placement of slots and data objects is covered by the equivalence |
| FuncCorrect.EmitSucceeds | src/codegen.c:168-177 | Compiling a function of the fragment succeeds if and only if its table entries are at most 64, and otherwise stops with too many locals; no other exit is reached |
| FuncCorrect.EmitExits | src/codegen.c:659-674 | The same without the rule that `break` and `continue` stand in loops: a function that fits the slot table compiles exactly if its lowered code has no such jump outside a loop, and otherwise stops at the first one, `break` and `continue` each with its own exit |
| FuncCorrect.StoreParamsCorrect | src/codegen.c:728-733 | The entry code leaves memory as parameter passing does |
| StmtCorrect.StmtsCorrect | src/codegen.c:457-682 | Running any later graph from the insertion point follows the source: a normal run reaches the new insertion point, break and continue reach the start of the innermost loop's targets, return ends with the value, a trap faults, and running out of fuel means at least that many steps |
| StmtCorrect.StmtCorrect | src/codegen.c:461-680 | The same for each kind of statement |
| StmtCorrect.IfCorrect | src/codegen.c:491-534 | `if` takes the arm that the condition selects and goes on after it, also when an arm is missing or ends early (C11 section 6.8.4.1) |
| StmtCorrect.WhileLoopCorrect | src/codegen.c:535-571 | From the head block the loop runs exactly as the source loop with this fuel, and leaves through the exit block |
| StmtCorrect.ForLoopCorrect | src/codegen.c:572-623 | The same for `for`: a missing condition is true, and continue goes to the step |
| StmtCorrect.DoLoopCorrect | src/codegen.c:624-658 | The same for `do`: the body comes first, and continue goes to the condition |
| StmtCorrect.InitCode | src/codegen.c:462-475 | An initialised declaration leaves the value, converted to the type of the variable, in its slot |
| ExprCorrect.RvalCorrect | src/codegen.c:405-453 | Straight-line code for an expression computes the source value at the machine type of the expression, with the same memory effects, calls and traps, and keeps all older values |
| ExprCorrect.LvalCorrect | src/codegen.c:344-401 | Code for an lvalue computes the address the source designates |
| ExprCorrect.AssignCorrect | src/codegen.c:241-247 | Address, then value, then the store of the converted value; the result is the stored word |
| ExprCorrect.BinopTailCorrect | src/codegen.c:255-291 | Every operator instruction sequence agrees with C arithmetic on its operands, scaled pointer arithmetic and division faults included |
| ExprCorrect.UnopTailCorrect | src/codegen.c:298-311 | Negation wraps, and `!` yields 0 or 1 |
| ExprCorrect.ArgsCorrect | src/codegen.c:320-325 | Arguments are evaluated from left to right and arrive with the types that the signature declares |
| ExprCorrect.CallCorrect | src/codegen.c:313-340 | A call adds the same event to the trace, with the same arguments and result, as in the source |
| ExprCorrect.NarrowCorrect | src/codegen.c:230-239 | Narrowing, in one step or two, keeps the value modulo the width of the store |
| ExprCorrect.LoadCorrect | src/codegen.c:427-439 | A load widened by the signedness of its type is the typed read of the source |
| Words.TruncDivUnique | src/codegen.c:290-291 | The division used on both sides is the one with a remainder smaller than the divisor that never has the sign opposite to the dividend, and no other (C11 section 6.5.5) |
| Words.DecodeEncode | src/codegen.c:407-408 | Encoding a value and reading it back is the identity exactly on the representable values |
| CTypes.ConvertIsTheCongruentValue | src/codegen.c:105-116 | Conversion to a scalar type yields the one value in the range of the type that is congruent to the argument modulo the size of that range; the ranges are given as numbers, -128 to 127 for `signed char` and so on |
| Growth.LowerStmtsGrows | src/codegen.c:457-682 | Lowering only appends to the open block and creates blocks: closed blocks never change, old instructions stay a prefix, the loop targets after it are those before it, and `terminated` says exactly whether the current block has its terminator |
| Growth.ExprStraight | src/codegen.c:405-453 | Expressions create no block and no terminator |
| Cfg.FunctionWellFormed | src/codegen.c:711-742 | In every emitted graph each block is empty or ends in its only terminator, the entry is filled, and every branch goes to a filled block |
| Cfg.StmtsTidy | src/codegen.c:491-657 | The invariant of construction behind it, with the blocks still promised to be filled |
| Unfilled.FunctionUnfilled | src/codegen.c:494-533 | The empty blocks of a finished graph are exactly these: of the blocks `k`, `k + 1`, `k + 2` that an `if` in lowered code creates, `k + 1` when there is no else branch, and `k + 2` when both arms end; block numbers follow from the chain by recursion |
| Unfilled.SpareCount | src/codegen.c:494-533 | They are as many as the `if`s without else branch plus the `if`s whose arms both end, in lowered code; no two leave the same block |
| DeadCode.TerminatedExactly | src/codegen.c:458-533 | The flag is set after a chain if and only if the chain contains a jump, or an `if` with two ending arms, at its own level |
| DeadCode.EndedNeverNormal | src/codegen.c:459 | No run of such a chain completes normally |
| DeadCode.DroppedCodeIsDead | src/codegen.c:458-459 | Whatever follows such a chain is not lowered, and leaving it out changes no source run |
| IrTyping.FunctionWellTyped | src/codegen.c:695-754 | Each block of an emitted function type-checks on its own: operands of an operation or comparison have one type, extensions widen, reductions narrow, addresses are I64, calls match their signatures, returns are I32, and every value is defined once in the whole function |
| IrTyping.ExprYields | src/codegen.c:405-453 | An expression yields the machine type of its C type, except that an assignment to a narrow object yields the stored type |
| IrTyping.LvalYields | src/codegen.c:344-401 | Addresses have type I64 |
| IrTyping.TypedCodeRuns | src/codegen.c:230-311 | Code that type-checks never meets an illegal instruction, whatever the values are |
| Safety.WellTypedNeverStuck | src/codegen.c:711-754 | No run of any well-typed, well-formed graph gets stuck, and what it returns is a 32-bit word |
| Safety.CompiledNeverStuck | src/codegen.c:695-754 | No compiled function gets stuck, wherever its slots and data lie, and what it returns has the result type that it declares |
| FrameSlots.FunctionInFrame | src/codegen.c:179-183 | The code of every emitted function takes the address of none but the stack slots that the function has |
| FrameSlots.VariablesHaveSlots | src/codegen.c:711-716 | Every parameter and every declared variable has a slot of the emitted function, not shared with another name, whose size is the least multiple of 8, at least 8, that holds the variable |
| FrameSlots.SlotsLayOut | src/codegen.c:179-213 | If the slots of the emitted function do not overlap, its variables do not |
| FrameSlots.LoweredAccessInSlot | src/codegen.c:344-401 | The address the emitted code computes, plus the accessed size, stays inside one slot of the emitted function, that of the variable |
| SlotTableCorrect.CollectExtends | src/codegen.c:185-214 | The pre-pass only adds entries, each with its own slot, and afterwards exactly the old names, the parameters and the names declared at any depth resolve |
| SlotTableCorrect.CollectOccupancy | src/codegen.c:168-214 | The final number of entries is the number of parameters times the number of invocations, missing branches and clauses included, plus the number of other declared names; the pre-pass fails exactly when that exceeds 64 |
| SlotTableCorrect.ParamsResolveFirst | src/codegen.c:186-190 | Each parameter resolves to one of the first `num_params` entries although nested calls append it again |
| SlotTableCorrect.DistinctSlots | src/codegen.c:179-183 | Distinct names have distinct slots |
| SlotTableCorrect.FindStable | src/codegen.c:161-166 | A name that resolves keeps its binding whatever is appended |
| SlotTableCorrect.FindIsFirst | src/codegen.c:161-166 | Lookup finds the first entry of that name, and fails exactly when there is none |
| Progress.StmtsSucceed | src/codegen.c:457-682 | On the fragment no `exit(1)` of lowering is reached: no undefined variable, no declaration without a slot, no jump outside a loop |
| Progress.ExprSucceeds | src/codegen.c:405-453 | The same for expressions |
| ObjectMemory.NarrowStoreReload | src/codegen.c:230-239 | The emitted narrowing, store, load and extension together yield the C conversion of the register, for every value and scalar type |
| ObjectMemory.NarrowParamReads | src/codegen.c:728-733 | A narrow parameter, stored as a whole register and loaded narrow, reads as the argument converted to its type |
| ObjectMemory.StoreIsExact | src/codegen.c:245 | A store changes exactly the bytes it covers, each to its part of the word, also across the end of the address space |
| ObjectMemory.WriteIsExact | src/codegen.c:245 | Storing a typed object changes no byte outside it, and each byte inside to its part of the converted value |
| ObjectMemory.ReadBack | src/codegen.c:427-438 | A stored object reads as the converted value |
| ObjectMemory.ReadElsewhere | src/codegen.c:230-247 | Objects with no byte in common with the stored one read as before, packed neighbours included |
| Places.PathInside | src/codegen.c:357-396 | A path of fields and in-range indices of any depth selects a part inside its root |
| Places.PathsApart | src/codegen.c:357-396 | Paths that diverge select parts with no byte in common |
| Places.LvalIsPart | src/codegen.c:344-401 | An lvalue made of a variable, fields and indices designates the address of the variable plus the offset of its path |
| CTypes.TypeSizeExactly | src/codegen.c:62-70 | The compiler's size of a type, cut to a 32-bit `long`, is the true one exactly below 2 GiB; strides follow it |
| CTypes.SizeExactly | src/codegen.c:62-70 | A type has a size unless it is made of arrays of unknown length or unknown records; it is then the number of its innermost objects times 1, 2, 4, 8 or the size in the record's layout |
| CTypes.LongOffsetExactly | src/codegen.c:140-157 | The compiler's offset of a field, from its offset in bits cut to a `long`, is the true one exactly below 256 MiB; any other is cut modulo 2^29, to a negative one in the upper half |
| CTypes.FindFieldIsFirst | src/codegen.c:140-150 | The search finds a field exactly if one has the name, and then the first one |
| Places.FieldOffsetFound | src/codegen.c:140-157 | In a record with distinct field names, every field is found, at its own offset if that is below 256 MiB; a greater one counts modulo 2^29, and the upper half of that range as a missing field |
| Places.FieldMissingExactly | src/codegen.c:376-396 | Lowering stops for a missing field exactly if no field has the name |
| Places.RecordArray | src/codegen.c:62-70 | Element `i` of an array of records lies at `i` times the record's size, for exactly the `i` in range, and the array has `n` times that size |
| Places.SlotHoldsExactly | src/codegen.c:128-131 | A slot holds its variable exactly if the true size, rounded up to a multiple of 8, fits a 32-bit `long`; then it is the least multiple of 8, at least 8, that does |
| Places.BigArrayOverflows | src/codegen.c:179-183 | `char a[4294967305]` gets a slot of 16 bytes although element 16 is in range, `char a[2147483647]` one of 8, and `char a[2147483648]` stops the compiler |
| Places.StoreChangesOnePart | src/codegen.c:230-247 | A store through one path changes that part, and no other variable and no diverging part of the same variable |
| Places.AssignmentChangesOnePart | src/codegen.c:241-247 | The same for a whole assignment, whose value is what its target then reads as |
| Places.InitChangesOneVariable | src/codegen.c:462-475 | The same for an initialised declaration |
| Places.ParamsArrive | src/codegen.c:728-733 | After entry every parameter reads as its argument converted to its type |
| PointerLaws.SubscriptIsSum | src/codegen.c:262-288 | `p[i]`, `*(p + i)`, `p + i` and `&p[i]` are the same instructions |
| PointerLaws.SubscriptCommutes | src/codegen.c:270-276 | `*(i + p)` is `p[i]`, in the source and in the code of both, when the operands have no effects |
| PointerLaws.ForthAndBack | src/codegen.c:279-286 | `(p + i) - i` is in the fragment and is `p`, also when the sum wraps, for operands without effects |
| PointerLaws.CodeForthAndBack | src/codegen.c:279-286 | The code of `(p + i) - i` gives back `p`, for every 64-bit `p`, 32-bit `i` and stride |
| PointerLaws.RecordStride | src/codegen.c:262-286 | The code of `p + i` and `p - i`, for a pointer to a record, moves by `i` times the size in the record's layout |
| PointerLaws.RecordElement | src/codegen.c:357-374 | The code of `p[i]` and `&p[i]` computes the address `i` whole records after the value of `p` |
| Limits.PointerOrderExactly | src/codegen.c:255-259 | The code of `<`, `<=`, `>`, `>=` on two addresses compares them as signed numbers, so it leaves the right answer exactly when they are equal or in one half of the address space |
| Limits.PointerDifferenceExactly | src/codegen.c:287 | A pointer difference is the number of elements exactly when it is 0 or the elements are one byte big |
| Limits.NotExactly | src/codegen.c:302-306 | `!` is legal exactly on 32-bit operands |
| Limits.RecordArgumentExactly | src/codegen.c:320-336 | A call with a record argument is legal exactly if the record has 8 bytes: the record is lowered to its address, and the signature goes by its size |
| Limits.RecordAssignStores | src/codegen.c:230-247 | Assigning a record stores the address of the source, or its lowest one or two bytes if the record has that size, and reads no byte of the source |
| Limits.ValueWidthExactly | src/codegen.c:241-247 | A lowered value has the machine type of its C type exactly when the expression is not a narrow assignment |
| Limits.NestedNarrowAssignExactly | src/codegen.c:241-247 | `x = (c = r)` stores only the narrow word: `x` reads as in C exactly when its upper bytes already were the right extension |
| Limits.NestedNarrowAssignWrong | src/codegen.c:241-247 | With `x == 256`, `x = (c = 1)` makes `x` 1 in C and 257 compiled |
| Limits.ComparisonExactly | src/codegen.c:255-259 | A comparison is legal exactly for operands of one machine type, so not for a pointer and the constant 0 |
| Limits.ComparisonRuns | src/codegen.c:255-259 | The code of a comparison leaves the 32-bit word 1 or 0 for the comparison of its operands in their order |
| Limits.ArithmeticExactly | src/codegen.c:261-291 | Arithmetic that moves no pointer is legal exactly for operands of one machine type, so not for an array plus an `int`; on 32 and 64 bits it then leaves the exact sum, difference, product, quotient or remainder of the signed operands modulo the width, and faults exactly for a zero divisor or a quotient that does not fit |
| Limits.NullAssignExactly | src/codegen.c:241-247 | After `p = 0` the pointer is null exactly if its upper four bytes already were zero |
| Limits.NullInitExactly | src/codegen.c:462-475 | The same for `T *p = 0;` |
| Limits.NullInitWrong | src/codegen.c:462-475 | In a slot whose upper half holds a 1, `int *x = 0;` makes a pointer that is not null |
| Limits.EmptyBodyExactly | src/codegen.c:696 | Nothing is emitted for a definition exactly if its body is empty |
| Limits.EmptyBodyDropped | src/clang_bridge.c:453 | `int f(void) {}` returns 0 in the source and is not emitted at all |
| Scoping.FlatFollowsScoped | src/codegen.c:161-213 | A block-scoped run, in which every declaration starts a new object without a value and reading a byte without a value has no meaning, is followed by the run with one binding per name: same outcome, value and calls, and a memory with at least its bytes; for all chains in which no declaration hides a visible name |
| Scoping.CompiledIsScoped | src/codegen.c:695-754 | Then every return, trap and divergence of the block-scoped function is one of the emitted graph; and if the function never reads a byte without a value, every one of the graph is one of the function |
| Scoping.ObjectsAgreeExactly | src/codegen.c:161-213 | At every use and declaration the object that block scope denotes lies at the place of the one binding of its name, exactly when names are used where they are visible and no declaration hides a visible one; objects of one name with separate lifetimes share that place |
| ScopeLimits.ShadowingDiffers | src/codegen.c:195 | For `int x = a; { int x = b; } return x;` the emitted graph returns `b` and the C function `a`: they agree exactly when `a == b` |
| ScopeLimits.SiblingReadHasNoMeaning | src/codegen.c:195 | For `{ int x = a; } { int x; return x; }` the emitted graph returns `a`, and the C function has no meaning |
| SourceRuns.FuelMonotone | src/codegen.c:535-658 | More fuel never changes an outcome of the source loops that the pass translates |
| SourceRuns.OneOutcome | src/codegen.c:695-754 | A call that returns has one result, memory and trace, and neither traps nor runs forever |
| TestPrograms.ForSumReturns | test/rung11.c:1-7 | The test function `for_sum` compiles, and for every `int n`, every memory and every frame that keeps its slots apart, its graph returns 0 + 1 + ... + (n - 1), that is `n * (n - 1) / 2`, reduced to 32 bits |
| TestPrograms.JumpLoopTyped | test/rung11.c:9-25 | The loops with `break` and `continue` of the tests, as one loop, are in the fragment |
| TestPrograms.DoLoopTyped | test/rung11.c:27-34 | The `do` loop of the tests is in the fragment |
| TestPrograms.BranchTyped | test/rung456.c:31-35 | An `if` with two arms and a negation is |
| TestPrograms.StructViaPtrTyped | test/rung10.c:19-25 | A structure, its address and `->` are |
| TestPrograms.PtrWalkTyped | test/rung9.c:32-44 | An array, its conversion to a pointer, a moving pointer and a `while` are |
| TestPrograms.MixedTyped | test/rung12a.c:31-36 | Narrow variables mixed with `int` are |
| TestPrograms.HelloTyped | test/hello.c:3-6 | A call with a string literal is |
| Sema.VerifyExpr | src/sema.c:4-25 | Accepts an expression if and only if every node at any depth is there and every string, variable and field node has its name |
| Sema.VerifyStmts | src/sema.c:27-59 | Accepts a chain if and only if all expressions at any depth pass; initialisers and `for` clauses may be missing |
| Sema.SemaCheck | src/sema.c:61-69 | Returns 0 if and only if every function passes |
| Rejects.FunctionLowerable | src/codegen.c:695-742 | If a function is emitted, no node of its lowered code, at any depth, is a reason to stop: none is missing or lacks a name, is a logical and or a logical or, names an unknown string or field, takes the address of what has none, or needs an unknown size; and every variable is a parameter or declared somewhere in the body |
| Rejects.StmtsLowerable | src/codegen.c:457-682 | The same for lowering a chain, up to the first ending statement of each chain |
| Rejects.ExprLowerable | src/codegen.c:249-453 | The same for expressions, whatever their types |
| Rejects.ExprStops | src/codegen.c:249-453 | Conversely, if lowering an expression stops, one of its nodes is the reason, and the exit or the null pointer followed is the one for that reason |
| Rejects.LvalStops | src/codegen.c:344-401 | The same for the code of an address |
| Sema.FunctionSafe | src/codegen.c:695-742 | Compiling an accepted function whose parameters, declarations and callees in lowered code have names never follows a null pointer, however ill-typed it is |
| Sema.StmtsSafe | src/codegen.c:457-682 | The same for lowering a chain |
| Sema.ExprSafe | src/codegen.c:405-453 | The same for lowering an expression |
| Sema.CollectSafe | src/codegen.c:185-214 | The same for the pre-pass |
| NullExact.FunctionNullExactly | src/codegen.c:695-742 | If nothing but names can be missing, compiling a function follows a null pointer exactly when the name of a parameter, of a declaration at any depth, or of a callee in lowered code is missing; otherwise it yields what the named function yields |
| NullExact.StmtsNullExactly | src/codegen.c:457-682 | The same for lowering a chain: up to the first ending statement of each chain |
| NullExact.CollectNullExactly | src/codegen.c:185-214 | The same for the pre-pass, which looks at all parameters and declarations |
| NullExact.ExprNullExactly | src/codegen.c:313-340 | The same for lowering an expression, which looks at all callees |
| NullExact.NamelessDeclStops | src/codegen.c:194-199 | The pre-pass never gets past a declaration without a name, at any depth, whatever else is wrong |
| NullExact.AcceptedYetUnsafe | src/sema.c:12-32 | A parameter without name, a declaration without name and a call without callee are accepted, and compiling any one of them follows a null pointer |
| AstBuild.BuiltFuncExactly | src/ast.c:15-26 | The constructors finish exactly the functions in which every name is there, and follow a null pointer for the others |
| AstBuild.BuiltExactly | src/ast.c:80-153 | The same for expressions, built operands first |
| AstBuild.BuiltStmtsExactly | src/ast.c:184-249 | The same for statement chains |
| AstBuild.BuiltAndAcceptedSafe | src/sema.c:61-69 | A function that the constructors have built and the check accepts compiles without following a null pointer |
| Sema.TypedStmtsPass | src/sema.c:27-59 | The check rejects nothing of the fragment |
| AstLists.List.Append | src/ast.c:251-256 | Appending to a linked list adds the new chain at the end and leaves the rest as it was |
| AstLists.SymbolCounter.AddString | src/ast.c:37-55 | Adding a string literal appends it with a symbol that no other literal has |
| AstLists.DecimalInjective | src/ast.c:41-44 | Different counter values print differently, so generated symbols differ |
| AstLists.DecimalDenotes | src/ast.c:41-44 | A printed counter consists of digits without a leading zero and denotes the counter |
| AstLists.StringsResolve | src/codegen.c:410-418 | The symbol of a literal resolves, in the search of the code generator, to that very literal |
| Codegen.CgCtx.LocalLookup | src/codegen.c:161-166 | The loop returns the first matching entry |
| Codegen.CgCtx.LocalAdd | src/codegen.c:168-177 | Adds one entry at the end, or stops at the capacity |
| Codegen.CgCtx.AddLocal | src/codegen.c:179-183 | Creates a slot of the rounded size and binds the name to it |
| Codegen.CgCtx.CollectLocals | src/codegen.c:185-214 | The recursion and its loops build the table that `SlotTable.CollectLocals` describes |
| Codegen.CgCtx.NarrowToStore | src/codegen.c:230-239 | Emits the narrowing code proved right in `ExprCorrect.NarrowCorrect` |
| Codegen.CgCtx.LowerBinop | src/codegen.c:249-296 | Emits exactly the code proved right in `ExprCorrect.RvalCorrect`, or stops as it says |
| Codegen.CgCtx.LowerCall | src/codegen.c:313-340 | The argument loop emits the code of the call |
| Codegen.CgCtx.LowerLvalue | src/codegen.c:344-401 | Emits exactly the code proved right in `ExprCorrect.LvalCorrect`, or stops as it says |
| Codegen.CgCtx.LowerExpr | src/codegen.c:405-453 | Emits exactly the code proved right in `ExprCorrect.RvalCorrect`, or stops as it says |
| Codegen.CgCtx.LowerIf | src/codegen.c:491-534 | The in-place construction of the arms and the merge block yields the state of `Lowering.LowerIf` |
| Codegen.CgCtx.LowerWhile | src/codegen.c:535-571 | The same for `while`, with the loop targets saved and put back |
| Codegen.CgCtx.LowerFor | src/codegen.c:572-623 | The same for `for` |
| Codegen.CgCtx.LowerDo | src/codegen.c:624-658 | The same for `do` |
| Codegen.CgCtx.LowerStmt | src/codegen.c:457-682 | The loop over a chain, with its early return, yields the state that `StmtCorrect.StmtsCorrect` is about |
| Codegen.FunctionBuilder.Ins | src/codegen.c:230-311 | Callers must show that the current block has no terminator yet |
| Codegen.FunctionBuilder.SwitchToBlock | src/codegen.c:510-656 | Callers must show that the block left is filled and the block entered is not, so each block is entered at most once |
| Codegen.EmitParamStores | src/codegen.c:728-733 | The loop emits one store per parameter, to the slot its name resolves to |
| Codegen.EmitFrame | src/codegen.c:711-742 | Slot table, parameter stores, body and final return, in a new builder, yield the slots and blocks that `FuncCorrect.FunctionEquivalence` is about |
| Codegen.EmitFunction | src/codegen.c:695-754 | The whole compilation of one function yields that function; an empty body yields nothing |

## Left out

- `src/clang_bridge.c`: the translation from libclang cursors to the syntax tree; the tree is taken as given, and so is what libclang answers about sizes and offsets, in `CTypes.Layouts`.
- `src/main.c`, `src/probe.c`, object emission, linking, printing and the calling convention: input and output only.
- Block sealing: variables live in stack slots and not in builder variables, so it does not affect what the graph means.
- `codegen_emit` and `emit_data`: a data object is known by its position in the list, and functions are compiled one at a time, so name clashes between them are not modelled.
- What a callee does: it is an uninterpreted function, also when a function calls itself.
- `&&` and `||`: the code generator rejects them, and so does the model (`Rejects.FunctionLowerable`).
- Unsigned `int`, `long`, `long long` and `_Bool`, structures passed or assigned by value, null pointer constants, pointer difference and ordering, arithmetic on the name of an array, and functions that return anything but `int`: outside the fragment; `Limits` says what goes wrong for some of them.
- Pointers to objects whose lifetime has ended: in `Scoping` their bytes stay readable until a new object of that name begins.
- The type that the front end writes into a node after its constructor returns is a parameter of the constructors in `AstBuild`, which are modelled on values.
- Failing allocation and freeing the tree (`program_free`, `expr_free`, `stmt_free`): memory management without effect on the emitted code.
- The symbol counter is unbounded, so its overflow after 2^31 literals is not modelled.
- A statement chain is a value in `Ast`; only `AstLists` models the pointers of such a list, and the sharing of nodes between trees is not modelled.
