# A verified model of the OpenVDB AX compiler middle

OpenVDB AX compiles a small C-like language to basic-block code that runs once per point or voxel. This
project models the part of the compiler between the parser and LLVM, together with the static analysis
it relies on, and proves what the code is for: that generated kernels mean what the source program means.

* **The code generator.** `Ast` and `Types` are the language, `Semantics` its structured big-step
  semantics on fuel, `Cfg` a small-step semantics of blocks with registers, phis and static slots.
  `Lowering` says what the generator emits; `IrBuilder` and `Generator` are the imperative generator,
  with its insert point, value stack, break/continue stack and symbol tables, proved to emit exactly
  that. `Frames`, `InstrSimulation`, `ExprSimulation`, `StmtSimulation` and `Preservation` prove that
  meaning is preserved in both directions, `CfgShape` and `WellFormed` that the blocks are well formed,
  `ValueStack` which expressions leave a value, `SymbolTables` and `Scoping` that flat tables act like
  nested scopes. What both sides share is pinned by `Operators` and `Meanings`, which write the meaning of
  every operator, assignment, pack and call out in numbers and cells.
* **The kernels.** `Kernels`, `Uses`, `PointKernel`, `RangeKernel` and `VolumeKernel` say what surrounds
  the body: attribute loads, write-back at every return, the loop over points, the chains of index tests.
  `PointGenerator`, `RangeGenerator` and `VolumeGenerator` are the generators that emit them.
* **The attribute analysis.** `Occurrences`, `Catalogue`, `TreeFlags` and `Writes` classify accesses by
  climbing parents and relate the result to what programs do, and `StoreTargets` to every store of the
  generated code. `Dependencies`, `ProgramDependencies`, `AttributeRegistry`, `Agreement` and
  `Noninterference` compute dependencies and show when they suffice, `ShiftingLoop` when they do not.
  `Compilation` joins the analysis and the kernels end to end.
* **Helpers with invariants of their own.** `FunctionRegistry` (lazy creation along cyclic dependencies),
  `PointLeafLocalData` and `PointFunctions` (group bits and pending strings of a leaf), `Overloads` and
  `Acceptance` (resolution and argument casts), `Modulo`, and `Reprint` and `Rereading` (unique readability
  and the round trip of the reprinter).

Scalar operations, matrix products and the functions that programs call are parameters of the semantics:
every theorem about code holds for all of them.

Where the code does not do what its documentation or a reader would expect, the model follows the code:

* A cast of a scalar to the type it already has takes its operand off the value stack and pushes nothing
  back, so it is accepted only as a whole statement (`ValueStack.OneValueExactly`).
* Every attribute is catalogued as read, so the list of write-only attributes is always empty
  (`Catalogue.EverythingIsRead`).
* The dependencies of an attribute do not suffice in a loop: what is assigned later in the body reaches the
  next round, but only uses up to a position are looked at (`ShiftingLoop.ListedIsNotEnough`;
  `Noninterference.LoopDependenciesSuffice` gives a condition under which they do).
* The membership query answers no whenever the kernel was given no group handles, even for groups it has
  just created (`PointFunctions.InGroup`).
* A pointer to one scalar is accepted for a read-only pointer to another and is not cast
  (`Overloads.CallsAreWellTyped` gives the exact condition).
* A string with a NUL character in it is read back only up to that character (`PointFunctions.CopiedWhole`).
* An integer literal that overflows its type is reprinted as the wrapped value, which may be negative and
  then reads as a negation, or like a smaller literal (`Reprint.OverflowsAreAmbiguous`,
  `Reprint.ReadBackItself`). Infinite literals are reprinted like variables (`Reprint.InfinityIsAName`).
* Doubles with whole values are reprinted like integers and whole floats as two tokens, two equal signs in
  a row read as a crement, and ternaries are reprinted without parentheses (`Reprint.LiteralsAlike`,
  `Reprint.WholeFloatsAreTwoTokens`, `Reprint.SignsReadAsCrement`, `Reprint.TernariesAreAmbiguous`).
* The range kernel called with no points makes 2^64 rounds, beginning with point 0
  (`RangeKernel.NoPointsGoAllTheWay`).
* A matrix of sixteen can be multiplied by a vector of three, but not the vector by the matrix, although
  `transform` has an overload for it (`Types.IsProduct`).
* The two indices of a matrix access are combined with an int32 in one instruction, so they must be of that
  type; a scalar cannot become a matrix of integers, as the code asks for a floating point zero.

## Model

| member | source | states |
|---|---|---|
| `Compilation.PointsEndToEnd` | openvdb_ax/codegen/PointComputeGenerator.cc:132-289 | For every program over scalars, vectors and matrices (no strings or external variables) and every 1 <= n < 2^64 points: the point kernel is generated exactly when the program is well typed and well scoped, and then running the emitted range function on n points is the same as applying the source program once to each point, in order, on the attribute values themselves. |
| `Compilation.PointByCell` | openvdb_ax/codegen/PointComputeGenerator.cc:183-289 | One call of the point kernel, cell by cell: it ends if and only if the program does, and leaves in every attribute, which has as many cells as its type has elements, exactly the cells of its slot. |
| `Compilation.VolumesEndToEnd` | openvdb_ax/codegen/VolumeComputeGenerator.cc:79-219 | For the same programs: called for the grid of one attribute, the volume kernel ends exactly when the program does, sets at most one voxel, and that voxel then has the value the program leaves in the attribute, also when the assignment is skipped. |
| `Compilation.CompilePoints` | openvdb_ax/codegen/PointComputeGenerator.cc:183-289 | From the source program alone: the registry that the scanners build describes the program, its uses are the converse of its dependencies, it covers all the program writes, and the generated range function and kernel are the specified ones. |
| `Compilation.CompileVolumes` | openvdb_ax/codegen/VolumeComputeGenerator.cc:79-222 | The same for volumes. |
| `Compilation.RegistryCovers` | openvdb_ax/ast/Scanners.cc:407-456 | Scanner and semantics meet: a registry that describes a program reads every attribute and flags every attribute the program may write to. |
| `Preservation.CompilerCorrect` | openvdb_ax/codegen/ComputeGenerator.cc:171-189 | Generation accepts a program over scalars, vectors and matrices exactly when it is well typed and well scoped; then the generated blocks reach a return with a state if and only if the structured semantics ends with that state. |
| `Preservation.ControlFlowPreserved` | openvdb_ax/codegen/ComputeGenerator.cc:1267-1274 | The same with the code starting anywhere in a function: nested blocks, if/else, for/while/do, break, continue and return keep their meaning, termination included, in both directions. |
| `Preservation.NeverStuck` | openvdb_ax/codegen/ComputeGenerator.cc:441-579 | At no step does generated code read an undefined register, fall off an open block, or enter a phi over an edge it does not list. |
| `Preservation.SimTree` | openvdb_ax/codegen/ComputeGenerator.cc:1267-1274 | On any amount of fuel, the machine either has run at least that long or has halted in the state of the structured program. |
| `ExprSimulation.SimExpr` | openvdb_ax/codegen/ComputeGenerator.cc:581-667 | Every expression over scalars, vectors and matrices, however nested, leaves the reference value in its operand and the reference state in memory; scalars are not loaded before the code says so, and arrays are handled through their pointers. |
| `ExprSimulation.SimLogical` | openvdb_ax/codegen/ComputeGenerator.cc:581-647 | `&&` and `||`: the right operand runs only when the left one does not decide, and the phi takes the value of the edge that was taken. |
| `ExprSimulation.SimTernary` | openvdb_ax/codegen/ComputeGenerator.cc:257-439 | Ternaries with and without a true branch: one branch runs, an elided condition is evaluated once, conversions inserted in front of the branches yield one type, arrays and scalars that become arrays included, and the phi picks the right value. |
| `ExprSimulation.SimBranches` | openvdb_ax/codegen/ComputeGenerator.cc:291-437 | The two branches of a ternary after its condition: whichever is entered, control arrives at the join with the converted value of that branch. |
| `ExprSimulation.SimCoerce` | openvdb_ax/codegen/ComputeGenerator.cc:319-426 | The code inserted for a branch brings its value to the type of the ternary: a scalar is loaded, converted and, next to an array, spread over a vector or put on the diagonal of a matrix; an array is converted element by element. |
| `ExprSimulation.SimAssignExpr` | openvdb_ax/codegen/ComputeGenerator.cc:773-799 | Assignments, compound ones included, store the converted value through the target address computed before the source is loaded. |
| `ExprSimulation.SimCrement` | openvdb_ax/codegen/ComputeGenerator.cc:801-835 | Pre-crements yield the variable itself, post-crements the value loaded before the change. |
| `ExprSimulation.SimComma` | openvdb_ax/codegen/ComputeGenerator.cc:191-210 | All expressions of a comma run in order and the last one is the value. |
| `ExprSimulation.SimBinaryExpr` | openvdb_ax/codegen/ComputeGenerator.cc:649-667 | Both operands are generated before either is loaded. |
| `ExprSimulation.SimUnary` | openvdb_ax/codegen/ComputeGenerator.cc:669-771 | Unary operators on the widened value, or on every element of an array; unary plus generates nothing. |
| `ExprSimulation.SimCast` | openvdb_ax/codegen/ComputeGenerator.cc:926-961 | A cast between different scalar types converts, to bool by comparing with zero. |
| `ExprSimulation.SimComponent` | openvdb_ax/codegen/ComputeGenerator.cc:1054-1131 | A component access with one index yields the address of the selected cell, with the container and the index evaluated in the order of the code. |
| `ExprSimulation.SimEntry` | openvdb_ax/codegen/ComputeGenerator.cc:1054-1131 | An access with two indices yields the address of the cell at row times dimension plus column, with the row, the column and the matrix evaluated in the order of the code and both indices loaded after all three. |
| `ExprSimulation.SimCall` | openvdb_ax/codegen/ComputeGenerator.cc:837-924 | Arguments are evaluated first to last, scalars are loaded last to first and arrays passed by pointer, all are cast when the match was implicit, and the call may write behind the pointers that its signature does not declare read-only. |
| `ExprSimulation.SimPackExpr` | openvdb_ax/codegen/ComputeGenerator.cc:1133-1158 | A pack evaluates all its elements, loads them and converts them to the highest type among them; a pack of one element is that element. |
| `InstrSimulation.SimBinary` | openvdb_ax/codegen/ComputeGenerator.cc:1430-1662 | Loading scalars, making matrices of those that go with one, and applying the operator yields the reference value. |
| `InstrSimulation.SimZip` | openvdb_ax/codegen/ComputeGenerator.cc:1628-1661 | Operators on arrays work element by element, with scalars in every element; comparisons are reduced to one boolean from the first element to the last. |
| `InstrSimulation.SimProduct` | openvdb_ax/codegen/ComputeGenerator.cc:1476-1503 | Products of matrices and vectors cast both sides to the overload that is called and yield its result. |
| `InstrSimulation.SimUnaryEach` | openvdb_ax/codegen/ComputeGenerator.cc:718-762 | A unary operator on an array loads all elements before it is applied to any. |
| `InstrSimulation.SimAssign` | openvdb_ax/codegen/ComputeGenerator.cc:1284-1377 | Storing through an lvalue after conversion changes exactly the target: one cell of a scalar, or all cells of an array, in order. |
| `InstrSimulation.SimCells` | openvdb_ax/codegen/ComputeGenerator.cc:1371-1376 | The elements of an array are loaded, converted and stored one after the other, also when the source is the target. |
| `InstrSimulation.SimEmitCall` | openvdb_ax/codegen/FunctionTypes.cc:146-165 | A resolved call passes exactly the cast values to the chosen overload and yields its result and its effect. |
| `InstrSimulation.SimArrayCast` | openvdb_ax/codegen/Utils.h:439-478 | An array with other elements is copied to a new array of converted elements; one with the same elements is passed as it is. |
| `Meanings.BinaryMeaning` | openvdb_ax/codegen/ComputeGenerator.cc:1430-1662 | The type and the numbers of a binary operator on any two operands, written out: which operands are accepted, the one operand type on the ladder double, float, int64, int32, int16, int8, bool that both are converted to (int32 for two booleans unless they are compared for equality), results element by element, scalars promoted to the diagonal of a matrix, and the seven matrix products with their lengths. |
| `Operators.OperandTypeLaw` | openvdb_ax/codegen/ComputeGenerator.cc:1577-1594 | An operator on two scalars is refused exactly when it works on bits and one of them is floating point; otherwise the operand type is one of the two and neither stands higher. |
| `Operators.ReduceIs` | openvdb_ax/codegen/ComputeGenerator.cc:1633-1643 | Arrays are equal if and only if all elements are, and different if and only if some are. |
| `Operators.SpreadIsDiagonal` | openvdb_ax/codegen/Utils.h:783-806 | A scalar that becomes a matrix is in row i and column j exactly when i = j, and zero is everywhere else. |
| `Meanings.UnaryMeaning` | openvdb_ax/codegen/ComputeGenerator.cc:669-771 | The type and the numbers of signs, complements and negations of scalars and of arrays, and the operands they refuse. |
| `Meanings.TernaryChecked` | openvdb_ax/codegen/ComputeGenerator.cc:257-439 | A ternary is accepted exactly when its condition is a scalar and its values have a common type, which is written out. |
| `Meanings.TernaryMeaning` | openvdb_ax/codegen/ComputeGenerator.cc:257-439 | The numbers of the branch that is taken, converted to the common type, are the numbers of the ternary. |
| `Meanings.AssignMeaning` | openvdb_ax/codegen/ComputeGenerator.cc:1284-1377 | Which target takes which source, and the state afterwards cell by cell: the cells of the target hold the converted numbers of the source, read before any of them changed, and every other cell is as evaluating both sides left it. |
| `Meanings.CompoundMeaning` | openvdb_ax/codegen/ComputeGenerator.cc:773-799 | A compound assignment stores the numbers of the operator applied to target and source. |
| `Meanings.DeclareMeaning` | openvdb_ax/codegen/ComputeGenerator.cc:963-1023 | An initialiser is evaluated with the name in scope and stored, converted, in exactly the cells of the new slot. |
| `Meanings.EntryMeaning` | openvdb_ax/codegen/ComputeGenerator.cc:1054-1131 | The cell of a matrix entry is row times three plus column in a matrix of nine and row times four plus column in one of sixteen. |
| `Meanings.PackMeaning` | openvdb_ax/codegen/ComputeGenerator.cc:1133-1158 | A pack is accepted exactly when all its expressions are scalars, its element type is the highest among theirs, and its elements are their converted values in order. |
| `Meanings.ArgsLaw` | openvdb_ax/codegen/ComputeGenerator.cc:837-924 | Scalars are passed by value and arrays by pointer, and nothing else is passed. |
| `Meanings.CallMeaning` | openvdb_ax/codegen/ComputeGenerator.cc:837-924 | A call is accepted exactly when its group resolves for the types of its arguments, and calls that overload on the arguments loaded, cast and passed as written out. |
| `Meanings.CallLaw` | openvdb_ax/codegen/FunctionTypes.cc:146-165 | A call is given what lies behind its pointers and changes exactly the cells behind those that are not read-only, the last of them counting. |
| `Meanings.EvalShaped` | openvdb_ax/codegen/ComputeGenerator.cc:581-1158 | Every typed expression stands for numbers: lvalues are addresses, scalars one number, new arrays as many as their type says. |
| `StmtSimulation.SimStmt` | openvdb_ax/codegen/ComputeGenerator.cc:171-189 | Every statement, in every context: the machine comes to the end of the statement, to the break or continue target of the nearest loop, or to a return, as the structured semantics says, in the same state. |
| `StmtSimulation.SimIf` | openvdb_ax/codegen/ComputeGenerator.cc:212-255 | The branch that the condition selects runs, and both come together behind the conditional. |
| `StmtSimulation.SimLoop` | openvdb_ax/codegen/ComputeGenerator.cc:441-530 | for, while and do loops: the condition is generated after the body, continue goes to the iteration or the condition, and every test uses up fuel. |
| `StmtSimulation.SimJump` | openvdb_ax/codegen/ComputeGenerator.cc:532-579 | A keyword branches to the innermost targets; nothing after it in its block runs. |
| `Frames.LowerFrame` | openvdb_ax/codegen/ComputeGenerator.cc:581-667 | Generating an expression appends to the current block and to blocks it creates, changes nothing else, and succeeds or fails as static checking predicts. |
| `Frames.StmtFrame` | openvdb_ax/codegen/ComputeGenerator.cc:171-189 | The same for statements. |
| `Frames.GenerationSucceeds` | openvdb_ax/codegen/ComputeGenerator.cc:142-169 | Generation succeeds on a program over scalars, vectors and matrices exactly when static checking accepts it. |
| `ValueStack.OneValueExactly` | openvdb_ax/codegen/ComputeGenerator.cc:926-942 | A visit leaves exactly one value above the stack it found if and only if the expression is accepted and is not, up to unary plus and packs of one element, a cast of a scalar to its own type; such a cast leaves the stack as it was. |
| `ValueStack.RedundantCastIsUseless` | openvdb_ax/codegen/ComputeGenerator.cc:934-936 | Concrete failure: adding to a cast from int to int is rejected, because the cast left nothing to add to. |
| `Generator.ComputeGenerator.Generate` | openvdb_ax/codegen/ComputeGenerator.cc:142-169 | The imperative generator, with its insert point, value stack, break/continue stack, scope index and symbol tables, generates exactly the specified function and fails exactly where the specification does; the stacks and tables end balanced. |
| `Generator.ComputeGenerator.VisitExpr` | openvdb_ax/codegen/ComputeGenerator.cc:581-667 | A visit leaves the specified code, and the specified value above an untouched stack. |
| `Generator.ComputeGenerator.Pop` | openvdb_ax/codegen/ComputeGenerator.cc:195-203 | Values are only taken off a stack that is known to hold one. |
| `Generator.ComputeGenerator.VisitLocal` | openvdb_ax/codegen/ComputeGenerator.cc:1025-1052 | The search of the flat tables gives the declaration of the nested scopes. |
| `Generator.ComputeGenerator.VisitLogical` | openvdb_ax/codegen/ComputeGenerator.cc:581-647 | The visitor of `&&` and `||` generates the specified blocks, branch, and phi. |
| `Generator.ComputeGenerator.VisitTernary` | openvdb_ax/codegen/ComputeGenerator.cc:257-439 | The visitor of ternaries generates the specified blocks, inserted conversions and phi. |
| `Generator.ComputeGenerator.VisitComma` | openvdb_ax/codegen/ComputeGenerator.cc:191-210 | All values but the last are taken off the stack. |
| `Generator.ComputeGenerator.VisitAssign` | openvdb_ax/codegen/ComputeGenerator.cc:773-799 | The visitor of assignments refines its specification and leaves the target on the stack. |
| `Generator.ComputeGenerator.VisitCrement` | openvdb_ax/codegen/ComputeGenerator.cc:801-835 | The visitor of crements refines its specification. |
| `Generator.ComputeGenerator.VisitCast` | openvdb_ax/codegen/ComputeGenerator.cc:926-961 | The visitor of casts refines its specification, the redundant cast included. |
| `Generator.ComputeGenerator.VisitCall` | openvdb_ax/codegen/ComputeGenerator.cc:837-924 | The visitor of calls takes its arguments off the stack from the last to the first and calls the overload that resolution finds. |
| `Generator.ComputeGenerator.VisitComponent` | openvdb_ax/codegen/ComputeGenerator.cc:1054-1131 | The visitor of component accesses with one index refines its specification. |
| `Generator.ComputeGenerator.VisitEntry` | openvdb_ax/codegen/ComputeGenerator.cc:1054-1131 | The visitor of accesses with two indices takes the matrix, the column and the row off the stack in this order and accepts int32 indices of matrices. |
| `Generator.ComputeGenerator.VisitPack` | openvdb_ax/codegen/ComputeGenerator.cc:1133-1158 | The visitor of packs takes its elements off the stack from the last to the first and leaves a pack of one element as it is. |
| `Generator.ComputeGenerator.VisitDeclare` | openvdb_ax/codegen/ComputeGenerator.cc:963-1023 | A declaration owns a new static slot, is in scope in its own initialiser, and fails on a repeated name. |
| `Generator.ComputeGenerator.VisitBlock` | openvdb_ax/codegen/ComputeGenerator.cc:171-189 | A block leaves the value stack empty, the scope index and the break/continue stack as they were, and its table erased. |
| `Generator.ComputeGenerator.VisitIf` | openvdb_ax/codegen/ComputeGenerator.cc:212-255 | The visitor of conditionals refines its specification and restores the enclosing scopes. |
| `Generator.ComputeGenerator.VisitLoop` | openvdb_ax/codegen/ComputeGenerator.cc:441-530 | The visitor of loops refines its specification and restores scopes and exits. |
| `Generator.ComputeGenerator.VisitLoopBody` | openvdb_ax/codegen/ComputeGenerator.cc:488-527 | The targets of the nearest loop are on top of the break/continue stack exactly while its body is visited. |
| `Generator.ComputeGenerator.VisitJump` | openvdb_ax/codegen/ComputeGenerator.cc:532-579 | A keyword uses the top of the break/continue stack and opens a block for whatever follows. |
| `Generator.ComputeGenerator.LeaveScope` | openvdb_ax/codegen/ComputeGenerator.cc:184-188 | Leaving a scope erases its table, and the enclosing ones are what they were. |
| `IrBuilder.InstructionBuilder.UnifyBranches` | openvdb_ax/codegen/ComputeGenerator.cc:319-426 | The values of two finished branches are brought to one type by code inserted in front of their branch instructions, in the cases of the code: one to be loaded, two scalars, two arrays, a scalar and an array. |
| `IrBuilder.InstructionBuilder.BinaryExpression` | openvdb_ax/codegen/ComputeGenerator.cc:1430-1662 | The builder emits the specified loads, promotions and operation, or rejects the operands. |
| `IrBuilder.InstructionBuilder.AssignExpression` | openvdb_ax/codegen/ComputeGenerator.cc:1284-1377 | The builder emits the specified promotion, conversions and stores, or rejects the target. |
| `IrBuilder.InstructionBuilder.CastArguments` | openvdb_ax/codegen/FunctionTypes.cc:227-260 | Each argument of an implicit match is cast to its parameter: a scalar by value, an array element by element. |
| `IrBuilder.InstructionBuilder.ArrayCast` | openvdb_ax/codegen/Utils.h:439-478 | The loop over the elements emits the specified loads, conversions and new array. |
| `IrBuilder.InstructionBuilder.ComputeElements` | openvdb_ax/codegen/ComputeGenerator.cc:1628-1635 | The loop over the elements of a binary operator loads and converts both sides of each element in turn. |
| `Types.TypePrecedence` | openvdb_ax/codegen/Utils.h:190-225 | The higher of two scalar types is one of them and stands no lower than either. |
| `WellFormed.GeneratesWellFormed` | openvdb_ax/codegen/ComputeGenerator.cc:214-249 | Every block of a generated function ends in its only terminator, branches stay inside and never return to the entry, each phi lists each predecessor exactly once and nothing else, and blocks opened after a keyword have no predecessor. |
| `WellFormed.LowerTidy` | openvdb_ax/codegen/ComputeGenerator.cc:632-638 | Expressions keep that order at every step of generation, with the join blocks of `&&`, `||` and ternaries still open. |
| `WellFormed.StmtTidy` | openvdb_ax/codegen/ComputeGenerator.cc:540-577 | Statements keep it, with break and continue leaving only for the targets of the enclosing loop. |
| `SymbolTables.FlatIsNested` | openvdb_ax/codegen/SymbolTable.h:197-218 | The downward search of id-indexed tables returns the declaration a stack of nested scopes would. |
| `SymbolTables.FindFromTop` | openvdb_ax/codegen/SymbolTable.h:225-228 | A search that starts above the current scope finds the same, as no table id is larger. |
| `SymbolTables.SymbolTableBlocks.Find` | openvdb_ax/codegen/SymbolTable.h:225-228 | The search through all tables, innermost first, is the lookup in the nested scopes. |
| `SymbolTables.SymbolTableBlocks.FindFrom` | openvdb_ax/codegen/SymbolTable.h:197-218 | The search from an index that may have no table of its own begins at the next smaller one. |
| `SymbolTables.SymbolTableBlocks.Erase` | openvdb_ax/codegen/SymbolTable.h:156-165 | A table is removed and the result tells whether it existed; the globals cannot be erased. |
| `SymbolTables.SymbolTableBlocks.Insert` | openvdb_ax/codegen/SymbolTable.h:95-100 | An insertion creates its table and never overrides a declaration. |
| `SymbolTables.SymbolTableBlocks.Replace` | openvdb_ax/codegen/SymbolTable.h:236-246 | Only the innermost declaration of a name is replaced. |
| `Scoping.AfterSameBelow` | openvdb_ax/codegen/ComputeGenerator.cc:981-993 | A statement changes the innermost scope at most. |
| `Scoping.BodyRestores` | openvdb_ax/codegen/ComputeGenerator.cc:171-188 | After a block or a loop every enclosing table is as it was before. |
| `PointKernel.PointKernelCorrect` | openvdb_ax/codegen/PointComputeGenerator.cc:185-289 | A call of the point kernel ends exactly when the program does and leaves exactly the attribute values the program leaves. |
| `PointKernel.SkippedIsKept` | openvdb_ax/codegen/PointComputeGenerator.cc:247-255 | An attribute that is not written back because its slot has a single use, or because it is not flagged, has the value it was loaded with. |
| `PointKernel.RunEpilogue` | openvdb_ax/codegen/PointComputeGenerator.cc:229-287 | From any return of the body the kernel writes every remaining attribute back and returns. |
| `PointKernel.SetsThese` | openvdb_ax/codegen/PointComputeGenerator.cc:247-255 | In place of a return the code sets an attribute if and only if it is flagged as written and some instruction of the body, its load aside, has its slot as an operand. |
| `Kernels.AttributeLoaded` | openvdb_ax/codegen/PointComputeGenerator.cc:200-212 | The attribute of a token is a variable of the token's type, and when the body begins each of its cells, as many as the type has elements, is in its slot. |
| `Kernels.AttributesStored` | openvdb_ax/codegen/PointComputeGenerator.cc:229-287 | Afterwards every attribute has as many cells as its type has elements, each being that of its slot, and nothing else has changed. |
| `Kernels.KernelRuns` | openvdb_ax/codegen/PointComputeGenerator.cc:206-217 | The kernel runs its loads and then its body up to the return the body comes to. |
| `RangeKernel.RangeKernelCorrect` | openvdb_ax/codegen/PointComputeGenerator.cc:132-181 | For every number of points from one on, running the range kernel is applying the program to each point in turn. |
| `RangeGenerator.GenerateRange` | openvdb_ax/codegen/PointComputeGenerator.cc:132-181 | The range function is emitted block by block, the second value of its counter being added once the loop is known. |
| `RangeGenerator.EmittedIsLoop` | openvdb_ax/codegen/PointComputeGenerator.cc:144-179 | Stepping through the emitted blocks, phi, wrap-around arithmetic and unsigned comparison included, comes to a return exactly when the loop does, with the same attribute values. |
| `RangeKernel.RoundsAre` | openvdb_ax/codegen/PointComputeGenerator.cc:150-175 | The loop, with its 64-bit counter and bound, makes exactly as many rounds as there are points left. |
| `RangeKernel.NoPointsGoAllTheWay` | openvdb_ax/codegen/PointComputeGenerator.cc:150-175 | With a count of zero the loop makes exactly 2^64 rounds, whatever it calls, and makes all of them if every call returns. |
| `PointGenerator.PointComputeGenerator.Generate` | openvdb_ax/codegen/PointComputeGenerator.cc:183-289 | The imperative generator of the point kernel, with its use counts taken while code is being inserted, yields the specified kernel. |
| `PointGenerator.PointComputeGenerator.WriteBack` | openvdb_ax/codegen/PointComputeGenerator.cc:229-287 | Setters are inserted in front of every return, and the code inserted so far never changes the verdict on a single use. |
| `PointGenerator.AllocateAttributes` | openvdb_ax/codegen/PointComputeGenerator.cc:191-204 | Every attribute gets a slot of its own, declared in table 1. |
| `VolumeKernel.VolumeKernelCorrect` | openvdb_ax/codegen/VolumeComputeGenerator.cc:135-219 | A call of the volume kernel ends exactly when the program does, changes none of its inputs, and sets the voxels of the tests that hold in the final state. |
| `VolumeKernel.VoxelsAre` | openvdb_ax/codegen/VolumeComputeGenerator.cc:165-216 | Exactly one voxel is set, to the final value of the slot, when the index asked for belongs to an attribute that has a test, and none otherwise. |
| `VolumeKernel.VoxelIsFinalValue` | openvdb_ax/codegen/VolumeComputeGenerator.cc:171-180 | Whether or not the assignment was skipped, the selected voxel ends up with the value of the program. |
| `VolumeKernel.VoxelSetExactly` | openvdb_ax/codegen/VolumeComputeGenerator.cc:165-180 | A voxel is set if and only if the selected attribute is flagged as written and the body mentions its slot beyond the load. |
| `VolumeKernel.SimChain` | openvdb_ax/codegen/VolumeComputeGenerator.cc:165-216 | The chain of index tests leaves memory alone and comes to its end from anywhere. |
| `VolumeGenerator.VolumeComputeGenerator.Generate` | openvdb_ax/codegen/VolumeComputeGenerator.cc:79-222 | The imperative generator of the volume kernel yields the specified kernel. |
| `VolumeGenerator.VolumeComputeGenerator.ReplaceReturns` | openvdb_ax/codegen/VolumeComputeGenerator.cc:143-219 | The terminator of every block of the body that returns is erased and the chain appended; blocks added on the way are not visited. |
| `Uses.NothingElse` | openvdb_ax/codegen/VolumeComputeGenerator.cc:171-180 | When the only use of a slot is its load, no other instruction of the function mentions it. |
| `Uses.UsesBehind` | openvdb_ax/codegen/PointComputeGenerator.cc:247-255 | A slot is used more often than by its loads if and only if an instruction behind them has it as an operand. |
| `Uses.RunElsewhere` | openvdb_ax/codegen/PointComputeGenerator.cc:247-255 | A run of code that never mentions a slot leaves it alone. |
| `Writes.WriteClassificationSound` | openvdb_ax/ast/Scanners.cc:349-404 | In every run of the structured program that ends, an attribute slot whose contents change belongs to a token that is flagged as written, also when the target is reached through ternaries, commas, pre-crements, nested assignments, components or a pointer passed to a function. |
| `StoreTargets.StoresAreFlagged` | openvdb_ax/ast/Scanners.cc:349-404 | In every run of the generated code, after any number of steps and at the return, runs that never end included, an attribute slot whose contents have changed belongs to a token that is flagged as written. |
| `Catalogue.Classify` | openvdb_ax/ast/Scanners.cc:349-404 | Climbing the parents, with its early exit, finds a variable read or written exactly when some step of its whole way up reads or writes. |
| `Catalogue.CatalogueVariables` | openvdb_ax/ast/Scanners.cc:333-405 | Every selected variable is in exactly the list that its classification names. |
| `Catalogue.CatalogueAttributeTokens` | openvdb_ax/ast/Scanners.cc:407-456 | The three lists of tokens merge the accesses of all occurrences, and none repeats a token. |
| `Catalogue.SortTokens` | openvdb_ax/ast/Scanners.cc:443-455 | Each token of the merged map goes to the list of its access. |
| `Catalogue.EverythingIsRead` | openvdb_ax/ast/Scanners.cc:393-395 | Inside a program the climb always meets a block, so every attribute is read and none is write-only. |
| `TreeFlags.WrittenIsFlagged` | openvdb_ax/ast/Scanners.cc:349-404 | What climbing from the leaves finds is what a walk from the root finds. |
| `TreeFlags.ProgramFlags` | openvdb_ax/ast/Scanners.cc:407-456 | The tokens that the scanner flags as written are exactly those the structure of the program can write to. |
| `Dependencies.FindDependencies` | openvdb_ax/ast/Scanners.cc:86-288 | From an empty list the scanner terminates and lists, without repeats, exactly the least set that holds what the variable directly depends on and is closed under the one-step relation. |
| `Dependencies.DependencyScanner.VariableDependencies` | openvdb_ax/ast/Scanners.cc:86-288 | From any list: nothing is lost, what is added is closed apart from what was listed before, and no closed set could do without it. |
| `Dependencies.DependencyScanner.ResolveUse` | openvdb_ax/ast/Scanners.cc:139-287 | One use, climbed to the root, contributes all it should, although it may be listed itself without recursion. |
| `Dependencies.EarlierUse` | openvdb_ax/ast/Scanners.cc:101-125 | An earlier use of a variable depends on no more than a later one, which is why uses may be listed without recursion. |
| `Dependencies.DirectExactly` | openvdb_ax/ast/Scanners.cc:133-288 | What a variable directly depends on, written out over the steps of the ways up from its uses: sources of assignments, calls it is an argument of, itself where it is changed in place, and the conditions of conditionals, ternaries and loops around a use that is written. |
| `Dependencies.LoopDecides` | openvdb_ax/ast/Scanners.cc:192-224 | A use that is written in a loop outside the condition depends on the variables of the condition, or of its last element if it is a comma expression; a use in the condition and one that is not written get nothing from the loop. |
| `ProgramDependencies.TargetDepends` | openvdb_ax/ast/Scanners.cc:226-248 | In terms of programs: the target of an assignment, wherever it stands, depends on every variable of its source, and on itself if the assignment is compound. |
| `ProgramDependencies.CrementDepends` | openvdb_ax/ast/Scanners.cc:143-148 | A variable that is incremented or decremented depends on itself. |
| `ProgramDependencies.InitialDepends` | openvdb_ax/ast/Scanners.cc:250-265 | A local depends on every variable of its initialiser. |
| `ProgramDependencies.BranchDepends` | openvdb_ax/ast/Scanners.cc:149-169 | A variable that a branch of a conditional assigns to has a use there that depends on every variable of the condition. |
| `ProgramDependencies.ChoiceDepends` | openvdb_ax/ast/Scanners.cc:170-191 | The same for the branches of a ternary. |
| `ProgramDependencies.LoopDepends` | openvdb_ax/ast/Scanners.cc:192-224 | A variable that a loop assigns to, in its body, its iteration or its initial statements, has a use there that depends on every variable that decides whether the loop goes on. |
| `ProgramDependencies.ArgumentDepends` | openvdb_ax/ast/Scanners.cc:266-285 | A variable under an argument of a call depends on every variable of the call. |
| `Noninterference.DependenciesSuffice` | openvdb_ax/ast/Scanners.cc:536-557 | Two runs that agree on an attribute and on every token it depends on end with the same value of that attribute, for programs without loops and jumps whose writes target plain variables, whose functions write to nothing, and whose right operands of `&&` and `||` have no effects. |
| `Noninterference.RegistryDependenciesSuffice` | openvdb_ax/compiler/AttributeRegistry.h:234-261 | The same for the dependencies that the registry records by index. |
| `Noninterference.SteadySetSuffices` | openvdb_ax/ast/Scanners.cc:133-288 | With loops of all kinds: two runs that agree on a set of variables of which no use, wherever it is, depends on another variable, and that both end, end with the same value of the attribute, however often each has gone round. |
| `Noninterference.LoopDependenciesSuffice` | openvdb_ax/ast/Scanners.cc:536-557 | So the dependencies of an attribute suffice in programs with loops whenever asking from every use of a listed variable lists nothing more. |
| `ShiftingLoop.ListedIsNotEnough` | openvdb_ax/ast/Scanners.cc:101-125 | Concrete failure: two runs of `while (i@s) { i@x = i@s; i@s = i@t; i@t = i@u; }` that agree on x and on everything listed for it end with different values of x. |
| `ShiftingLoop.NotListed` | openvdb_ax/ast/Scanners.cc:101-125 | For that program the scanner does not list t, which reaches x in the second round, among the dependencies of x. |
| `Agreement.EvalAlike` | openvdb_ax/ast/Scanners.cc:133-288 | An expression whose variables agree in two states has the same value and effects in both. |
| `Agreement.ExecKeeps` | openvdb_ax/ast/Scanners.cc:133-288 | Such a statement ends normally, or runs out of fuel if it has loops, and leaves alone what it does not assign to. |
| `AttributeRegistries.AttributeRegistry.Create` | openvdb_ax/compiler/AttributeRegistry.h:204-276 | The registry has one entry for each attribute with its exact accesses, its dependencies are those the scanner names, its uses are exactly their converse, and everything is read. |
| `AttributeRegistries.AttributeRegistry.BuildUses` | openvdb_ax/compiler/AttributeRegistry.h:263-273 | Uses are filled in as the exact converse of dependencies, without repeats. |
| `AttributeRegistries.AttributeRegistry.LinkDeps` | openvdb_ax/compiler/AttributeRegistry.h:242-253 | The dependency tokens of one entry become the indices of their entries. |
| `AttributeRegistries.AttributeRegistry.AccessPattern` | openvdb_ax/compiler/AttributeRegistry.h:137-150 | The first entry with the name, and the type if one is given, decides; without one there is no access. |
| `AttributeRegistries.AttributeRegistry.AccessIndex` | openvdb_ax/compiler/AttributeRegistry.h:160-172 | The first index with this name and type, if there is one. |
| `AttributeRegistries.AttributeRegistry.DependsOnEntry` | openvdb_ax/compiler/AttributeRegistry.h:96-101 | Whether an entry lists another among its dependencies. |
| `AttributeRegistries.AttributeRegistry.AffectsOthers` | openvdb_ax/compiler/AttributeRegistry.h:103-108 | Whether an entry has a use other than itself. |
| `AttributeRegistries.AttributeDependencyTokens` | openvdb_ax/ast/Scanners.cc:536-557 | The tokens an attribute depends on through its last use, without repeats. |
| `AttributeRegistries.UseVisitor.Traverse` | openvdb_ax/ast/Scanners.cc:459-534 | The visitor stops at the use it looks for. |
| `AttributeRegistries.LastUseIsLast` | openvdb_ax/ast/Scanners.cc:566-571 | Without do-while loops the use found backwards is the one with the greatest position. |
| `AttributeRegistries.LastUseOccurs` | openvdb_ax/ast/Scanners.cc:566-571 | What is found is a use, and nothing is found only when the variable does not occur. |
| `AttributeRegistries.FoundFirst` | openvdb_ax/ast/Scanners.cc:459-534 | The use that is found is searched before every other: where the ways up part, it is under the later child, but in a do-while loop under the condition rather than the body. |
| `AttributeRegistries.DoWhileUse` | openvdb_ax/ast/Scanners.cc:475-488 | In a do-while loop a use in the condition is found before any in the body, and otherwise the one found in the body. |
| `FunctionRegistries.FunctionRegistry.GetOrInsert` | openvdb_ax/codegen/FunctionRegistry.cc:72-101 | Terminates for every dependency graph; unregistered and internal functions are refused without a change, eager requests create one object, and lazy ones populate the registry. |
| `FunctionRegistries.FunctionRegistry.CreateDependencies` | openvdb_ax/codegen/FunctionRegistry.cc:87-98 | The loop over declarations and their dependencies leaves the requested function complete. |
| `FunctionRegistries.ExactlyNeeded` | openvdb_ax/codegen/FunctionRegistry.cc:72-101 | From any state, the functions created are exactly the old ones and those the request leads to through functions that did not exist before. |
| `FunctionRegistries.ClosedStaysClosed` | openvdb_ax/codegen/FunctionRegistry.cc:85-98 | From a closed registry the result is closed and holds exactly the old functions and all that are reachable from the request, cycles included. |
| `FunctionRegistries.FunctionRegistry.Insert` | openvdb_ax/codegen/FunctionRegistry.cc:46-55 | A second registration of an identifier is refused and changes nothing. |
| `FunctionRegistries.FunctionRegistry.InsertAndCreate` | openvdb_ax/codegen/FunctionRegistry.cc:57-70 | As above, and the object is created at once. |
| `FunctionRegistries.FunctionRegistry.Get` | openvdb_ax/codegen/FunctionRegistry.cc:103-109 | A function is found exactly when it was created and may be seen. |
| `PointLeafLocalDatas.PointLeafLocalData.GetOrInsert` | openvdb_ax/codegen/PointLeafLocalData.h:105-132 | A handle for a name, creating an empty group when there is none; existing handles stay what they were and the arrays are filled bit by bit. |
| `PointLeafLocalDatas.SlotsAreDistinct` | openvdb_ax/codegen/PointLeafLocalData.h:120-131 | Distinct new groups never share a bit of an array. |
| `PointLeafLocalDatas.AllButLastFull` | openvdb_ax/codegen/PointLeafLocalData.h:120-124 | Every bit of every array but the last belongs to a group. |
| `PointLeafLocalDatas.LayoutAdds` | openvdb_ax/codegen/PointLeafLocalData.h:126-131 | Taking the next bit keeps that layout. |
| `PointFunctions.InGroup` | openvdb_ax/codegen/PointFunctions.cc:97-121 | The query answers with the membership of exactly this point and group, except that without the handles of the tree, or without a name, it always answers no. |
| `PointFunctions.EditGroup` | openvdb_ax/codegen/PointFunctions.cc:187-220 | An edit changes the membership of exactly one point in one group, wherever the group lives; an empty name changes nothing. |
| `PointFunctions.PutMember` | openvdb_ax/codegen/PointFunctions.cc:218-219 | Writing one bit leaves every other group and point alone. |
| `PointFunctions.HandlesAreDistinct` | openvdb_ax/codegen/PointLeafLocalData.h:105-132 | No two groups share a bit, whether they live in the tree or in the leaf data. |
| `PointFunctions.MakeEdits` | openvdb_ax/codegen/PointFunctions.cc:187-220 | After any sequence of edits every membership is that of the last edit that hit it, or the initial one. |
| `PointFunctions.EditsThenQuery` | openvdb_ax/codegen/PointFunctions.cc:97-121 | A query with live handles after any sequence of edits reports the last edit of exactly that group and point, or the initial membership. |
| `PointFunctions.SetAttribStr` | openvdb_ax/codegen/PointFunctions.cc:369-398 | Whether it is stored or kept pending, setting a string changes what is read at exactly one point of one array; a stored string is no longer pending. |
| `PointFunctions.RoutesAgree` | openvdb_ax/codegen/PointFunctions.cc:369-398 | What is read after a sequence of sets follows from what was last stored and what is still pending, whichever route each set took. |
| `PointFunctions.MakeSets` | openvdb_ax/codegen/PointFunctions.cc:369-398 | After any sequence of sets, on both routes, every point of every array reads the last string set for it, or the one it had. |
| `PointFunctions.SetsThenRead` | openvdb_ax/codegen/PointFunctions.cc:487-592 | The size and the text read after any sequence of sets are those of the last string set for that array and point, up to a NUL character; the size is the length of the text exactly when there is none. |
| `PointFunctions.GetAttribStr` | openvdb_ax/codegen/PointFunctions.cc:487-512 | The buffer receives the last string set, or the stored one, up to its first NUL character, and all of it if it has none. |
| `PointFunctions.CopiedWhole` | openvdb_ax/codegen/PointFunctions.cc:510-511 | A string survives being copied as a C string exactly when it contains no NUL character. |
| `PointFunctions.StrAttribSize` | openvdb_ax/codegen/PointFunctions.cc:570-592 | The size is the length of the string that is read. |
| `PointLeafLocalDatas.PointLeafLocalData.SetNewStringData` | openvdb_ax/codegen/PointLeafLocalData.h:203-206 | Exactly one pending string is set. |
| `PointLeafLocalDatas.PointLeafLocalData.RemoveNewStringData` | openvdb_ax/codegen/PointLeafLocalData.h:214-220 | Exactly one pending string is dropped, and no array is left without pending strings. |
| `PointLeafLocalDatas.PointLeafLocalData.GetNewStringData` | openvdb_ax/codegen/PointLeafLocalData.h:186-194 | The pending string of a point, if any. |
| `PointLeafLocalDatas.PointLeafLocalData.InsertNewStrings` | openvdb_ax/codegen/PointLeafLocalData.h:228-236 | The inserter receives exactly the pending strings, and the result is true exactly when some string is pending. |
| `Overloads.BestFirst` | openvdb_ax/codegen/FunctionTypes.cc:392-416 | An explicit candidate wins over every implicit one, the first of a kind wins, and the reported kind is that of the best candidate and agrees with the target. |
| `Overloads.MatchGroup` | openvdb_ax/codegen/FunctionTypes.cc:392-416 | The loop with its early return and remembered candidate computes that resolution. |
| `Overloads.MatchSignature` | openvdb_ax/codegen/FunctionTypes.cc:167-208 | The loop over parameters computes how well a signature fits. |
| `Acceptance.MatchesExactly` | openvdb_ax/codegen/FunctionTypes.cc:167-208 | The exact conditions of no match, an explicit and an implicit one, argument by argument: any scalar goes for any scalar, arrays of scalars for arrays of the same sizes, a string for a char, by value or behind a pointer that is not written through. |
| `Acceptance.ResolvesExactly` | openvdb_ax/codegen/FunctionTypes.cc:392-416 | A group resolves if and only if one of its signatures takes every argument. |
| `Acceptance.ScalarsResolve` | openvdb_ax/codegen/Utils.h:386-404 | A group with an overload of n scalars resolves for any n scalars. |
| `Overloads.Cast` | openvdb_ax/codegen/FunctionTypes.cc:227-260 | Arguments are cast in place, as many as there are parameter types. |
| `Overloads.CallsAreWellTyped` | openvdb_ax/codegen/FunctionTypes.cc:418-442 | The arguments of a resolved call have exactly the types of the signature if and only if no argument that a cast leaves alone (a pointer to one scalar, or an array or string by value) differs from its parameter. |
| `Overloads.GeneratedCallsAreWellTyped` | openvdb_ax/codegen/FunctionTypes.cc:418-442 | For the argument types that user programs produce, every resolved call type-checks. |
| `Overloads.InertArgumentIsPassedUncast` | openvdb_ax/codegen/FunctionTypes.cc:196-204 | Concrete failure: a pointer to float is accepted for a read-only pointer to double and passed uncast. |
| `Modulo.FloorMod` | openvdb_ax/codegen/StandardFunctions.cc:1052-1058 | The C form computes D - d * floor(D / d) over the real quotient, at 16, 32 and 64 bits, and its correction stays in range. |
| `Modulo.EuclideanMod` | openvdb_ax/codegen/StandardFunctions.cc:1112-1121 | The C form computes D - d * (floor or ceiling of D / d, by the sign of d), in range. |
| `Modulo.RemIsTruncated` | openvdb_ax/codegen/StandardFunctions.cc:1022-1028 | The machine remainder is D - d * trunc(D / d). |
| `Modulo.FlooredIs` | openvdb_ax/codegen/StandardFunctions.cc:1050-1108 | Floored modulo corrects the remainder by d when their signs differ, and lies between zero and d on the side of d. |
| `Modulo.EuclideanIs` | openvdb_ax/codegen/StandardFunctions.cc:1110-1170 | Euclidean modulo lies in [0, |d|). |
| `Modulo.EmittedFormsAgree` | openvdb_ax/codegen/StandardFunctions.cc:1067-1088 | Both branch-free forms, whose unselected sums may wrap around, compute what the C forms compute. |
| `Modulo.AllCongruent` | openvdb_ax/codegen/StandardFunctions.cc:1020-1170 | All three results are congruent modulo the divisor. |
| `Modulo.OnlyOne` | openvdb_ax/codegen/StandardFunctions.cc:1050-1170 | Range and congruence determine floored and Euclidean modulo. |
| `Modulo.WhereTheyDiffer` | openvdb_ax/codegen/StandardFunctions.cc:1043-1168 | The three agree exactly when the division is exact or the signs that matter are positive. |
| `Reprint.ReprintVisitor.Traverse` | openvdb_ax/ast/PrintTree.cc:631-785 | The visitor appends exactly the text of an expression, which `Rereading` reads back, to its stream, blanks included. |
| `Reprint.ReprintVisitor.TraverseAll` | openvdb_ax/ast/PrintTree.cc:752-773 | Children are separated by commas, with none after the last. |
| `Reprint.ParsePrinted` | openvdb_ax/ast/PrintTree.cc:715-729 | Reading back: a recursive descent parser returns the expression that a reader of the text sees and leaves the tokens that follow it. |
| `Reprint.UniquelyReadable` | openvdb_ax/ast/PrintTree.cc:631-640 | Two expressions without ternaries, assignments and crements, with components of variables only, are reprinted as the same tokens of the lexer if and only if they differ in nothing but literals that look alike and in whether a type was inferred. |
| `Reprint.ExactlyReadable` | openvdb_ax/ast/PrintTree.cc:709-785 | Without floating point literals, integer literals that overflow their type and inferred types, only equal expressions are reprinted alike. |
| `Reprint.LiteralsAlike` | openvdb_ax/ast/PrintTree.cc:900-912 | Two literals look alike exactly when they are equal, when they are integers of one type that are cut down to one value, when they are finite floats or doubles that the stream formats alike, or when a double is formatted like an int32. |
| `Reprint.ParsesBack` | openvdb_ax/ast/PrintTree.cc:709-785 | Unless two signs come together, the tokens of a reprinted expression are read back as the expression a reader sees. |
| `Rereading.PrintedIsReread` | openvdb_ax/ast/PrintTree.cc:631-785 | Round trip: a plain expression whose literals read back as themselves and in which no plus or minus is applied to the same sign is read back, from the tokens of its reprint, as exactly itself. |
| `Rereading.TextsRead` | openvdb_ax/ast/PrintTree.cc:631-785 | The expression a reader of the text sees, read from its structure alone, is the expression that was printed. |
| `Rereading.WhichReadBack` | openvdb_ax/ast/PrintTree.cc:900-912 | Booleans, strings and integers of 32 and 64 bits that do not overflow read back as themselves; an int16 and an integer that overflows do not. |
| `Reprint.LexedApart` | openvdb_ax/grammar/axlexer.l:99-145 | The lexer returns the tokens as they were written if and only if no sign is followed at once by the same sign or its double. |
| `Reprint.IntegerReadBack` | openvdb_ax/grammar/axlexer.l:259-300 | What an integer literal is read back as: the value of its container in its type, an int16 as an int32, and a negative value as a negated literal. |
| `Reprint.ReadBackItself` | openvdb_ax/codegen/ComputeGenerator.cc:1219-1232 | An integer literal is read back as itself if and only if it is no int16 and its container is at most the maximum of its type. |
| `Reprint.OverflowsAreAmbiguous` | openvdb_ax/ast/AST.h:2351-2351 | Concrete failure: the int32 literal 4294967295 is printed like a negated 1, and 4294967297 like 1. |
| `Reprint.InfinityIsAName` | openvdb_ax/grammar/axlexer.l:302-340 | Concrete failure: an infinite double is printed like a variable named inf, and a float like inff. |
| `Reprint.WholeFloatsAreTwoTokens` | openvdb_ax/ast/PrintTree.cc:900-912 | Concrete failure: a float that is formatted without a point or exponent is printed as a number and a name. |
| `Reprint.SignsReadAsCrement` | openvdb_ax/ast/PrintTree.cc:709-713 | Concrete failure: a variable negated twice is printed like its decrement. |
| `Reprint.DoubleReadsAsInt` | openvdb_ax/ast/PrintTree.cc:900-912 | Concrete failure: the double one is printed as the int32 one. |
| `Reprint.TernariesAreAmbiguous` | openvdb_ax/ast/PrintTree.cc:731-742 | Failure for any three expressions: two different nestings of ternaries over them are printed alike. |

## Left out

- Strings in generated code: their literals, defaults, concatenation and assignment copy memory through library calls.
- External variables in generated code: they are constants at addresses outside the kernel; the scanner model has them.
- Rounding and NaN: scalar operations are uninterpreted total functions, so the modulo functions are tied to their formulas on integers only.
- Uninitialised locals: a slot that was never stored to reads as zero.
- The logger: generation stops at the first error, so error limits, warnings and the errors after the first are not modelled.
- Declarations inside conditions, and keywords inside `for` initialisers: the grammar does not produce the latter.
- The memory of new arrays: an array that was computed is held in a register, not in the stack slot the code allocates for it.
- Component access to arrays that are no variables, and assignments to them: the grammar produces neither.
- The bodies of library functions, those that multiply matrices included.
- Token strings: attribute tokens are pairs of a type and a name, so their parsing is not modelled.
- Iteration order of hash maps and of sorted outputs: lists of tokens are specified by membership and absence of repeats.
- Component accesses out of range, and `AST` editing with `replacechild`: the tree is immutable with a derived parent relation.
- LLVM itself: optimisation passes, module verification, the JIT and the calling convention of kernels.
- `createAll` of the function registry: it recreates every object and only prints warnings.
- Compaction of group arrays and the transfer of new groups and strings to the tree after a run.
- Compilation.PointsEndToEnd: does not cover programs with strings or external variables, which the model does not have.
- Compilation.VolumesEndToEnd: does not cover programs with strings or external variables, which the model does not have.
- Preservation.CompilerCorrect: does not cover programs with strings or external variables, which the model does not have.
- Frames.GenerationSucceeds: does not cover programs with strings or external variables, which the model does not have.
- ExprSimulation.SimExpr: does not cover string literals and external variables.
- ExprSimulation.SimCall: does not cover string arguments.
- InstrSimulation.SimEmitCall: does not cover string arguments.
- IrBuilder.InstructionBuilder.CastArguments: does not cover the cast of a string to a character pointer.
- Generator.ComputeGenerator.VisitCall: does not cover string arguments.
- Generator.ComputeGenerator.VisitDeclare: does not cover the empty string that string variables begin with.
- RangeGenerator.EmittedIsLoop: a call of the point kernel is one step of the range function, however long the kernel takes.
- Noninterference.DependenciesSuffice: does not cover loops, where it is false (`ShiftingLoop.ListedIsNotEnough`), nor jumps, component access, functions that write behind their arguments and effects on the right of `&&` and `||`, because the scanner does not track these flows.
- Noninterference.LoopDependenciesSuffice: one direction only, as a program may assign without effect; conditions of loops have no effects, and jumps are left out as above.
- Rereading.PrintedIsReread: floating point literals are read by a parameter, and those it does not read back as they were are not covered.
- Reprint.UniquelyReadable: does not cover assignments and crements, whose reprint is not parenthesised either, and strings that the lexer does not produce.
- ExprSimulation.SimComponent: an index selects a cell of the slot without a bounds check, as in the code.
- PointLeafLocalDatas.AllButLastFull: group bits are booleans, so the packing of eight of them into a byte by the point library is not modelled.
