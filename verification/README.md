# A verified model of the Odin compiler's code generator

The compiler translates Odin to LLVM IR in one pass over the syntax tree. This project models the parts of it that carry
an algorithm of their own, and proves that they do what the language promises, or exactly when they do.

* **Lowering to a control-flow graph** (`Cfg`, `Source`, `Lower`, `Statements`, `Generator`). `Source` gives expressions
  and statements an evaluator; `Cfg` gives the emitted blocks an interpreter with registers, memory, traps and undefined
  behaviour. `Lower` and `Statements` say what is emitted, as functions of the generator's state; `Generator` is the
  generator as it works, one object whose blocks, builder position and loop stack are updated in place, each method
  proved against those functions. `ExprCorrect` and `StmtCorrect` (with `Words`, `Arithmetic`, `Simulation`, `SearchLoop`,
  `Growth`) prove that meaning is preserved, `Shape`, `ExprShape` and `StmtShape` that the graph is well formed;
  `Procedures` states both for whole procedures. `MixedWidths`, `Ranges`, `Fallthrough`, `CaseLists`, `NarrowIndex` and
  `UnsignedOperands` (over `Instructions`) treat what goes wrong: booleans of two widths, one upper bound, fallthrough
  behind a nested switch, clauses with several values, short indices, and unsigned types.
* **Defers** (`Defers`, `DeferDiscipline`, `DeferStack`, `DeferOrder`, `DeferMeaning`, `DeferExact`, `DeferCount`,
  `DeferProcedures`, `DeferGenerator`). One stack serves all scopes; it is emitted and compacted at scope ends, before
  jumps and before returns. The order emitted is compared with a reference that knows no stack: a defer is its code moved
  behind the rest of its scope.
* **Polymorphic types** (`Poly`, `PolyEnv`, `TypeCache`, `Instantiations`): matching patterns with `$T` and `$N` against
  types, resolving them again under a stack of environments, the cache of instantiations, and when instantiation ends.
* **Emitted run-time structures**: maps over raw bytes (`MapLayout`, `MapCode`), decimal text of integers
  (`IntToString`), bit fields and bit sets (`Bits`, `BitField`, `BitSet`), matrices in two layouts (`Matrix`).
* **The compiler's own structures**: the chained hash table with in-place rehash (`HashTable`), the symbols of a
  scope in it (`SymbolTable`), and the scope stack with late freeing (`Scopes`).
* **Constants**: escapes in string literals (`Escape`), the two compile-time evaluators and when-chains (`ConstEval`).

Where the code does not do what one would expect, the model follows the code, a lemma shows an input, and another one
says for which inputs all is well:

* `in` compared with a one-bit boolean: `MixedWidths.SevenIsInSeven`, `MixedWidths.MixedComparison`;
* `in` assigned to a boolean variable, which stores eight bytes over one: `MixedWidths.FlagOverwritten`,
  `StmtCorrect.AssignStores`;
* clauses with several values: `CaseLists.SecondValueMissed`, `CaseLists.EntersSame`, `CaseLists.RightExactly`;
* a switch without an expression: `CaseLists.TaglessDropped`, `CaseLists.DropExactly`;
* division, remainder, right shift and comparison of unsigned integers: `UnsignedOperands.TwoHundred`,
  `UnsignedOperands.OperatorExactly`, `UnsignedOperands.ComparisonExactly`;
* negative indices of fewer than 64 bits: `NarrowIndex.MinusOnePasses`, `NarrowIndex.DecidesAll`;
* a range up to and including the largest integer: `Ranges.LastIsMissed`, `Ranges.IncludesBound`;
* a loop inside 64 others: `Statements.PushPop`;
* `fallthrough` behind a nested switch: `Fallthrough.FallthroughLost`, `Fallthrough.Dropped`;
* defers and conditional exits: `DeferProcedures.EarlyReturnLosesDefer`, `DeferProcedures.ProcedureOrderExact`;
* nameless specializations: `Poly.NamelessSpec`, `Poly.SpecRoundTrip`;
* a full instantiation cache: `TypeCache.FullCache`, `TypeCache.RunTransparent`;
* type applications inside themselves: `Instantiations.SelfApplicationNeverEnds`, `Instantiations.EndsRanked`;
* an operand whose sign spills over a bit field's neighbours: `BitField.SmearedSign`, `BitField.FitsInside`;
* a bit field that is the whole word and narrower than its type, and an unsigned operand narrower than the field:
  `BitField.NegativeReadBack`, `BitField.WideReadBack`, `BitField.ReadBack`;
* `+` between bit sets: `BitSet.ZeroPlusZero`, `BitSet.WordIsSet`;
* -1 in where-clauses and conjunctions in when-chains: `ConstEval.MinusOneUnseen`, `ConstEval.WhereSound`,
  `ConstEval.LogicalConditionPassedOver`, `ConstEval.ChainSelects`;
* the size of a map's allocation: `MapLayout.AllocationHolds`, `MapCode.Data.constructor`.

`dafny verify dfyconfig.toml` checks the whole project.

## Model

| member | source | states |
|---|---|---|
| Procedures.ProcedureRuns | src/ir_gen_statement.c:83-931 | meaning preservation: for every legal procedure body, store and terminating source run, the emitted graph halts with the source's result and variables from some step on for ever; it traps exactly when a checked index is out of range, and is stuck exactly when the source is undefined |
| Procedures.ProcedureDiverges | src/ir_gen_statement.c:83-931 | the emitted graph runs for ever exactly when the source does not end for any number of loop iterations |
| StmtCorrect.StmtRuns | src/ir_gen_statement.c:229-931 | the same for one statement in any context: a normal end arrives where the builder is left, break, continue and fallthrough arrive at the innermost target, return halts, and the variables agree; a source run that has not ended after some number of nested iterations corresponds to a machine still running after as many steps |
| StmtCorrect.AllRuns | src/ir_gen_statement.c:217-226 | the same for a list of statements, variables going out of scope at its end |
| StmtCorrect.IfRuns | src/ir_gen_statement.c:229-305 | an if without else runs its arm exactly when the condition holds and joins behind it |
| StmtCorrect.IfElseRuns | src/ir_gen_statement.c:229-305 | exactly one arm runs, and both join unless they leave |
| StmtCorrect.IterateRuns | src/ir_gen_statement.c:584-734 | a conditional for: every number of iterations, with break to the end block and continue back to the test |
| StmtCorrect.CountRuns | src/ir_gen_statement.c:310-436 | a range for from any value of its variable up to the bound it was given, also when the body assigns to the variable; which bound an inclusive range gets is the subject of Ranges.IncludesBound |
| Ranges.IncludesBound | src/ir_gen_operator.c:750-777 | a range written with its last value is counted to that value, whatever the body, exactly when it is not the largest integer |
| Ranges.NoneToLast | src/ir_gen_statement.c:399-403 | up to the largest integer no iteration is run, wherever the loop starts |
| Ranges.LastIsMissed | src/ir_gen_operator.c:763-767 | a procedure whose loop over the largest integer alone should return 1 is emitted, run, and returns 2 |
| StmtCorrect.SelectRuns | src/ir_gen_statement.c:735-931 | a switch compares with the first value of one clause after the other and enters the first equal one or the default |
| StmtCorrect.RunFromRuns | src/ir_gen_statement.c:840-900 | a clause runs its body and, on fallthrough, goes on in the next clause's body without another comparison |
| StmtCorrect.SwitchRuns | src/ir_gen_statement.c:735-931 | the whole switch, with break leading behind it |
| CaseLists.EntersSame | src/ir_gen_statement.c:810-832 | with several values in a clause, in any store and whatever the values depend on or fail with, the emitted comparisons end at the clause, or with the failure, that the source's end with exactly when no value but a clause's first ends the search |
| CaseLists.RightExactly | src/ir_gen_statement.c:810-900 | when no value fails, the emitted switch does what the source does, for all bodies without fallthrough, exactly when the clause entered is met by its first value |
| CaseLists.FittingQuiet | src/ir_gen_statement.c:816-832 | later values that have a value in every store with the declared variables cause no failure anywhere, also after a fallthrough: legal bodies keep the variables' types |
| CaseLists.SwitchListRuns | src/ir_gen_statement.c:735-931 | when no later value ends the search or fails where it is run, the emitted code arrives where the source's switch over all values goes, fallthrough included, with the later values lowered as statements in front of the body |
| CaseLists.SecondValueMissed | src/ir_gen_statement.c:816-832 | a procedure whose second case value should return 7 is emitted, run, and returns 9 |
| CaseLists.DropExactly | src/ir_gen_statement.c:771-772 | a switch without an expression is dropped: whatever its bodies do, the machine, having run nothing, is where the switch goes exactly when every condition has a value other than true in the store and there is no default |
| CaseLists.TaglessDropped | src/ir_gen_statement.c:771-772 | a procedure with such a switch on a condition over a variable that should return 7 is emitted, run, and returns 9 |
| Statements.PushPop | src/ir_gen_statement.c:673-729 | leaving a loop undoes entering it exactly when fewer than 64 were open; otherwise it forgets the 64th, and a break behind it leads out of the 63rd |
| Fallthrough.Dropped | src/llvm_ir_generator.c:3392-3397 | behind legal statements of a clause a fallthrough is lowered to nothing exactly when a switch is among them, and otherwise to a jump to the next clause's body |
| Fallthrough.FallthroughLost | src/ir_gen_statement.c:888 | a procedure that should fall through to return 7 is emitted and run as if the fallthrough were not there, and returns 9 |
| StmtCorrect.DeclareRuns | src/ir_gen_var_decl.c:53-260 | a declaration zeroes the slot, evaluates, coerces and stores |
| StmtCorrect.AssignRuns | src/ir_gen_assign.c:1466-1597 | plain and compound assignment to a variable, of a value held at the variable's width, store the updated value |
| StmtCorrect.AssignStores | src/ir_gen_assign.c:1560-1593 | for an expression held at any width: when the source's assignment succeeds, the emitted one does the same exactly when the value is held no wider than the variable's slot, and is undefined otherwise |
| StmtCorrect.AssignElemRuns | src/ir_gen_assign.c:254-330 | assignment to an array element evaluates the value, then the checked index; out of range traps and stores nothing |
| ExprCorrect.ExprRuns | src/ir_gen_operator.c:556-860 | for every typed expression the emitted code ends with the source value in the result operand, traps exactly when an evaluated index is out of range, and keeps registers and variables |
| ExprCorrect.LogicalRuns | src/ir_gen_operator.c:86-152 | a short-circuit operator evaluates the right operand only when it decides the result, whatever blocks it splits |
| ExprCorrect.OrElseRuns | src/ir_gen_assign.c:824-914 | or_else evaluates the right operand exactly when the left one is zero |
| ExprCorrect.TernaryRuns | src/ir_gen_assign.c:952-1014 | exactly one branch of a ternary is evaluated |
| ExprCorrect.IndexRuns | src/llvm_ir_generator.c:910-951 | a checked index loads the element or traps |
| ExprCorrect.MemberRuns | src/ir_gen_operator.c:154-302 | in and not_in over an array |
| ExprCorrect.BinaryRuns | src/ir_gen_operator.c:556-784 | arithmetic and comparison after coercing the right operand |
| ExprCorrect.UnaryRuns | src/ir_gen_operator.c:788-870 | negation and complement |
| ExprCorrect.NotRuns | src/ir_gen_operator.c:788-870 | not, of a value held at any width |
| Arithmetic.ArithAgrees | src/ir_gen_operator.c:640-760 | the machine instruction of each arithmetic operator computes the wrapped source value on 64-bit words, and is undefined for the same operands |
| Arithmetic.RelAgrees | src/ir_gen_operator.c:640-760 | signed comparison of words is comparison of the integers |
| Simulation.UnsignedCatchesBoth | src/llvm_ir_generator.c:926-927 | one unsigned comparison rejects exactly the negative and the too large indices |
| Simulation.BoundsCheckRuns | src/llvm_ir_generator.c:910-951 | for 64-bit indices the emitted check traps for exactly those and goes on otherwise |
| NarrowIndex.CheckRuns | src/llvm_ir_generator.c:910-951 | for indices of any width up to 64 it traps exactly when the index, read without its sign, is not below the length |
| NarrowIndex.DecidesAll | src/llvm_ir_generator.c:922-927 | that decides every index of a width right exactly when the array is no longer than the width has non-negative numbers |
| NarrowIndex.MinusOnePasses | src/llvm_ir_generator.c:922-923 | -1 as an 8-bit index into 300 elements passes as 255 |
| SearchLoop.LoopRuns | src/ir_gen_operator.c:232-292 | the search loop reaches merge from found exactly when the value is among the cells, for every length |
| UnsignedOperands.OperatorExactly | src/ir_gen_operator.c:648-681 | for unsigned operands of any width above one bit the emitted instruction of each arithmetic operator computes what the operator means exactly when the given condition on the operands' top bits holds; without top bits it always does |
| UnsignedOperands.ComparisonExactly | src/ir_gen_operator.c:682-724 | and a comparison by order is right exactly when both operands have the same top bit |
| UnsignedOperands.TwoHundred | src/ir_gen_operator.c:666-707 | for u8, 200 < 100 holds, 200 / 2 is 228, 200 % 3 is 254 and 200 >> 1 is 228 |
| Instructions.RingNumbers | src/ir_gen_assign.c:762-805 | at any width, sum, difference, product and left shift are the exact ones modulo the width, read with a sign or without, and exact exactly when the result is in range |
| Instructions.SignedNumbers | src/ir_gen_assign.c:782-795 | quotient, remainder and right shift, where defined, are those of the signed numbers |
| Instructions.BitwiseBits | src/ir_gen_assign.c:796-802 | and, or and xor work bit by bit |
| Instructions.SixtyFour | src/ir_gen_assign.c:762-805 | the instructions of any width are, at 64 bits, the ones the machine runs |
| MixedWidths.MixedComparison | src/ir_gen_operator.c:632-640 | a boolean comparison whose left operand is 64 bits wide (an `in`) and whose right operand is one bit wide gives the source's result exactly when the operands are not both true: the narrow one is sign-extended |
| MixedWidths.SevenIsInSeven | src/ir_gen_operator.c:632-640 | comparing `7 in arr` with true, over an array that holds 7, is lowered, run, and yields false |
| MixedWidths.FlagOverwritten | src/ir_gen_assign.c:1560-1593 | `b = 7 in arr`, over an array that holds 7, is lowered and run; the store is wider than b |
| Procedures.ProcedureTidy | src/ir_gen_statement.c:229-931 | for every legal body: each block has exactly one terminator, at its end, no jump dangles, and each phi lists exactly the predecessors of its block |
| StmtShape.StmtTidy | src/ir_gen_statement.c:229-931 | a statement only appends: blocks left behind are closed and never changed later, jumps out go to the permitted targets only, and the loop stack is restored |
| StmtShape.AllTidy | src/ir_gen_statement.c:217-226 | the same for a list |
| StmtShape.SwitchTidy | src/ir_gen_statement.c:735-931 | the same for a switch and all its clauses |
| ExprShape.ExprTidy | src/ir_gen_operator.c:86-152 | an expression leaves one open block, closes all others it made, and its phis are exact however deep operands split blocks |
| ExprShape.LogicalTidy | src/ir_gen_operator.c:101-148 | the phi of a short-circuit operator names the block in which the right operand ended, not the one it started in |
| ExprShape.OrElseTidy | src/ir_gen_assign.c:857-910 | the same for or_else |
| ExprShape.TernaryTidy | src/ir_gen_assign.c:984-1011 | the same for both branches of a ternary |
| ExprShape.SearchTidy | src/ir_gen_operator.c:232-292 | the six blocks of a search loop are closed and their phi is exact |
| Growth.ExprGrows | src/ir_gen_operator.c:86-152 | lowering extends the current block and adds blocks, and changes nothing else |
| Generator.Builder.BoundsCheck | src/llvm_ir_generator.c:910-951 | appends cont and trap, branches, fills trap, goes on in cont: the state is the one of Lower.BoundsCheck |
| Generator.Builder.GenShortCircuit | src/ir_gen_operator.c:86-152 | the updates of the builder amount to Lower.LowerLogical |
| Generator.Builder.GenOrElse | src/ir_gen_assign.c:824-914 | … to Lower.LowerOrElse |
| Generator.Builder.GenTernary | src/ir_gen_assign.c:952-1014 | … to Lower.LowerTernary |
| Generator.Builder.GenSearch | src/ir_gen_operator.c:232-302 | the loop built block by block is Lower.Search |
| Generator.Builder.GenBinary | src/ir_gen_operator.c:556-784 | … to Lower.LowerBinary |
| Generator.Builder.GenExpr | src/llvm_ir_generator.c:3156-3340 | dispatch on the node, to Lower.LowerExpr |
| Generator.Builder.GenIfElse | src/ir_gen_statement.c:229-305 | … to Statements.LowerIfElse |
| Generator.Builder.GenFor | src/ir_gen_statement.c:584-734 | pushes and pops the loop stack: … to Statements.LowerFor |
| Generator.Builder.GenForRange | src/ir_gen_statement.c:310-436 | … to Statements.LowerForRange |
| Generator.Builder.GenSwitch | src/ir_gen_statement.c:735-931 | appends the body blocks in a loop and lowers clause after clause: … to Statements.LowerSwitch |
| Generator.Builder.GenStmt | src/llvm_ir_generator.c:3338-3397 | dispatch on the statement, to Statements.LowerStmt |
| Generator.Builder.GenProcedure | src/llvm_ir_generator.c:1208-1225 | the body in the entry block, closed by a return if it is still open |
| DeferProcedures.ProcedureOrderExact | src/ir_gen_statement.c:7-63 | for every procedure without dead statements whose deferred code does something: the emitted code is the reference code (each scope's defers, last first, at its end and before every exit) exactly when no conditional exit stands where defers are pending |
| DeferProcedures.ProcedureOrder | src/ir_gen_statement.c:7-63 | for every safe body generation ends, the code is the reference code, nothing stays pending; defers inside deferred blocks included |
| DeferMeaning.GenOrder | src/llvm_ir_generator.c:3340-3406 | the same for any statement in any state, relative to what is pending for a return and for a jump |
| DeferMeaning.EmitCode | src/ir_gen_statement.c:7-52 | an emission emits the matching entries from the top down, each as its reference code |
| DeferProcedures.EarlyReturnLosesDefer | src/ir_gen_statement.c:54-63 | `defer A; if c { return }; B`: the path that does not return never runs A |
| DeferProcedures.LooseDeferRunsAlways | src/llvm_ir_generator.c:3399-3406 | a defer that is a branch by itself runs at the end of the enclosing block whether the branch was taken or not |
| DeferProcedures.DeferredReturnNeverEnds | src/ir_gen_statement.c:54-63 | a return inside deferred code makes generation recurse for ever |
| DeferProcedures.DeferForgotten | src/llvm_ir_generator.c:3400 | a defer is dropped exactly when the stack holds 128 entries |
| DeferDiscipline.GenSteps | src/llvm_ir_generator.c:3340-3406 | over every run: scope depths do not decrease along the stack, entries of outer code survive, the stack is cut somewhere and then grows at the current depth only, and generation ends |
| DeferDiscipline.BlockSteps | src/llvm_ir_generator.c:3340-3347 | the stack after a compound statement is a prefix of the stack before it |
| DeferDiscipline.EmitSteps | src/ir_gen_statement.c:7-52 | each emission removes exactly a suffix |
| DeferDiscipline.KeepIsPrefix | src/ir_gen_statement.c:18-27 | the in-place compaction keeps exactly the entries below the first match |
| DeferStack.StackAfter | src/ir_gen_statement.c:7-63 | exactly what a statement leaves on the stack, read off its returns and jumps |
| DeferStack.KeepsAll | src/ir_gen_statement.c:42-62 | a statement keeps every pending defer exactly when its returns find the stack empty and its jumps find nothing pending since the loop |
| DeferGenerator.Context.Compact | src/ir_gen_statement.c:18-27 | the read and write indices move over the array: what remains is Keep of what was there |
| DeferGenerator.Context.EmitMatching | src/ir_gen_statement.c:10-17 | the loop from the top, during which generated code may itself push and emit |
| DeferGenerator.Context.EmitAtDepth | src/ir_gen_statement.c:7-28 | emission at the end of a scope |
| DeferGenerator.Context.EmitFromDepth | src/ir_gen_statement.c:30-52 | emission before a break or continue |
| DeferGenerator.Context.EmitAll | src/ir_gen_statement.c:54-63 | emission before a return empties the stack |
| DeferGenerator.Context.GenStmt | src/llvm_ir_generator.c:3340-3406 | the fields of the context go where Defers.Gen says |
| Poly.UnifyThenResolve | src/polymorphism.c:1552-1680 | matching a pattern with the type a substitution gives binds exactly what the substitution says, and resolving the pattern under the result gives the type back exactly when the names it needs are bound, which the pattern and the names known before decide |
| Poly.RoundTrip | src/polymorphism.c:1552-1680 | for pointers, slices, dynamic arrays, multi-pointers and arrays in any nesting, names repeated or not: every name is bound, nothing else is, and resolve undoes unify |
| Poly.SpecRoundTrip | src/polymorphism.c:1552-1680 | `$M/P` is bound and resolves exactly when P has a name below its outermost constructor |
| Poly.UnifyBinds | src/polymorphism.c:1552-1680 | the match itself, with any type that has the pattern's constructors, arrays or vectors of lanes: which slots are filled and what it reports, from any environment |
| Poly.OtherShape | src/polymorphism.c:1564-1680 | a type whose constructors differ from the pattern's above the first name binds nothing and reports nothing |
| Poly.UnifyAnyType | src/polymorphism.c:1552-1680 | matching with any type at all binds the names above the first constructor that differs, and no others |
| Poly.UnifyKeeps | src/polymorphism.c:1443-1491 | whatever is matched with whatever, no value that is known is changed, only names of the pattern are added, and never more than sixteen slots |
| Poly.SizeBinds | src/polymorphism.c:1590-1616 | a positive count or number of lanes gets into the size's slot if that is new or still zero |
| Poly.SpecBoundExactly | src/polymorphism.c:1657-1680 | `$M/P` with names of its own binds M, to the whole type, exactly when the type has P's shape and P has a name below its outermost constructor |
| Poly.SliceOfPointer | src/polymorphism.c:1622-1652 | `[]$T` and `$M/[]$E` bind nothing from a pointer |
| Poly.ParamBinds | src/polymorphism.c:1194-1330 | the same from the parameter down |
| Poly.ResolveGives | src/sem_type_resolver.c:317-523 | resolving under an environment that agrees with a substitution gives the substituted type, or nothing |
| Poly.TypeResolves | src/sem_type_resolver.c:1569-1618 | a name bound in the top environment resolves to its type |
| Poly.InnermostSlot | src/polymorphism.c:1114-1131 | the innermost environment with a type slot of that name decides, by its first one, bound or not |
| Poly.InnermostSize | src/polymorphism.c:1134-1154 | and likewise the innermost integer slot for a size |
| Poly.SizeWithoutInteger | src/sem_type_resolver.c:346-403 | a size name without an integer slot is taken for the element type |
| Poly.NamelessSpec | src/polymorphism.c:1552-1680 | `$M/[]int` leaves M unbound |
| Poly.RepeatedSpec | src/polymorphism.c:1586-1606 | nor is M bound when the pattern's names all have values and stand in an array |
| Poly.DeclaredInArray | src/polymorphism.c:1593-1606 | an array does not fill a slot declared without a value |
| PolyEnv.Env.BindType | src/polymorphism.c:1443-1466 | first slot of the name is filled only if unbound; a new slot is added while there is room |
| PolyEnv.Env.BindInt | src/polymorphism.c:1468-1491 | an integer slot is set only while it is zero |
| PolyEnv.Env.Unify | src/polymorphism.c:1552-1680 | the environment's array ends up as Poly.Unify says |
| PolyEnv.Stack.LookupType | src/polymorphism.c:1114-1131 | the search from the top, environment by environment |
| PolyEnv.Stack.ResolveType | src/sem_type_resolver.c:317-523 | resolution under the stack is Poly.Resolve |
| PolyEnv.Instantiate | src/polymorphism.c:1194-1330 | bind, push, resolve, pop: the argument's type comes back and the stack is as before |
| TypeCache.SameDescriptor | src/sem_type_resolver.c:1926-1981 | anywhere in any run with at most 256 keys, two applications return the same descriptor exactly when origin and arguments are equal |
| TypeCache.RunTransparent | src/sem_type_resolver.c:1926-1981 | the same as an invariant of one application with everything nested in it |
| TypeCache.RunKeeps | src/sem_type_resolver.c:1957-1981 | the environment stack is restored, stored entries never change, entries are only added |
| TypeCache.FindsKey | src/sem_type_resolver.c:1926-1954 | a hit means full equality of origin and arguments, although a comparison looks at one of two arrays only |
| TypeCache.NoSelfNesting | src/sem_type_resolver.c:1957-1968 | in any resolution that ends an instantiation does not meet its own key inside |
| Instantiations.EndsExactly | src/sem_type_resolver.c:1926-1981 | resolving a type application ends exactly when the applications below it form a finite tree |
| Instantiations.EndsRanked | src/sem_type_resolver.c:1926-1981 | and exactly when the applications reachable from it can be ranked so that each body contains lower ones only |
| Instantiations.ResolveIsRun | src/sem_type_resolver.c:1926-1981 | and then, with any cache, it does what the run over that tree does |
| Instantiations.SelfApplicationNeverEnds | src/sem_type_resolver.c:1957-1968 | an application that its own body contains is never resolved, because the entry is stored only after the body |
| TypeCache.FullCache | src/sem_type_resolver.c:1971 | once the cache is full a new key gets a new descriptor every time |
| TypeCache.Cache.IsMatch | src/sem_type_resolver.c:1929-1944 | the argument loop with its early exit decides Matches |
| TypeCache.Cache.Instantiate | src/sem_type_resolver.c:1926-1981 | lookup, push, nested applications, pop, store: the state is the one of Run |
| MapCode.Data.Replay | src/ir_gen_assign.c:47-249 | any run of reads and assignments on the bytes answers as the finite map of bounded capacity does, and leaves it |
| MapCode.Data.Get | src/ir_gen_assign.c:146-249 | a read returns the key's value, or zero |
| MapCode.Data.Find | src/ir_gen_assign.c:92-236 | the slot of the key; else the first blank entry, claimed; none exactly when the map is full and the key new, and then no byte changes |
| MapCode.Data.Claim | src/ir_gen_assign.c:211-226 | flag, key and count are stored, and the map gains the key with value zero |
| MapCode.Data.Set | src/ir_gen_assign.c:47-249 | a read after this write returns the value; a new key in a full map changes nothing |
| MapCode.Data.constructor | src/llvm_ir_generator.c:2047-2110 | a new map is empty and well laid out exactly when its size does not wrap around at 64 bits |
| MapLayout.ClaimAdds | src/ir_gen_assign.c:211-226 | occupied entries stay a prefix with distinct keys, counted in the header |
| MapLayout.PutUpdates | src/ir_gen_assign.c:175-190 | storing one value leaves every other entry |
| MapLayout.InBounds | src/llvm_ir_generator.c:2063-2069 | every entry lies behind the 32-byte header and inside the allocation |
| MapLayout.Entries | src/ir_gen_assign.c:110-112 | entries do not overlap |
| MapLayout.AllocationHolds | src/llvm_ir_generator.c:2067-2069 | the allocation holds all entries exactly when the size does not wrap at 64 bits |
| MapCode.ReadsLastAssigned | src/ir_gen_assign.c:47-249 | while no more keys are assigned than fit, every key reads what was assigned to it last |
| MapCode.ReadsAfterAnyRun | src/ir_gen_assign.c:47-249 | after any run, however many keys it assigns to, a key that got in while there was room reads the value assigned to it last, and every other key reads zero |
| MapCode.ReadsSnoc | src/ir_gen_assign.c:47-249 | a read in a run answers for the map at that point |
| MapCode.FullMapKeepsItsKeys | src/ir_gen_assign.c:204-210 | at capacity the set of keys never changes again |
| IntToString.Format | src/ir_intrinsic.c:128-250 | for every value of every width the text ends at index 20, starts inside the 21-byte buffer, is the decimal text of the number the parameter was made from (modulo 2^64 when it is wider), and parses back up to 64 bits, the minimum included |
| IntToString.CountDigits | src/ir_intrinsic.c:155-185 | the counting loop counts the digits, one for zero |
| IntToString.FillDigits | src/ir_intrinsic.c:188-221 | the filling loop writes exactly those digits and nothing else |
| IntToString.ParseDecimal | src/ir_intrinsic.c:128-250 | the text has no leading zero and reads back as the integer |
| IntToString.DecimalParse | src/ir_intrinsic.c:128-250 | conversely every such text is the one of its value |
| IntToString.SignedNumber | src/ir_intrinsic.c:141-144 | a number of the width, held as its residue, is read as that number again |
| IntToString.ExtendedValue | src/ir_intrinsic.c:141-144 | sign extension keeps the number a narrower parameter stands for, truncation takes it modulo 2^64 |
| IntToString.MagnitudeIs | src/ir_intrinsic.c:148-150 | the wrapped negation is the absolute value, at most 2^63 |
| Matrix.Multiply | src/ir_gen_operator.c:303-358 | the loops store the sum of products modulo the element width in every cell, for any three layouts |
| Matrix.Transpose | src/ir_gen_postfix.c:13-52 | cell (j,i) of the result is cell (i,j) of the operand |
| Matrix.TransposeTwice | src/ir_gen_postfix.c:13-52 | transposing twice gives the storage back |
| Matrix.TransposeUnique | src/ir_gen_postfix.c:13-52 | the specification of transpose determines the storage |
| Matrix.ProductUnique | src/ir_gen_operator.c:303-358 | the specification of the product determines the storage |
| Matrix.ProductIdentity | src/ir_gen_operator.c:303-358 | multiplying with the identity on either side, in any layouts, gives the matrix |
| Matrix.TransposeOfProduct | src/ir_gen_operator.c:303-358 | the transpose of A·B is the product of the transposes in the other order |
| Matrix.ProductAssociative | src/ir_gen_operator.c:303-358 | (A·B)·C and A·(B·C) are the same storage, wrap-around included |
| Matrix.OffsetOf | src/ir_gen_matrix.h:15-19 | the offset is in range, and row and column can be read off it |
| Matrix.Neighbours | src/ir_gen_matrix.h:15-19 | row-major storage puts the neighbours in a row next to one another, column-major storage those in a column |
| Matrix.CellOf | src/ir_gen_matrix.h:15-19 | every offset in range is the offset of one cell |
| Matrix.FormsAgree | src/ir_intrinsic.c:892-911 | the form selected from type information at run time is the compile-time offset |
| Matrix.Hadamard | src/ir_gen_postfix.c:126-200 | element-wise product: each cell is written once |
| Matrix.Flatten | src/ir_gen_postfix.c:202-241 | flattening copies the storage in its own order |
| Matrix.Literal | src/llvm_ir_generator.c:2693-2732 | the values of a literal are placed in reading order whatever the layout, surplus ones dropped |
| HashTable.Table.Insert | src/generic_hash_table.c:128-164 | refuses a key that is present; otherwise the map gains it, and the load stays at most three quarters |
| HashTable.Table.Resize | src/generic_hash_table.c:94-126 | in-place rehash keeps the nodes and the map |
| HashTable.Table.MoveChain | src/generic_hash_table.c:108-119 | relinking one chain moves each of its nodes to the bucket of its hash |
| HashTable.Table.Push | src/generic_hash_table.c:146-156 | a new node in front of its chain |
| HashTable.Table.Lookup | src/generic_hash_table.c:166-185 | finds the key's value exactly when the key is there |
| HashTable.Table.Remove | src/generic_hash_table.c:187-220 | unlinks the key's node and returns its value |
| HashTable.Table.Iterate | src/generic_hash_table.c:222-239 | visits the value of every entry once |
| HashTable.Found | src/generic_hash_table.c:174-182 | a key is in the map exactly when the bucket of its hash has it |
| HashTable.PlacedUnique | src/generic_hash_table.c:135-144 | no two nodes of the table have the same key |
| HashTable.Pushed | src/generic_hash_table.c:114-116 | pushing a new key keeps every node in the bucket of its hash |
| Scopes.Context.PushScope | src/generator_lists.c:62-88 | a new innermost frame |
| Scopes.Context.PopScope | src/generator_lists.c:90-114 | the frame is gone, the scope is deferred |
| Scopes.Context.AddSymbol | src/generator_lists.c:124-129 | adds to the current frame, as AddBinds says; a name it has keeps its symbol object |
| Scopes.Scope.Add | src/scope_lists.c:59-76 | updates the existing symbol in place or enters a new one; other scopes are not touched |
| SymbolTable.Symbols.Add | src/scope_lists.c:59-76 | on the hash table itself: a known name keeps its symbol object and gets the value, a new name gets a new object, and all other names keep theirs |
| SymbolTable.Symbols.Replay | src/scope_lists.c:59-76 | over any number of additions and the rehashes they cause every name stands for the object it stood for, holding the last value |
| SymbolTable.Symbols.Lookup | src/scope_lists.c:78-83 | the name's symbol, or none exactly for an unknown name |
| Scopes.Context.FindSymbol | src/scope.c:39-53 | the walk over parents finds the innermost binding |
| Scopes.Context.FreeDeferred | src/generator_lists.c:139-150 | deferred scopes are freed, the live ones stay |
| Scopes.Context.Destroy | src/generator_lists.c:43-60 | every scope ever created has been freed exactly once |
| Scopes.Context.Replay | src/generator_lists.c:62-150 | any run of pushes, additions and pops does to the objects what it does to a stack of maps, so that every name means what RunBinds says |
| Scopes.RunBinds | src/generator_lists.c:62-129 | after any run a name means what it was last given in a block that is still open, read off the run backwards, and so it does in each enclosing block |
| Scopes.AddBinds | src/scope_lists.c:59-76 | adding a name, known in the current frame or not, gives it the new value and keeps every other name |
| Scopes.BlockRestores | src/generator_lists.c:62-114 | a run that pops what it pushed and adds only there restores every lookup |
| Scopes.AddShadows | src/scope.c:39-53 | an inner binding shadows one name and leaves all others |
| BitField.LayOut | src/sem_type_resolver.c:586-624 | offsets are the sums of the widths before; a width that is not positive is an error |
| BitField.Backing | src/sem_type_resolver.c:586-624 | the backing word is the smallest of 8, 16, 32 and 64 bits that holds the total |
| BitField.LaidOut | src/sem_type_resolver.c:586-624 | fields are consecutive and disjoint, and lie in the backing word exactly when the widths add up to 64 at most |
| BitField.StoreStaysInside | src/ir_gen_assign.c:1110-1135 | storing an operand held at any width leaves every bit outside the field alone, whatever the word held, exactly when the signed cast of it fits the field |
| BitField.FitsInside | src/ir_gen_assign.c:1127-1134 | for an operand below 2^width that fails exactly when its own sign bit is set, the field is at least as wide as the operand, and the word goes on |
| BitField.SmearedSign | src/ir_gen_assign.c:1127 | 200 in an 8-bit field, of any type: an 8-bit variable fills the field behind it, a literal, held at 64 bits, leaves it alone |
| BitField.ReadBack | src/ir_gen_postfix.c:1375-1382 | as numbers, under any signs of the operand's and the field's type: an operand of any width is read back exactly when it is in the field's range and, if it is unsigned with its top bit set, held at enough bits |
| BitField.NegativeReadBack | src/ir_gen_postfix.c:1381-1382 | a literal 200 in an 8-bit field of a 64-bit type that is the whole word reads back as -56 |
| BitField.WideReadBack | src/ir_gen_assign.c:1127 | an unsigned 8-bit variable holding 200 in a 16-bit field reads back as 65480 |
| BitField.AboveAfter | src/ir_gen_assign.c:1110-1135 | a field above reads its bits or-ed with what the store spills into them |
| BitField.BelowUnchanged | src/ir_gen_assign.c:1110-1135 | a field below reads as before |
| BitField.OthersUnchanged | src/ir_gen_assign.c:1110-1135 | every other field reads as before when the store stays inside |
| BitField.Variable.Assign | src/ir_gen_assign.c:1110-1135 | for an operand of any width, the field reads it exactly when it is readable, the fields below are unchanged, those above get the spilled bits, and none does if what is stored fits |
| BitField.Variable.Compound | src/ir_gen_assign.c:1136-1164 | the same for read, operate and store, with the result of any of the ten operators in the field's type; undefined exactly when the operation is |
| BitField.Variable.Get | src/ir_gen_postfix.c:1375-1387 | reads the field |
| BitSet.Variable.Replay | src/ir_gen_assign.c:1201-1233 | a sequence of include, exclude, union, sum, intersection, difference, exchange and membership agrees with the same sequence on sets, as long as the sets that are added have no element in common |
| BitSet.WordIsSet | src/llvm_ir_generator.c:2440-2474 | a word operation is the set operation exactly unless two sets are added that have an element in common |
| BitSet.ZeroPlusZero | src/ir_gen_operator.c:648-650 | the sum of {0} and {0} is {1} |
| BitSet.SetDecidesWord | src/llvm_ir_generator.c:2440-2474 | equal sets are equal words |
| BitSet.Variable.Contains | src/ir_gen_operator.c:206-222 | the shifted and masked bit is membership |
| Escape.LiteralRoundTrip | src/llvm_ir_generator.c:503-569 | every byte string has a printable literal that decodes to it |
| Escape.DecodeSpelled | src/llvm_ir_generator.c:423-501 | however each byte is spelled, raw, by its letter or in hexadecimal digits of either case, with stray backslashes in between, the literal decodes to the bytes |
| Escape.EveryLiteral | src/llvm_ir_generator.c:423-501 | every text is spelled in one of these ways, so that this says what any literal decodes to |
| Escape.NamedLetter | src/llvm_ir_generator.c:432-481 | the decoder knows exactly the twelve letters that spell a byte, and they stand for it |
| Escape.UnknownEscape | src/llvm_ir_generator.c:482-500 | before any other byte a backslash and the byte stand for themselves |
| Escape.SomeEscapes | src/llvm_ir_generator.c:432-500 | line feed, carriage return and zero byte by letter, and two escapes that are none |
| Escape.DecodeLiteral | src/llvm_ir_generator.c:532-569 | the filling pass writes exactly the bytes the counting pass counted |
| Escape.CountBytes | src/llvm_ir_generator.c:532-548 | the counting pass |
| Escape.StringLiteral | src/llvm_ir_generator.c:503-569 | quotes are stripped, raw strings are not decoded |
| Escape.RawLiteral | src/llvm_ir_generator.c:503-530 | a raw string stands for what is between its back quotes, and unquoted text for itself |
| Escape.PlainLiteral | src/llvm_ir_generator.c:423-501 | a literal stands for its own text exactly when it has no recognised escape |
| ConstEval.CodegenSound | src/llvm_ir_generator.c:3473-3807 | for an expression with a meaning the evaluator decides exactly when the names are known and no logical operator occurs, and then decides the meaning |
| ConstEval.CodegenDecides | src/llvm_ir_generator.c:3473-3807 | meaning or not, an expression is decided exactly when its names are known, every part is looked into, no logical operator occurs and no divisor is evaluated to zero |
| ConstEval.WhereSound | src/polymorphism.c:589-753 | the where-evaluator decides exactly when the names are known and no part has the value -1, and then decides the meaning |
| ConstEval.WhereDecides | src/polymorphism.c:589-753 | meaning or not, the where-evaluator decides exactly what an evaluator with a separate mark for the unknown computes without meeting -1 |
| ConstEval.EvaluatorsAgree | src/polymorphism.c:589-753 | whenever both decide, meaning or not, they decide the same |
| ConstEval.MinusOneUnseen | src/polymorphism.c:684-689 | 0 - 1 is decided by one and not by the other |
| ConstEval.ChainSelects | src/llvm_ir_generator.c:3838-3885 | a when-chain takes the first true body or the trailing one exactly when the first true condition is decided during generation or no true one is |
| ConstEval.DecidedChainSelects | src/llvm_ir_generator.c:3838-3885 | in particular when all conditions are decided |
| ConstEval.LogicalConditionPassedOver | src/llvm_ir_generator.c:3720-3790 | a true `a && b` is passed over for a later plain true condition |
| ConstEval.Choose | src/llvm_ir_generator.c:3838-3885 | the walk takes the first condition that is decided to hold, which has no part that is not looked into; the trailing body exactly when all are decided not to hold; otherwise the choice is left to the earlier analysis |

## Left out

- Statements behind a jump in the same list: the builder is not moved after a jump, so the graph would be malformed; `Source.Legal` excludes them.
- `continue` in a switch inside a loop: it is legal in the language, but the generator branches to a null block (src/ir_gen_statement.c:783, src/llvm_ir_generator.c:3388), so there is no graph to run; `Source.Legal` excludes it.
- `fallthrough` behind a nested switch: it is legal in the language; `Source.Legal` excludes it because it is lost, as Fallthrough.FallthroughLost shows.
- A fallthrough with defers of its clause pending: the defers would be emitted behind the branch; the defer model has no fallthrough.
- More than 64 nested loops or 64 cases: the generator then stops recording targets, and forgets one that it has (Statements.PushPop); `Source.Legal` stays below.
- Operands of `?:` and `or_else` held at different widths: LLVM rejects the phi, so `Source.Legal` excludes them.
- Plain assignment of an `in` result to a boolean variable: `Source.Legal` excludes it, because the emitted store writes eight bytes over the variable's one and overwrites the memory behind, as StmtCorrect.AssignStores and MixedWidths.FlagOverwritten show.
- Switch and case values held at different widths (`Source.LegalCases`): LLVM rejects the comparison.
- Clauses with several values and switches without an expression are not in `Source.Cases`, which has what is lowered for them; CaseLists gives their meaning and says when the emitted code has it.
- CaseLists.RightExactly: assumes that no value fails, because a value that fails where it is run and not where it is compared can make both sides undefined.
- Compound assignment to a bit field with an operand that is not of the field type's width: LLVM rejects the operation.
- Lvalues other than variables and array elements, slices with bounds, strings, floats, swizzles, `any`, procedures and calls, `#unroll`: the lowering model has signed 64-bit integers, booleans and integer arrays. Unsigned types have the same code emitted for them, which UnsignedOperands judges operator by operator.
- DeferProcedures.ProcedureOrder: assumes room for all pending defers at once (`Space`), because what happens at 128 entries is stated separately by DeferForgotten.
- DeferProcedures.ProcedureOrderExact: assumes that deferred code does something and that nothing stands behind an exit, because code that is lost or never reached without any action cannot be told from code that is kept.
- Defers.Gen: its fuel stands for the depth of the generator's recursion into deferred code; GenSteps shows that the nesting depth of defers is enough, DeferredReturnNeverEnds that a return inside deferred code has none.
- Vectors, Maybe and matrix patterns and procedure signatures in unification: patterns are pointers, slices, dynamic arrays, multi-pointers, arrays and specializations.
- Type constructors: equality of descriptors is equality of terms, as hash-consing makes it.
- Mangled names and specialization of procedure bodies: only the instantiation of types is modelled.
- Instantiations that fail, and re-analysis of their bodies: what resolving a body meets is a function of the application's key.
- MapCode.Data.constructor: requires that the wrapped size still holds the 32-byte header, because the code writes the header outside the allocation otherwise; allocators other than the zeroing one are not modelled.
- Map keys are integers of the key's size; comparison and copying of other key types is not modelled.
- IntToString.Format: the allocator is represented by a fresh buffer.
- Matrix elements are integers; floating-point products, vector operands and scalar broadcasts are left out.
- HashTable.Table.Insert: allocation succeeds and the load is compared exactly, where the code compares floats and goes on without a resize when memory runs out.
- Scopes.Scope: the symbol table is the map that HashTable.Table is proved to be (SymbolTable.Symbols works on the table itself); array capacities and failing allocations are left out.
- BitField.LayOut: at most 64 fields are declared, as the code's fixed array presupposes.
- BitSet: elements are below the backing width; a larger one is shifted out undefined.
- ConstEval.ChainSelects: the choice that the earlier analysis made between the bodies of a when-chain is assumed to be the right one where code generation relies on it.
- Names in constant expressions stand for integers; types, sizes and calls in where-clauses are opaque (`Other`), and a shift count outside the word gives an unspecified value.
- Malformed trees: missing children and missing metadata, for which the generator reports an error or gives up.
