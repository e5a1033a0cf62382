# A verified model of the Luau compiler's transformations

This project models the parts of the repository where a program is turned into something else and its meaning has to
survive: the Luau code generator, the bytecode builder, constant folding, loop unrolling and the cost model, the
front end's expression parser and string handling. It also models a few small state machines beside them: the WebSocket
endpoint, the registry of references, the `bit32` library and the edit distance behind name suggestions.

Code that updates state in place is written as classes and loops. Each method is proved equal to a specification
function, and what the code promises is proved about that function, for all inputs.

## Modules

| files | what they model |
|---|---|
| `LuaSource`, `RegisterVm`, `EmitSpec`, `EmitProof`, `EmitLimits`, `EmitForms` | expressions, a register machine, what the code generator emits for expressions and conditions, that running it is evaluating the expression, when it is emitted at all, and its short forms |
| `AssignSpec`, `AssignProof`, `AssignDropped`, `AssignLimits`, `Compiler` | assignment to any mix of targets, what becomes of surplus values, when it compiles, and the `Compiler` class that emits the code |
| `JumpCode`, `Opcodes`, `JumpFold`, `JumpExpand`, `JumpExpandProof`, `JumpLayout` | instruction words and numbers, folding of jump chains, expansion of far jumps, and the builder that does both |
| `FoldSource`, `FoldSpec`, `FoldProof`, `FoldSound`, `FoldTargets`, `FoldPass`, `FoldVisitor`, `FoldKnown` | programs with locals, closures and loops, how they run, which constants are recorded, that they are right and that none is missed, and that code emitted with them is right |
| `FoldUnroll`, `UnrollMaps`, `UnrollJumps`, `UnrolledLoop`, `UnrolledExample` | unrolling of numeric loops: the copies, the constant maps, the patched jumps, all the way from the loop to the patched code, and one loop in full |
| `PackedLanes`, `CostModel`, `CostAlgebra`, `CostDiscounts`, `CostVisitors`, `CostCount` | eight saturating counters in one word, costs with discounts, the visitor that adds them up, and the price list it follows |
| `EditScripts`, `EditTable` | edit distance by scripts, and the table that computes it |
| `ExprGrammar`, `LayeredGrammar`, `ExprParser` | operator precedence by numbers and as a grammar in layers, and the parser that climbs it |
| `StringEscape`, `StringLexer`, `EscapeGrammar` | escaping, undoing escapes in place, string tokens, and the pieces that strings are written in |
| `ByteStream`, `LineInfo`, `FunctionFormat`, `BytecodeFile`, `BytecodeLayout` | the serialised bytecode, the loader that reads it, and the table of its fields |
| `WebSocketFrames`, `WebSocketEndpoint`, `WebSocket` | frames of RFC 6455 (section 5), an endpoint that sends and receives them, and its buffers over any run |
| `Bit32`, `Registry`, `Common` | `bit32` at compile time and at run time; references to registry slots; what several modules share |

What runs outside the model is a parameter. In code generation and folding, a host answers every operation that may
call foreign code (arithmetic on objects, globals, tables, calls), and it answers from the whole history so far. Equal
histories therefore mean the same operations on the same operands in the same order. Arithmetic and comparison of
numbers are arbitrary functions; only unrolling asks for exact arithmetic on small integers.

## What turned out not to hold

The code is kept as it is; each of these has a lemma with a concrete input and an exact condition.

- **Many targets with few values.** `compileStatAssign` keeps the number of registers for the last value and its nils
  in a byte. With 256 or more of them, the count is cut off and stores read registers that were never allocated.
  `AssignProof.ManyTargetsFail` runs such a program into a read outside its frame;
  `AssignProof.LastRegistersAllocated` says that all registers are allocated exactly when the count fits a byte.
- **Near jumps among far ones.** When some jump of a function does not fit 16 bits, `expandJumps` gives trampolines to
  the far ones and leaves a jump with offset 10922 (a third of the largest distance) at 16 bits. If every word up to and
  including its target is a far jump, the new offset is 32768 and does not fit. `JumpExpand.NearMayOverflow` builds the
  code, ten thousand jumps that lead forty thousand words on, and shows that the word reads back as -32768;
  `JumpExpand.NearStillFits` says that this is the only exception.
- **Very far jumps.** `patchJumpD` accepts any distance below 24 bits, but trampolines can triple it. In
  `JumpExpand.LongMayOverflow` four million far jumps carry one of them out of range; `JumpExpand.LongJumpFits` says when
  a long jump still fits.
- **Negative zero in an unrolled loop.** A loop that starts at negative zero and counts up sees negative zero in its
  first round, but the first unrolled copy is folded with positive zero, since `from + 0 * step` is. The loop
  `for i = -0, 1 do return i end` returns negative zero, and its copies return positive zero
  (`FoldUnroll.NegativeZeroIsLost`). The copies do what the loop does, for every body and host, if and only if the loop
  makes no round, or does not start at negative zero, or counts down (`FoldUnroll.UnrollsExactly`).
- **Chains behind a backward jump.** Folding a jump keeps every run, but not the end of every chain: a plain backward
  jump can turn forward, and chains that ended there go on. `JumpFold.BackwardJumpMayTurn` shows it, and
  `JumpFold.FollowKept` says that a chain keeps its end exactly unless it ended at such a jump and that jump turns. No run
  changes even then (`JumpFold.FoldAllPreserves`). The builder accepts such jumps, but the compiler emits none: it patches
  every plain jump to a label that comes later, and its loops end in `JUMPBACK`. In its code all chains keep their ends
  (`JumpFold.FollowKeptByAll`).
- **Surplus globals.** A value beyond the last target is evaluated for its effects, but for a global nothing is emitted,
  although reading one can call foreign code: `a = x, G` does not read `G` (`AssignDropped.SurplusGlobalIsNotRead`). Over
  all hosts and histories, all right sides are evaluated if and only if no surplus value is a global without a recorded
  constant (`AssignDropped.AllEvaluatedExactly`). Nothing is emitted for a surplus upvalue either, but reading one has no
  effect that could be missed.
- **Discounts.** The price of a cost after discounts is never below its cost with the constant variables replaced by
  literals, but it can be above. Two variables that fold only together have no discount
  (`CostDiscounts.TwoVariablesAreNotShared`), and a saturated baseline is not discounted at all
  (`CostDiscounts.SaturatedHasNoDiscount`). `CostDiscounts.DiscountIsSaving` says when it is exact: below saturation if
  and only if operands that become literals together share one such variable, and at saturation if and only if 127
  or more instructions remain with literals. With one constant variable, the former always holds.
- **Code points beyond 32 bits.** The number in `\u{...}` is computed in 32 bits, from up to sixteen digits, and only then
  compared with the largest code point. `\u{100000041}` is read as an `A` (`EscapeGrammar.CodeWraps`). A sequence that is
  accepted is read as its number if and only if the number is a code point (`EscapeGrammar.CodeIsNumber`).
- **Releasing what is not live.** `lua_unref` does not check its argument. Released twice, a slot links to itself and is
  handed out twice (`Registry.DoubleRelease`). The registry stays orderly if and only if the reference is none, live, or
  the next one that was never made (`Registry.UnrefExactly`).

## Model

| member | source | states |
|---|---|---|
| EmitProof.ExprCorrect | Luau/Compiler/src/Compiler.cpp:2105-2222 | running the code for any expression performs exactly the events of evaluating it, leaves its value in the target register and changes no other register that was allocated; the frame it reports is large enough |
| EmitLimits.ExprCompiles | Luau/Compiler/src/Compiler.cpp:2105-2222 | an expression compiles if its locals have registers and there is room for the registers, constants and words that its form needs; the code and the frame take no more than that |
| EmitLimits.AutoCompiles | Luau/Compiler/src/Compiler.cpp:2229-2241 | so does an operand |
| EmitLimits.CondCompiles | Luau/Compiler/src/Compiler.cpp:1262-1379 | so does a condition |
| EmitLimits.KnownCompiles | Luau/Compiler/src/Compiler.cpp:2049-2103 | so does a constant |
| EmitForms.LimitsAre | Luau/Compiler/src/Compiler.cpp:3670-3680 | what is refused, exactly: register 256, constant number 0x800000 and a jump over as many words |
| EmitForms.ConstantsAreShared | Luau/Compiler/src/BytecodeBuilder.cpp:296-310 | a constant in the table is used again, and none is in it twice |
| EmitForms.LocalForms | Luau/Compiler/src/Compiler.cpp:2150-2156 | a local is read in place, and moved only to another register |
| EmitForms.ArithForms | Luau/Compiler/src/Compiler.cpp:1494-1538 | arithmetic on locals and constants is one instruction |
| EmitForms.EqualForms | Luau/Compiler/src/Compiler.cpp:1110-1198 | testing a local for equality with a constant on either side is one jump with the constant in its second word |
| EmitForms.ConstantForms | Luau/Compiler/src/Compiler.cpp:2049-2103 | which constants need no entry in the table |
| EmitForms.IndexForms | Luau/Compiler/src/Compiler.cpp:1977-2014 | which keys need no register |
| EmitForms.AndOrForms | Luau/Compiler/src/Compiler.cpp:1416-1469 | `and` and `or` of locals and constants are one instruction |
| EmitForms.CondForms | Luau/Compiler/src/Compiler.cpp:1262-1379 | a known condition is one jump or nothing, a negated one turns the jump |
| EmitForms.IfElseForms | Luau/Compiler/src/Compiler.cpp:1605-1646 | a choice between the tested local and another one is one instruction |
| EmitForms.SurplusForms | Luau/Compiler/src/Compiler.cpp:2243-2256 | nothing is emitted for surplus variables and constants |
| EmitForms.AssignForm | Luau/Compiler/src/Compiler.cpp:3207-3218 | the value of a single local is computed in its register |
| EmitProof.AutoCorrect | Luau/Compiler/src/Compiler.cpp:2229-2241 | the register that is returned holds the value, whether it is a temporary or the register of a local read in place; no older register changes |
| EmitProof.CondCorrect | Luau/Compiler/src/Compiler.cpp:1262-1379 | the code of a condition jumps to where its labels are patched exactly when the truth of the value is the wanted one, and falls through otherwise; with a target, the value is in it whenever control jumps |
| EmitProof.CompareJumpCorrect | Luau/Compiler/src/Compiler.cpp:1110-1198 | the jump of a comparison is taken exactly when the comparison holds (or does not, if negated), with operands evaluated once and in order even where they are swapped for a constant or for `>` |
| EmitProof.CompareCorrect | Luau/Compiler/src/Compiler.cpp:1556-1574 | a comparison used as a value leaves true or false in the target, with the second load skipped |
| EmitProof.AndOrCorrect | Luau/Compiler/src/Compiler.cpp:1416-1469 | `and`/`or` in all its forms (constant left side, plain locals, constant right side, jumps) gives the value that short-circuit evaluation gives |
| EmitProof.IfElseCorrect | Luau/Compiler/src/Compiler.cpp:1588-1646 | an if-else expression evaluates its condition and one branch only, also in the forms that become AND and OR instructions |
| EmitProof.ArithCorrect | Luau/Compiler/src/Compiler.cpp:1494-1538 | arithmetic with constants on either side is the arithmetic of the two values, in order |
| EmitProof.ListCorrect | Luau/Compiler/src/Compiler.cpp:1540-1554 | operands compiled into consecutive temporaries end up there with the values that evaluating them from left to right gives |
| EmitProof.ConcatMeaning | Luau/Compiler/src/Compiler.cpp:1480-1492 | unrolling a chain of concatenations down its right side and joining from the right gives what the nested chain gives |
| EmitProof.IndexCorrect | Luau/Compiler/src/Compiler.cpp:1977-2014 | indexing with a small number, a constant string or any expression reads the same element |
| EmitProof.ConstantCorrect | Luau/Compiler/src/Compiler.cpp:2049-2103 | a constant is loaded as it is, from the instruction or from the constant table, whatever its kind |
| EmitProof.LoadKCorrect | Luau/Compiler/src/Compiler.cpp:154-167 | a constant index of any size reaches its constant |
| AssignDropped.AssignCorrect | Luau/Compiler/src/Compiler.cpp:3203-3300 | with no surplus global, an assignment of any values to any targets is simultaneous: operands of targets and all values are evaluated first, in order, then stored; every local ends with the last value stored into it and no other register changes |
| AssignDropped.AllEvaluatedExactly | Luau/Compiler/src/Compiler.cpp:2243-2256 | whatever the host and its history, the code evaluates all right sides if and only if no surplus value is a global without a recorded constant |
| AssignDropped.SurplusGlobalIsNotRead | Luau/Compiler/src/Compiler.cpp:2243-2256 | `a = x, G` does not read `G` |
| AssignLimits.AssignCompiles | Luau/Compiler/src/Compiler.cpp:3203-3300 | an assignment compiles if its locals have registers and there is room for what its targets and values need |
| AssignSpec.ConflictIsLaterRead | Luau/Compiler/src/Compiler.cpp:3125-3191 | among locals, one is in conflict if and only if a later value reads it |
| AssignProof.EmittedAssignCorrect | Luau/Compiler/src/Compiler.cpp:3203-3300 | for every assignment the same, but for the surplus values that are dropped |
| AssignProof.MultiAssignCorrect | Luau/Compiler/src/Compiler.cpp:3227-3300 | the same for several targets or values, although some locals are written early |
| AssignProof.SingleAssignCorrect | Luau/Compiler/src/Compiler.cpp:3207-3224 | the same for one target and one value, which may be computed straight into the local |
| AssignProof.LValuesCorrect | Luau/Compiler/src/Compiler.cpp:2342-2430 | the registers in a compiled target hold the operands of the place it stands for, and stay allocated |
| AssignProof.ValuesCorrect | Luau/Compiler/src/Compiler.cpp:3242-3274 | every value, padded with nil, is in the register noted for it, while locals that later values read still hold what they held |
| AssignProof.ConflictRegsResolve | Luau/Compiler/src/Compiler.cpp:3193-3200 | exactly the conflicting locals get temporaries, each its own, and none that anything else uses |
| AssignProof.LazyIsSafe | Luau/Compiler/src/Compiler.cpp:3123-3191 | a local whose register is used directly as a value is never overwritten early |
| AssignProof.DenotesAfter | Luau/Compiler/src/Compiler.cpp:3179-3191 | the operands of table targets are still intact when the stores happen |
| AssignProof.LocalStored | Luau/Compiler/src/Compiler.cpp:3293-3299 | after all stores and moves a local holds the last value assigned to it, also if it occurs several times |
| AssignProof.LastRegistersAllocated | Luau/Compiler/src/Compiler.cpp:3246-3257 | the registers for the last value and its nils are all allocated if and only if their number fits a byte |
| AssignProof.ManyTargetsFail | Luau/Compiler/src/Compiler.cpp:3246-3257 | 257 targets with one value: the code runs into a register outside its frame |
| Compiler.Compiler.CompileExpr | Luau/Compiler/src/Compiler.cpp:2105-2222 | instruction stream, constant table and register allocator end up as the specification says, or the same error is raised; there is none where registers, constants and code have the room that the expression needs |
| Compiler.Compiler.CompileConditionValue | Luau/Compiler/src/Compiler.cpp:1262-1379 | the same for a condition and the labels it leaves to be patched |
| Compiler.Compiler.CompileExprAndOr | Luau/Compiler/src/Compiler.cpp:1416-1469 | the same for `and` and `or` |
| Compiler.Compiler.CompileExprIfElse | Luau/Compiler/src/Compiler.cpp:1605-1646 | the same for if-else expressions |
| Compiler.Compiler.CompileCompareJump | Luau/Compiler/src/Compiler.cpp:1110-1198 | the same for the jump of a comparison |
| Compiler.Compiler.UnrollConcats | Luau/Compiler/src/Compiler.cpp:1480-1492 | the loop yields the operands of the whole chain in order |
| Compiler.Compiler.FindConflicts | Luau/Compiler/src/Compiler.cpp:3125-3191 | the visitor and its loops find exactly the registers in conflict: assigned, and read by a later part or by an operand of a target |
| Compiler.Compiler.ResolveAssignConflicts | Luau/Compiler/src/Compiler.cpp:3123-3201 | temporaries for the locals in conflict, allocated in order |
| Compiler.Compiler.CompileStatAssign | Luau/Compiler/src/Compiler.cpp:3203-3300 | the whole statement: same code, same errors, allocator restored; no error where there is room |
| Compiler.Compiler.AllocReg | Luau/Compiler/src/Compiler.cpp:3670-3680 | allocates, or fails above 255 registers and changes nothing; the high water mark is kept |
| Compiler.Compiler.PatchJumps | Luau/Compiler/src/Compiler.cpp:3640-3644 | every label in the list is patched to the target, nothing else |
| Compiler.Compiler.AddConstant | Luau/Compiler/src/BytecodeBuilder.cpp:296-310 | equal constants share an index, a new one is appended, and the table limit is respected |
| JumpCode.FieldBits | Luau/Compiler/src/BytecodeBuilder.cpp:966-981 | an offset replaces the upper 16 (or 24) bits of the word, of the number itself, and leaves the lower ones |
| Opcodes.TwoWords | Luau/Common/include/Luau/BytecodeUtils.h:9-41 | the instructions of two words, by name and number |
| Opcodes.Jumps | Luau/Compiler/src/BytecodeBuilder.cpp:62-91 | the instructions with a jump offset of 16 bits |
| Opcodes.Others | Luau/Compiler/src/BytecodeBuilder.cpp:93-118 | fast calls, the skipping load, the long jump and the return |
| JumpCode.FieldsReadBack | Luau/Compiler/src/BytecodeBuilder.cpp:452-466 | an offset reads back from its field exactly when it fits 16 (or 24) bits |
| JumpFold.FoldOnePreserves | Luau/Compiler/src/BytecodeBuilder.cpp:940-982 | folding one jump changes no trace that the code yields from any instruction |
| JumpFold.FoldAllPreserves | Luau/Compiler/src/BytecodeBuilder.cpp:940-982 | folding every jump, in any order, changes no trace, including where a plain jump becomes a return |
| JumpFold.ChainEnd | Luau/Compiler/src/BytecodeBuilder.cpp:955-964 | the end of a chain is reached from its start by plain forward jumps only, and forwards no further |
| JumpFold.FoldedLeadsToEnd | Luau/Compiler/src/BytecodeBuilder.cpp:966-981 | a folded jump is the return found at the end of its chain, or leads to that end if the offset fits, or is as it was |
| JumpFold.AllLeadToEnds | Luau/Compiler/src/BytecodeBuilder.cpp:940-982 | after all are folded, every listed jump whose recorded target is in reach leads there, conditional or not |
| JumpFold.FollowKept | Luau/Compiler/src/BytecodeBuilder.cpp:950-981 | folding a jump moves the end of a chain exactly when the chain ended at that jump and it is a backward one that turns forward or into a return |
| JumpFold.FollowKeptByAll | Luau/Compiler/src/BytecodeBuilder.cpp:950-982 | with no backward plain jump in the list every chain still ends where it ended, or in the return found there |
| JumpFold.BackwardJumpMayTurn | Luau/Compiler/src/BytecodeBuilder.cpp:955-981 | folding a backward plain jump can make it a forward one, which moves the end of other chains |
| JumpExpand.NearStillFits | Luau/Compiler/src/BytecodeBuilder.cpp:1090-1102 | how far an offset can grow, and that a jump left at 16 bits fits exactly unless some jump does not fit 16 bits, its offset is the limit and all words up to its target are far jumps |
| JumpExpand.NearMayOverflow | Luau/Compiler/src/BytecodeBuilder.cpp:999-1002 | a well-formed program with far jumps beyond 16 bits, in which such an offset becomes 32768 and its word reads back as -32768 |
| JumpExpand.LongJumpFits | Luau/Compiler/src/BytecodeBuilder.cpp:1071-1082 | a long jump reaches its target if and only if its distance, with two words for every trampoline on the way, fits 24 bits; it always does up to a third of the largest distance |
| JumpExpand.LongMayOverflow | Luau/Compiler/src/BytecodeBuilder.cpp:494-505 | a well-formed program with far jumps beyond 16 bits, whose first jump is accepted at half the largest distance and then grows beyond 24 bits |
| JumpExpandProof.ExpandedStep | Luau/Compiler/src/BytecodeBuilder.cpp:984-1110 | one instruction of the old code is one of the new code and at most two silent jumps, and arrives at the new place of where the old one arrived |
| JumpExpandProof.ExpansionPreserves | Luau/Compiler/src/BytecodeBuilder.cpp:984-1110 | the expanded code yields exactly the traces of the original |
| JumpExpandProof.YieldsAgree | Luau/Compiler/src/BytecodeBuilder.cpp:479-509 | when all offsets fit, the table of jumps and the offsets in the code describe the same runs |
| JumpLayout.BytecodeBuilder.PatchJumpD | Luau/Compiler/src/BytecodeBuilder.cpp:479-509 | a jump is recorded, with its offset in the code if that fits and the long-jump flag otherwise; too long a jump is refused and changes nothing |
| JumpLayout.BytecodeBuilder.FoldJumps | Luau/Compiler/src/BytecodeBuilder.cpp:940-982 | folds the jumps in list order and records each new target, where every listed jump leads if it is in reach; leaves everything alone when there are long jumps |
| JumpLayout.BytecodeBuilder.Relocate | Luau/Compiler/src/BytecodeBuilder.cpp:1009-1059 | words and trampolines are laid out as the specification says, with the map from old to new positions |
| JumpLayout.BytecodeBuilder.Repatch | Luau/Compiler/src/BytecodeBuilder.cpp:1064-1103 | all offsets, near and far, are computed again in the new layout |
| JumpLayout.BytecodeBuilder.ExpandJumps | Luau/Compiler/src/BytecodeBuilder.cpp:984-1110 | the whole pass: sorted jumps, expanded code |
| FoldProof.ConstantEvaluates | Luau/Compiler/src/ConstantFolding.cpp:230-388 | an expression that folds, calls to built-in functions included, evaluates to its constant, without any effect, wherever its locals have their recorded values; with its locals in scope it does not stop |
| FoldProof.OperatorsFold | Luau/Compiler/src/ConstantFolding.cpp:42-203 | an operator on constants folds exactly when the run-time operation needs no host, and to its value |
| FoldProof.FoldsExactly | Luau/Compiler/src/ConstantFolding.cpp:230-388 | an expression folds if and only if it evaluates without asking the host, and to the same value; what is evaluated of it reads locals with recorded constants only, and makes and calls no closure |
| FoldTargets.WrittenIs | Luau/Compiler/src/ValueTracking.cpp:22-82 | a local counts as written if and only if some statement of the program, in a function or not, assigns it |
| FoldTargets.DeclaredConstant | Luau/Compiler/src/ConstantFolding.cpp:401-458 | a local that is never written has the constant of the value at its position |
| FoldTargets.RestIs | Luau/Compiler/src/ConstantFolding.cpp:433-449 | a local without a value is nil unless the last value may have several results |
| FoldKnown.FoldedEvaluates | Luau/Compiler/src/ConstantFolding.cpp:230-388 | in the emitter's language too, an expression that folds evaluates to its constant without asking the host |
| FoldKnown.KnownIsRight | Luau/Compiler/src/ConstantFolding.cpp:385-398 | so every constant recorded for a node of an expression without calls is right wherever the emitter uses it |
| FoldKnown.FoldedCodeCorrect | Luau/Compiler/src/Compiler.cpp:2105-2222 | the code that is emitted with the recorded constants computes what the expression evaluates to |
| FoldSound.SoundExec | Luau/Compiler/src/ConstantFolding.cpp:414-458 | whatever a statement of any kind does and whatever the host does in between, every recorded node that is evaluated has its recorded value |
| FoldSound.SoundEval | Luau/Compiler/src/ConstantFolding.cpp:230-388 | the same for expressions, including closures that run later |
| FoldPass.PassFits | Luau/Compiler/src/ConstantFolding.cpp:385-412 | after the pass the maps hold exactly what folding gives in those same maps, from whatever maps it started |
| FoldPass.FitIsUnique | Luau/Compiler/src/ConstantFolding.cpp:391-412 | such maps are determined by what they say about variables from outside |
| FoldPass.RunFrame | Luau/Compiler/src/ConstantFolding.cpp:391-412 | the pass touches no entry but those of its own nodes and locals |
| FoldVisitor.FoldedFits | Luau/Compiler/src/ConstantFolding.cpp:461-469 | folding a program from empty maps records constants that fit, and none for a local that is ever assigned |
| FoldVisitor.FoldingIsSound | Luau/Compiler/src/ConstantFolding.cpp:205-458 | both passes together: in every run of the program every logged value of a node with a recorded constant is that constant |
| FoldVisitor.ValueVisitor.Visit | Luau/Compiler/src/ValueTracking.cpp:22-82 | marks exactly the locals that are assigned somewhere, in closures as well |
| FoldVisitor.ConstantVisitor.Visit | Luau/Compiler/src/ConstantFolding.cpp:414-458 | records, for every expression and local of a statement of any kind, exactly what folding gives, in the order of the traversal |
| FoldUnroll.WhenCounted | Luau/Compiler/src/CostModel.cpp:399-413 | there is a trip count exactly for integers of up to 32767 either way and a step that is not zero |
| FoldUnroll.TripCountIsExact | Luau/Compiler/src/CostModel.cpp:399-413 | a loop with a trip count runs exactly that often, and its variable takes exact integers |
| FoldUnroll.CopyValueIsRound | Luau/Compiler/src/Compiler.cpp:2914-2919 | a copy is folded with the value of its round, except that a loop from negative zero upwards starts with positive zero |
| FoldUnroll.NegativeZeroIsLost | Luau/Compiler/src/Compiler.cpp:2914-2919 | `for i = -0, 1 do return i end` has two rounds and returns negative zero, but its copies return positive zero |
| FoldUnroll.UnrollsExactly | Luau/Compiler/src/Compiler.cpp:2905-2949 | the copies do what the loop does for every body, host and state if and only if the loop does not count up from negative zero |
| FoldUnroll.UnrolledIsLoop | Luau/Compiler/src/Compiler.cpp:2905-2949 | the copies in sequence do what the loop does, breaks and continues included, for every body and host |
| FoldUnroll.LoopStatementUnrolls | Luau/Compiler/src/Compiler.cpp:2850-2903 | the statement with its constant head is its copies; the head stops only if it reads a local that is not in scope |
| UnrollMaps.CopyFits | Luau/Compiler/src/Compiler.cpp:2914-2921 | refolding with a value for the variable gives maps that fit one copy, without losing what is known outside |
| UnrollMaps.CopyIsSound | Luau/Compiler/src/Compiler.cpp:2914-2926 | a round that runs with those maps evaluates to their constants |
| UnrollMaps.UnrolledIsSound | Luau/Compiler/src/Compiler.cpp:2914-2926 | so does the whole unrolled loop, copy by copy |
| UnrollMaps.RefoldRestores | Luau/Compiler/src/Compiler.cpp:2945-2948 | after the last refold the maps say, at every key, what they said before the loop |
| UnrollMaps.Unroller.TryCompileUnrolledFor | Luau/Compiler/src/Compiler.cpp:2850-2903 | a loop is unrolled exactly when its trip count is known and short, its variable is never written and the price of its copies is below the threshold; the maps come back either way |
| UnrollMaps.Unroller.TripCountIs | Luau/Compiler/src/Compiler.cpp:2850-2861 | the count is that of the recorded constants in the head, with a missing step of one |
| UnrollMaps.Unroller.WorthwhileIs | Luau/Compiler/src/Compiler.cpp:2881-2897 | in plain arithmetic: the copies cost nothing, or no more than the threshold times the boost and times the ratio of the two prices |
| UnrollMaps.Unroller.IsWorthwhile | Luau/Compiler/src/Compiler.cpp:2881-2897 | the decision, from the price with the variable constant and the price without |
| UnrollMaps.Unroller.CompileUnrolledFor | Luau/Compiler/src/Compiler.cpp:2905-2949 | every copy is compiled in maps that are right for it, nested unrolling included, and the maps come back |
| UnrollJumps.UnrolledCodeRuns | Luau/Compiler/src/Compiler.cpp:2910-2938 | the patched code of the copies does what the bodies do in sequence, and control ends behind the loop |
| UnrollJumps.LoopEmitter.CompileUnrolledFor | Luau/Compiler/src/Compiler.cpp:2905-2949 | continues are patched to the next copy, breaks to the end, and the list of open jumps is as before |
| UnrolledLoop.PatchedCodeIsLoop | Luau/Compiler/src/Compiler.cpp:2905-2949 | if the code of each copy does what a round does, from every state and trace that stands for it, the patched code of all copies does what the loop does and ends where it ends |
| UnrolledExample.CopiesCompiled | Luau/Compiler/src/Compiler.cpp:2905-2949 | for a body that writes a local in one round and tests it in the next, straight-line code and a test alone are such copies, whatever the host |
| CostModel.AddSatIsPlain | Luau/Compiler/src/CostModel.cpp:14-20 | the packed sum is min(127, x + y) in every one of the eight lanes |
| CostModel.MulSatIsPlain | Luau/Compiler/src/CostModel.cpp:22-40 | the packed product is min(127, x * b) in every lane, for every factor |
| CostAlgebra.MeetWord | Luau/Compiler/src/CostModel.cpp:100-104 | and-ing two masks keeps exactly the variable that makes both sides constant |
| CostAlgebra.FoldRepresents | Luau/Compiler/src/CostModel.cpp:97-111 | folding packed costs is folding plain ones: one instruction more, with a discount for the shared variable |
| CostAlgebra.EveryCostIsPlain | Luau/Compiler/src/CostModel.cpp:61-112 | every cost that can be built is the plain one packed, and its discounts add up to at most its baseline unless that is saturated |
| CostAlgebra.PriceInRange | Luau/Compiler/src/CostModel.cpp:385-397 | whatever is constant, the price lies between 0 and 127 and below the price without discounts |
| CostAlgebra.ComputeCost | Luau/Compiler/src/CostModel.cpp:385-397 | the loop takes from any word the baseline less the selected discounts, and leaves a saturated baseline alone |
| CostDiscounts.DiscountIsSaving | Luau/Compiler/src/CostModel.cpp:97-111 | the price is never below the cost with the constant variables replaced by literals; it equals that below saturation iff operands that become literals together share a variable, and at saturation iff 127 or more instructions remain with literals |
| CostDiscounts.CostIsRemaining | Luau/Compiler/src/CostModel.cpp:61-112 | the cost with literals is the number of the instructions that do not fold, cut off at 127 |
| CostDiscounts.TwoVariablesAreNotShared | Luau/Compiler/src/CostModel.cpp:100-104 | folding two variables, both constant, costs nothing but is priced at one |
| CostDiscounts.OneFlagIsShared | Luau/Compiler/src/CostModel.cpp:100-104 | with at most one constant variable, operands that become literals together always share it |
| CostDiscounts.SaturatedHasNoDiscount | Luau/Compiler/src/CostModel.cpp:385-391 | a cost that saturates is priced in full although it would be nothing with a literal |
| CostVisitors.CostVisitor.Model | Luau/Compiler/src/CostModel.cpp:127-233 | the packed cost of an expression is the packed plain cost |
| CostVisitors.CostVisitor.Visit | Luau/Compiler/src/CostModel.cpp:235-371 | result and masks after any statement are those of the plain tally |
| CostVisitors.ModelCost | Luau/Compiler/src/CostModel.cpp:374-383 | the same for a body with its parameters, of which the first seven can be discounted |
| CostVisitors.BodyPrice | Luau/Compiler/src/CostModel.cpp:374-397 | whatever the body, its price is in range |
| CostCount.OpsAre | Luau/Compiler/src/CostModel.cpp:127-233 | the cost of an expression is a count over its nodes by a price list, without masks, lanes or saturation, whatever parameters are made constant |
| CostCount.StatCounts | Luau/Compiler/src/CostModel.cpp:235-371 | so is that of a statement, loops included |
| CostCount.BodyIsCounted | Luau/Compiler/src/CostModel.cpp:374-383 | the cost of a body with any of its parameters constant is what is left of the count, cut off at 127 |
| CostCount.ParametersKnown | Luau/Compiler/src/CostModel.cpp:374-381 | the constants known at first are the flagged ones among the first seven parameters |
| CostCount.DeclaredIsKnown | Luau/Compiler/src/CostModel.cpp:314-328 | a new local is a constant exactly when its value leaves nothing to compute |
| CostCount.AssignedIsUnknown | Luau/Compiler/src/CostModel.cpp:235-242 | a local that is assigned is none any more, and the others stay as they were |
| CostCount.RoundsAre | Luau/Compiler/src/CostModel.cpp:263-278 | a loop counts three times unless numerals in its head give its trip count |
| EditScripts.TableGivesDistance | Luau/Ast/src/StringUtils.cpp:141-198 | the last entry of a filled table is the length of the shortest script of insertions, deletions, replacements and swaps |
| EditScripts.StripFirst | Luau/Ast/src/StringUtils.cpp:122-126 | a common first character does not change the distance |
| EditScripts.StripLast | Luau/Ast/src/StringUtils.cpp:128-132 | neither does a common last one |
| EditTable.FillTable | Luau/Ast/src/StringUtils.cpp:141-198 | the flat table with `seenCharToRow` and `lastMatchedY` is filled as defined, and the result is the distance |
| EditTable.EditDistance | Luau/Ast/src/StringUtils.cpp:119-199 | with prefix and suffix stripped first, the result is exactly the distance |
| ExprGrammar.ParseInvertsPrint | Luau/Ast/src/Parser.cpp:1942-2008 | parsing with a limit returns a tree of operators, if-else expressions and type assertions exactly when the tokens read are its text, it needs no missing parentheses, and what follows neither binds more tightly nor belongs to its open end |
| LayeredGrammar.ParsesTheGrammar | Luau/Ast/src/Parser.cpp:1942-2008 | the parser returns exactly the trees of the grammar in layers (or, and, comparison, concatenation to the right, sums, products, prefixes, powers to the right, type assertions), up to where neither an operator nor an assertion follows |
| LayeredGrammar.WholeTexts | Luau/Ast/src/Parser.cpp:1944-1951 | a text is read to its end as a tree if and only if the grammar derives it |
| ExprGrammar.ReadingIsUnique | Luau/Ast/src/Parser.cpp:1944-1949 | two well-formed trees with the same text are equal |
| ExprGrammar.AnyTreeCanBeWritten | Luau/Ast/src/Parser.cpp:2031-2058 | with parentheses where they are needed every tree has a text that reads back, around left operands that would take the operator and around what cannot have a type asserted |
| ExprGrammar.OperatorTokens | Luau/Ast/src/Parser.cpp:1813-1860 | every operator is recognised from its own token and no other |
| ExprParser.Parser.ParseExpr | Luau/Ast/src/Parser.cpp:1942-2008 | the climbing loop returns what the grammar says and stops right behind it, with the recursion counter restored |
| ExprParser.Parser.ParseIfElseExpr | Luau/Ast/src/Parser.cpp:2441-2472 | the same for if-else expressions and chains of `elseif` |
| StringEscape.Escape | Luau/Ast/src/StringUtils.cpp:238-296 | the loop appends the escape of every byte |
| StringEscape.UnescapeUndoesEscape | Luau/Ast/src/StringUtils.cpp:238-296 | for every byte string and both modes, undoing the escapes gives the string back |
| StringEscape.FixupQuotedString | Luau/Ast/src/Lexer.cpp:1122-1267 | in place: true exactly if all escapes are well formed, and then the front of the buffer is the unescaped text; the write position never passes the read position |
| StringEscape.NothingToUnescape | Luau/Ast/src/Lexer.cpp:1124-1125 | text without a backslash stays as it is |
| EscapeGrammar.MeansItsPieces | Luau/Ast/src/Lexer.cpp:1122-1267 | text is accepted if and only if it is made of well-formed pieces (characters, escape letters, line ends, two hexadecimal digits, up to three decimal ones, code points, skipped blanks), and then it says what they mean |
| EscapeGrammar.CodeIsNumber | Luau/Ast/src/Lexer.cpp:1193-1232 | a code point in an accepted sequence is its number if and only if that is below 0x110000 |
| EscapeGrammar.CodeWraps | Luau/Ast/src/Lexer.cpp:1193-1232 | the number 0x100000041 is read as an `A` |
| EscapeGrammar.Utf8Is | Luau/Ast/src/Lexer.cpp:1084-1120 | a code point becomes its only UTF-8 encoding, a larger number nothing |
| EscapeGrammar.EscapedPiece | Luau/Ast/src/StringUtils.cpp:238-296 | the piece that each character is escaped as |
| EscapeGrammar.OrdinaryStays | Luau/Ast/src/StringUtils.cpp:238-296 | printable text without special characters is left as it is |
| EscapeGrammar.QuotedPieces | Luau/Ast/src/Lexer.cpp:563-620 | any pieces without a bare delimiter, line end or zero are one token between quotes, which says what they mean |
| EscapeGrammar.SectionPieces | Luau/Ast/src/Lexer.cpp:632-683 | the same between backticks |
| EscapeGrammar.BrokenPieces | Luau/Ast/src/Lexer.cpp:589-620 | a bare line end, a zero or the end of the text breaks the token there |
| EscapeGrammar.OpeningPieces | Luau/Ast/src/Lexer.cpp:632-683 | a bare brace opens an expression, unless it is doubled |
| StringLexer.Lexer.ReadQuotedString | Luau/Ast/src/Lexer.cpp:589-620 | token and position as the specification says, with lines counted |
| StringLexer.Lexer.ReadInterpolatedStringBegin | Luau/Ast/src/Lexer.cpp:622-683 | the same for an interpolated string, with the brace pushed if an expression follows |
| StringLexer.QuotedRoundTrip | Luau/Ast/src/Lexer.cpp:563-620 | escaped text between quotes is one token that spans it exactly and says the text |
| StringLexer.InterpolatedRoundTrip | Luau/Ast/src/Lexer.cpp:632-683 | the same between backticks |
| ByteStream.VarIntReadsBack | Luau/Compiler/src/BytecodeBuilder.cpp:53-60 | a variable-length number reads back, whatever follows |
| ByteStream.VarIntLength | Luau/Compiler/src/BytecodeBuilder.cpp:53-60 | a 32-bit one takes at most five bytes |
| ByteStream.ListReadsBack | Luau/Compiler/src/BytecodeBuilder.cpp:873-890 | a counted list of items that read back reads back |
| LineInfo.FindSpan | Luau/Compiler/src/BytecodeBuilder.cpp:794-821 | the shrinking span ends as the largest power of two (up to 24) whose every window spans at most 255 lines, although earlier windows are not scanned again |
| LineInfo.AppendLineInfo | Luau/Compiler/src/BytecodeBuilder.cpp:790-871 | baselines are the least lines of their windows, so that all offsets fit a byte |
| LineInfo.LineInfoRoundTrip | Luau/VM/src/ldebug.cpp:394-401 | wrapped deltas and baselines decode to the lines |
| BytecodeLayout.FunctionLaid | Luau/Compiler/src/BytecodeBuilder.cpp:650-788 | a function is its fields in the order of one table |
| BytecodeLayout.ConstantLaid | Luau/Compiler/src/BytecodeBuilder.cpp:675-729 | a constant is its tag, by number, and the fields that the tag calls for |
| BytecodeLayout.FileLaid | Luau/Compiler/src/BytecodeBuilder.cpp:614-648 | so is the file: versions, strings, functions, main function |
| BytecodeLayout.WordBytes | Luau/Compiler/src/BytecodeBuilder.cpp:38-41 | a word has its lowest byte first, a negative one those of its two's complement |
| BytecodeLayout.VarIntBytes | Luau/Compiler/src/BytecodeBuilder.cpp:53-60 | seven bits in each byte, the lowest first, and a top bit that says that more follow |
| BytecodeLayout.VarIntSize | Luau/Compiler/src/BytecodeBuilder.cpp:53-60 | no byte more than needed |
| BytecodeLayout.LineBytes | Luau/Compiler/src/BytecodeBuilder.cpp:848-862 | each byte of line info is the change, modulo 256, in how far the line lies above its window's baseline |
| BytecodeLayout.BaselineBytes | Luau/Compiler/src/BytecodeBuilder.cpp:863-870 | then the changes of the baselines, as words |
| FunctionFormat.FunctionRoundTrip | Luau/Compiler/src/BytecodeBuilder.cpp:650-788 | the loader recovers instructions, constants, children and debug info and leaves what follows |
| BytecodeFile.FileRoundTrip | Luau/Compiler/src/BytecodeBuilder.cpp:614-648 | strings, functions and main function survive the whole file |
| BytecodeFile.OneId | Luau/Compiler/src/BytecodeBuilder.cpp:312-326 | a string has one id only |
| BytecodeFile.BytecodeBuilder.AddStringTableEntry | Luau/Compiler/src/BytecodeBuilder.cpp:312-326 | equal strings share an id, new ones get the next, ids start at one |
| BytecodeFile.BytecodeBuilder.WriteStringTable | Luau/Compiler/src/BytecodeBuilder.cpp:873-890 | the table is written in the order of ids |
| BytecodeFile.BytecodeBuilder.WriteFunction | Luau/Compiler/src/BytecodeBuilder.cpp:650-788 | what is appended reads back as the function |
| BytecodeFile.BytecodeBuilder.Finalize | Luau/VM/src/lvmload.cpp:156-423 | the loader reads exactly the strings interned and functions ended |
| Bit32.FoldAgreesWithRun | Luau/Compiler/src/BuiltinFolding.cpp:251-410 | for every `bit32` call the folder yields what the library returns for the same arguments, save that it leaves alone calls without arguments, surplus arguments, and shifts by a negative amount or by 32 and more |
| Bit32.LshiftResults | Luau/VM/src/lbitlib.cpp:69-95 | bit by bit, a left shift moves the bits of its first argument up by its second one, also by negative amounts and by more than 31 |
| Bit32.RshiftResults | Luau/VM/src/lbitlib.cpp:69-100 | a right shift moves them down |
| Bit32.ArshiftResults | Luau/VM/src/lbitlib.cpp:102-117 | so does an arithmetic one, with copies of the highest bit coming in |
| Bit32.LrotateResults | Luau/VM/src/lbitlib.cpp:119-133 | a rotation to the left moves them up, around the ends of the word |
| Bit32.RrotateResults | Luau/VM/src/lbitlib.cpp:119-138 | one to the right moves them down |
| Bit32.ExtractResults | Luau/VM/src/lbitlib.cpp:146-166 | the bits of a field at the bottom, or an error exactly when the field is not inside the word |
| Bit32.ReplaceResults | Luau/VM/src/lbitlib.cpp:146-179 | the bits of a field replaced, all others kept |
| Bit32.VariadicResults | Luau/VM/src/lbitlib.cpp:19-60 | a bit of the conjunction is in all arguments, one of the disjunction in some, one of the exclusive or in an odd number |
| Bit32.TestResults | Luau/VM/src/lbitlib.cpp:35-40 | the test is whether all arguments have a bit in common |
| Bit32.ComplementResults | Luau/VM/src/lbitlib.cpp:62-67 | a bit of the complement is one that the argument lacks |
| Bit32.WordBits | Luau/VM/src/lnumutils.h:52-63 | a word holds the low bits of the integer, of its two's complement if it is negative |
| Bit32.TruncatedIs | Luau/VM/src/lnumutils.h:52-63 | a number is cut off towards zero |
| Bit32.VariadicAgree | Luau/VM/src/lbitlib.cpp:19-60 | folding from the first argument and running from all ones or zero give the same word |
| Bit32.RotateBits | Luau/VM/src/lbitlib.cpp:119-128 | a rotation moves every bit by the amount, modulo 32, for negative amounts too |
| Bit32.Masks | Luau/VM/src/lbitlib.cpp:146-179 | the two ways of building a field mask agree for every width |
| Bit32.FoldBand | Luau/Compiler/src/BuiltinFolding.cpp:262-277 | the loop gives the conjunction, or nothing at an argument that is no constant number |
| Bit32.FoldBor | Luau/Compiler/src/BuiltinFolding.cpp:284-299 | the same for disjunction |
| Bit32.FoldBxor | Luau/Compiler/src/BuiltinFolding.cpp:301-316 | the same for exclusive or |
| Bit32.AndAux | Luau/VM/src/lbitlib.cpp:19-26 | the run-time loop for conjunction |
| Bit32.BOr | Luau/VM/src/lbitlib.cpp:42-50 | the run-time loop for disjunction |
| Bit32.BXor | Luau/VM/src/lbitlib.cpp:52-60 | the run-time loop for exclusive or |
| Registry.RefIsFresh | Luau/VM/src/lapi.cpp:1369-1396 | a new reference is no live one, refers to its value and disturbs no other; the free list stays a chain of distinct dead slots |
| Registry.UnrefReleases | Luau/VM/src/lapi.cpp:1398-1408 | a released reference is dead, and no other one changes |
| Registry.UnrefExactly | Luau/VM/src/lapi.cpp:1398-1408 | releasing leaves the registry orderly if and only if the reference is none, live, or the next one never made |
| Registry.DoubleRelease | Luau/VM/src/lapi.cpp:1398-1408 | a reference released twice links to itself and is handed out twice |
| Registry.RunIsSafe | Luau/VM/src/lapi.cpp:1369-1408 | over every run from an orderly registry, slots 1 to n stay filled, the free list stays acyclic, every live reference reads back its value, and none is handed out while it is live |
| Registry.EmptyIsValid | Luau/VM/src/lapi.cpp:1369-1408 | an empty registry is orderly |
| Registry.LuaState.Ref | Luau/VM/src/lapi.cpp:1369-1396 | the method does what the specification says and keeps the order |
| Registry.LuaState.Unref | Luau/VM/src/lapi.cpp:1398-1408 | the same for releasing |
| WebSocketFrames.ParseUndoesEncode | easywsclient/easywsclient.cpp:386-444 | a frame written in any length form, masked or not, reads back, whatever follows (section 5.2 of RFC 6455) |
| WebSocketFrames.EncodedHeader | easywsclient/easywsclient.cpp:386-437 | the bits of the first two bytes, the size of the length and the place of the key (section 5.2 of RFC 6455) |
| WebSocketFrames.EncodedLength | easywsclient/easywsclient.cpp:398-437 | each byte of a long length, the highest first |
| WebSocketFrames.EncodedPayload | easywsclient/easywsclient.cpp:438-443 | each bit of the payload on the wire is the exclusive or of the payload's and that of the key byte at its index modulo four (section 5.3 of RFC 6455) |
| WebSocketFrames.ParseMore | easywsclient/easywsclient.cpp:271-338 | more data never changes what a whole frame, or a bad one, was read as |
| WebSocketFrames.MaskedTwice | easywsclient/easywsclient.cpp:347 | masking twice with one key gives the data back (section 5.3 of RFC 6455) |
| WebSocketEndpoint.SentBytes | easywsclient/easywsclient.cpp:386-444 | sending appends one final frame of the given number, masked by a client with its fixed key |
| WebSocketEndpoint.FirstBytes | easywsclient/easywsclient.cpp:367-452 | the first byte of text, binary, ping and pong frames, and the six bytes that closing puts out |
| WebSocketEndpoint.AppliedByNumber | easywsclient/easywsclient.cpp:336-362 | what each frame number does: data, ping, pong, and closing for any other |
| WebSocketEndpoint.PollIs | easywsclient/easywsclient.cpp:189-249 | one poll takes in all pieces that have arrived, puts out as many bytes as are taken, and closes a closing endpoint that has nothing left |
| WebSocketEndpoint.CutsDoNotMatter | easywsclient/easywsclient.cpp:271-366 | dispatching after every received piece ends in the same state as dispatching once |
| WebSocketEndpoint.DispatchesFrames | easywsclient/easywsclient.cpp:271-366 | a stream of encoded frames is handled frame by frame, in order |
| WebSocketEndpoint.FragmentsRoundTrip | easywsclient/easywsclient.cpp:271-366 | messages in any number of fragments, with pings of any payload between fragments and messages, cut in any way: each message is delivered once, whole and in order, and each ping is answered in order with a pong of its payload (sections 5.4 and 5.5 of RFC 6455) |
| WebSocketEndpoint.AppliesParts | easywsclient/easywsclient.cpp:342-359 | the fragments of a message, and the pings between them, deliver one message that is their concatenation |
| WebSocketEndpoint.StreamRoundTrip | easywsclient/easywsclient.cpp:271-444 | messages and pings sent by one side and cut in any way are delivered by the other exactly once, in order, with every ping answered by a pong of equal payload and nothing left over |
| WebSocketEndpoint.PartOfStream | easywsclient/easywsclient.cpp:207-366 | while part of the stream has not arrived, the first of the messages have, whole and in order |
| WebSocketEndpoint.RunKeepsOrder | easywsclient/easywsclient.cpp:189-452 | over every run of sending, polling, dispatching and closing, with any answers of the operating system: what has gone out and what waits are exactly the frames put out, in order, and none follows a close frame (section 5.5.1 of RFC 6455) |
| WebSocketEndpoint.PollKeepsOrder | easywsclient/easywsclient.cpp:189-249 | polling moves bytes in order from the transmit buffer to what has gone out, which only grows, whatever the operating system answers |
| WebSocketEndpoint.DispatchKeepsOrder | easywsclient/easywsclient.cpp:271-366 | whatever arrives, no frame is sent after the close frame (section 5.5.1 of RFC 6455) |
| WebSocketEndpoint.SendKeepsOrder | easywsclient/easywsclient.cpp:386-444 | neither by sending |
| WebSocketEndpoint.CloseKeepsOrder | easywsclient/easywsclient.cpp:446-452 | nor by closing, once or again |
| WebSocket.RealWebSocket.SendData | easywsclient/easywsclient.cpp:386-444 | header, mask and payload are appended as the frame says, or nothing while closing |
| WebSocket.RealWebSocket.DispatchBinary | easywsclient/easywsclient.cpp:271-366 | the loop over the receive buffer handles every whole frame and leaves the rest |
| WebSocket.RealWebSocket.Poll | easywsclient/easywsclient.cpp:189-249 | receives until blocked or disconnected, sends until blocked, broken or empty, and closes once everything is out |
| WebSocket.RealWebSocket.Close | easywsclient/easywsclient.cpp:446-452 | puts out one close frame |

## Left out

- Code generation for calls, variadic arguments and multiple results, closures, table constructors, interpolated
  strings, imports and inlining.
- The hash predictions in AUX words, debug lines, coverage and remarks.
- EmitProof.ExprCorrect: jump offsets are not bounded at this level; the bytecode builder refuses or expands what is too
  far. A local without a register is an error. A local in a register is written by the statement itself only: a
  captured local that foreign code writes while an expression is evaluated is not modelled; the compiler reads locals
  lazily, and its own comment (`Luau/Compiler/src/Compiler.cpp:3116-3122`) leaves the order of such accesses open. Recorded
  constants are kept per expression, equal expressions sharing one, where the compiler keeps them per node.
- FoldKnown.FoldedCodeCorrect: expressions of the emitter's language, which has no calls, functions, tables and the like.
- AssignProof.EmittedAssignCorrect: a local that is assigned has a register of its own, and the number of registers for
  the last value fits a byte (see above); captured locals as for expressions.
- AssignDropped.AssignCorrect: the same, and no surplus value is a global (see above).
- JumpExpandProof.ExpansionPreserves: every jump target is the start of an instruction, no skip passes over a trampoline,
  and new offsets fit their fields.
- The count of pending trampolines in `expandJumps`, which only an assertion reads.
- FoldProof.ConstantEvaluates: what a built-in function gives for constants is an arbitrary function, the same when folding
  and when running (`Bit32` shows that it is for `bit32`). A call to one evaluates its arguments first and looks the
  function up only if it cannot do without, as the fast call does. Constants of the `math` table are accesses that are
  recognised in the same way.
- FoldVisitor.FoldingIsSound: every local is declared once and before its uses, as the parser guarantees; what
  variadic arguments hold is up to the host.
- FoldVisitor.ValueVisitor.Visit: which globals are written, and the initial values of locals, are not recorded.
- FoldUnroll.UnrolledIsLoop: arithmetic on integers of up to 32 bits is exact, as IEEE 754 arithmetic is.
- Rounding in constant folding: arithmetic is an arbitrary function, the same at compile time and at run time.
- ExprGrammar.ParseInvertsPrint: operands without operators of their own, and types, are single tokens. Error recovery for
  misspelt operators and the recursion limit's error are left out.
- ExprParser.Parser.ParseExpr: the same.
- UnrollJumps.UnrolledCodeRuns: the bodies are abstract code; compiling statements is left out, and
  UnrolledLoop.PatchedCodeIsLoop takes as given that each body is compiled to code that does what a round does.
- UnrollMaps.Unroller.TryCompileUnrolledFor: decides, and keeps the maps; the code of the copies is emitted in UnrollJumps.
- UnrollMaps.Unroller.CompileUnrolledFor: the same.
- UnrollJumps.LoopEmitter.CompileUnrolledFor: the bodies are given as code, see UnrollJumps.UnrolledCodeRuns.
- Long brackets and comments in the lexer, and Unicode beyond the encoding of one code point.
- FunctionFormat.FunctionRoundTrip: constants of kind closure, table and import are kept as the indices that are written;
  resolving them when loading is not part of this model.
- Type information in functions is an uninterpreted byte string.
- WebSocketEndpoint.StreamRoundTrip: the opening handshake is left out, and callbacks do not call back into the endpoint.
- WebSocket.RealWebSocket.Poll: what the socket answers is a parameter; timeouts and `select` are left out.
- Registry.RunIsSafe: only live references are released, or none (see above for the others).
- Bit32.FoldAgreesWithRun: numbers are reals, and both sides truncate them. Infinities, values beyond 64 bits, amounts of
  shifts and positions and widths of fields beyond 32 bits, and overflow in adding the latter two, all of which C leaves
  undefined, are left out, and so are 32-bit Windows builds, whose
  run-time conversion rounds (`Luau/VM/src/lnumutils.h:52-60`).
- Host process access, hooks, logging and everything under `Internal/` and `Security/`.
