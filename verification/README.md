# Verified models of the EquantOS ports

EquantOS carries a C compiler (TCC), a terminal emulator (st) and a small
formatting library of its own. This project models the parts of them whose
correctness is hardest to see from the code, and proves what they promise.

**Compiler back ends.** `A64Machine.dfy` is an interpreter for the A64
instructions that the back end emits. Against it, `A64LogicalImm.dfy`,
`A64Mov.dfy`, `A64Opic.dfy` and `A64Reloc.dfy` prove that emitted words mean the
intended operation. `A64Hfa.dfy` and `A64Pcs.dfy` are argument passing (section
5.4.2 of AAPCS64, Arm IHI 0055B). `ArmConst.dfy` and `ArmVfp.dfy` are 32-bit ARM
constants, addresses, branches and floating-point arguments (section A5.2.4 of
Arm DDI 0406C; section 6.1.2 of the AAPCS, Arm IHI 0042). `JumpLists.dfy` is the
i386 back end's lists of unresolved jumps, threaded through the code bytes, and
`JumpTargets.dfy` reads the finished bytes as the processor does. `AsmOperands.dfy`
and `AsmConstraints.dfy` are the register allocator for inline assembly;
`AsmRegisters.dfy` says what it gives in terms of the constraint texts alone.

**Terminal.** `TermModel.dfy` gives every operation of st's core as a function on
values. `TermInvariant.dfy` proves what every step keeps, `TermRun.dfy` what holds
over whole runs and byte streams, `TermLaws.dfy` what single operations mean, and
`TermCounts.dfy` what they do with counts below one. What a program's bytes do is
described without the dispatch: `TermBytes.dfy` brings them to the handlers, and
`TermMotion.dfy`, `TermEdits.dfy`, `TermTabs.dfy`, `TermControls.dfy`,
`TermModes.dfy`, `TermStrings.dfy` and `TermStream.dfy` say what each sequence,
code or text does to the screen.
`Terminal.dfy` is the program's own form: two arrays of line pointers into a store
of lines, changed in place, each method proved against its function. `Utf8.dfy` is
the codec (section 3 of RFC 3629).

**Formatter.** `Formatter.dfy` is the kernel's `vsnprintf` and the number printing
beneath it; `FormatPieces.dfy` describes its output by the pieces of the format.

Everything external is a parameter: the width of a rune, the effect of colour
sequences, window contents, symbol addresses, type sizes. Integers are unbounded
except where the code's width matters; machine words are bit vectors.

## Findings

Where the code does not do what a reader would expect, the code is kept as it is,
with an input that shows it and the exact condition under which it does.

- Erase-above (ED 1) leaves the first row untouched when the cursor is on the second: `TermLaws.EraseAboveMisses`, `TermLaws.EraseAboveExact`.
- Scrolling by a count below one, which a negative argument gives, blanks a row outside the region: `TermCounts.NegativeScroll`, `TermCounts.ScrollUpExact`, `TermCounts.ScrollDownExact`.
- Inserting, deleting or erasing such a count of cells blanks cells too: `TermCounts.NegativeEdits`, `TermCounts.InsertNoneExact`, `TermCounts.DeleteNoneExact`, `TermCounts.EraseNoneExact`.
- A plain `%d` prints a negative number as its unsigned bits: `Formatter.PlainDecimalFails`, `Formatter.PlainDecimal`.
- A long `%u` prints a value with its top bit set as a negative number: `Formatter.LongUnsignedFails`, `Formatter.LongUnsigned`.
- The ARM branch guard accepts distances twice as far as a branch reaches: `ArmConst.BranchGuardTooWide`, `ArmConst.BranchRoundTrip`.
- A comment says that three VFP holes are the most there can be, and the array has three entries; four occur: `ArmVfp.FourthHole`, `ArmVfp.ThreeEntriesExact`, `ArmVfp.HolesBound`.
- The location code of an empty struct reads as a vector register once the core registers are used up: `A64Pcs.EmptyMisread`, `A64Pcs.MisreadExact`.
- A shift by a constant that is a nonzero multiple of the operand's width, such as an int shifted by 32, passes the front end, which drops only shifts by 0 (ports/tcc/src/tccgen.c:1964-1970), and fails an assertion in the A64 back end: `A64Opic.ShiftByWidthAborts`, `A64Opic.ShiftAbortsExact`.
- A reference to an asm operand that is itself a reference is left without a register: `AsmConstraints.ChainedReference`, `AsmConstraints.TiedExact`.
- The `%` modifier of an asm constraint is skipped when operands are read but refused when they are allocated: `AsmConstraints.PercentRefused`, `AsmConstraints.PercentExact`.

## Model

| member | source | states |
|---|---|---|
| `A64LogicalImm.EncodeSound` | ports/tcc/src/arm64-gen.c:106-153 | whatever the logical-immediate encoder returns fits thirteen bits and decodes, by DecodeBitMasks, to the value encoded |
| `A64LogicalImm.EncodeComplete` | ports/tcc/src/arm64-gen.c:106-153 | every value that some N:immr:imms stands for is encoded |
| `A64LogicalImm.EncodeExact` | ports/tcc/src/arm64-gen.c:106-153 | the encoder fails if and only if no field pattern decodes to the value |
| `A64LogicalImm.EncodeNarrow` | ports/tcc/src/arm64-gen.c:106-153 | the encoding of a 32-bit value written twice has N clear, so it is valid in a 32-bit instruction |
| `A64Mov.MovISets` | ports/tcc/src/arm64-gen.c:155-190 | when one MOVZ, MOVN or ORR is found, executing it leaves exactly x in the register |
| `A64Mov.MovImm` | ports/tcc/src/arm64-gen.c:192-221 | for every 64-bit x and register below 31, the one to four words appended leave exactly x in the register and change no other; when no single instruction does, their number is four less the larger of the counts of zero and all-one sixteen-bit pieces |
| `A64Mov.MovMany` | ports/tcc/src/arm64-gen.c:197-220 | the case without a single instruction: the emitted MOVZ or MOVN and MOVKs build x, one per piece that differs from the fill |
| `A64Mov.MovRest` | ports/tcc/src/arm64-gen.c:216-218 | each MOVK of the second loop extends a correct prefix; the whole builds x |
| `A64Opic.GenOpic` | ports/tcc/src/arm64-gen.c:1341-1415 | for every operation and constant, which of three ways it ends: the words emitted compute a op val (val op a when reversed) at 32 or 64 bits into x, touching only x and x30; the operation is left to the caller; or, exactly for an unreversed shift by a multiple of the width, the assertion fails |
| `A64Opic.GenAdd` | ports/tcc/src/arm64-gen.c:1352-1365 | an added constant by immediate, shifted immediate or a built constant: the words compute the sum at the given width |
| `A64Opic.GenSubFrom` | ports/tcc/src/arm64-gen.c:1367-1376 | a constant minus a register, by NEG, MVN or a built constant |
| `A64Opic.GenLogic` | ports/tcc/src/arm64-gen.c:1378-1393 | a bitwise operation with a constant is emitted exactly when the constant is a logical immediate, or is all ones under exclusive or, and then means that operation |
| `A64Opic.GenShift` | ports/tcc/src/arm64-gen.c:1395-1411 | a shift by a constant as one bitfield move means that shift at the given width; a distance of zero emits nothing and fails the assertion |
| `A64Opic.ShiftAbortsExact` | ports/tcc/src/arm64-gen.c:1395-1411 | a shift whose constant is not 0, which is all the front end filters out, fails the assertion if and only if the constant is a multiple of the width |
| `A64Opic.ShiftByWidthAborts` | ports/tcc/src/arm64-gen.c:1402-1403 | a 32-bit value shifted left by 32 |
| `A64Reloc.Relocate` | ports/tcc/src/arm64-link.c:174-214 | rewrites one instruction word in place, or changes nothing when the value is out of reach |
| `A64Reloc.SymLoads` | ports/tcc/src/arm64-gen.c:421-447 | the four words for a symbol, after relocations G0 to G3, load exactly its address |
| `A64Reloc.AdrpAddLoads` | ports/tcc/src/arm64-link.c:190-201 | an ADRP at addr and the ADD after it, when the range check accepts them, compute exactly val |
| `A64Reloc.PageRangeExact` | ports/tcc/src/arm64-link.c:190-197 | the page-distance check accepts exactly the distances that some 21-bit field stands for |
| `A64Reloc.BranchTarget` | ports/tcc/src/arm64-link.c:202-214 | a relocated B or BL decodes to exactly the distance asked for |
| `A64Reloc.BranchRangeExact` | ports/tcc/src/arm64-link.c:202-214 | the branch check accepts exactly the multiples of four that some 26-bit field stands for |
| `A64Reloc.RelocKeeps` | ports/tcc/src/arm64-link.c:174-201 | a relocation changes only its own field: opcode and register bits of the word survive |
| `A64Hfa.HfaCount` | ports/tcc/src/arm64-gen.c:650-662 | at most four registers are asked for |
| `A64Hfa.HfaSound` | ports/tcc/src/arm64-gen.c:592-662 | a type that is counted consists of floating members of one size only, each in one of n places end to end, and they fill the type |
| `A64Hfa.HfaExact` | ports/tcc/src/arm64-gen.c:592-662 | a type counts as n if and only if it is made of n members of one size, one to four, struct members end to end, union members overlaid, every part filled |
| `A64Hfa.PaddedUnion` | ports/tcc/src/arm64-gen.c:622-633 | members of one size in every place are not enough: a union with a padded part has them and is not counted |
| `A64Pcs.PlaceIs` | ports/tcc/src/arm64-gen.c:670-780 | the fifteen numbered steps for one argument come to three rules: pointer to a copy, vector registers, or core registers |
| `A64Pcs.FirstPlace` | ports/tcc/src/arm64-gen.c:670-780 | where a first argument goes, by its type alone: v0 on for floating values and homogeneous aggregates, x0 or the pair x0 and x1 for up to 8 or 16 bytes, x0 with the pointer flag for more |
| `A64Pcs.PairEven` | ports/tcc/src/arm64-gen.c:741-757 | a 16-byte value aligned to 16 starts at an even core register |
| `A64Pcs.PlaceFits` | ports/tcc/src/arm64-gen.c:670-780 | each argument gets a place of its own kind just past everything handed out, its low bit telling whether a pointer is passed, unless its code is misread |
| `A64Pcs.PlaceSpills` | ports/tcc/src/arm64-gen.c:670-780 | an argument that spills uses up the registers of its kind, and one met with none left spills or is misread |
| `A64Pcs.PcsAux` | ports/tcc/src/arm64-gen.c:664-783 | every list of argument types, empty structs included, gets the places of the three rules, pairwise apart in core registers, vector registers and stack bytes inside the returned size, a multiple of eight; once a kind has spilled it stays on the stack; the exception is exactly an argument without registers met when no core register is left |
| `A64Pcs.StackAligned` | ports/tcc/src/arm64-gen.c:664-783 | a stacked argument that is not a pointer starts at a multiple of its alignment |
| `A64Pcs.MisreadExact` | ports/tcc/src/arm64-gen.c:741-757 | a location code is misread if and only if the argument takes no register and the core registers are used up, counting the one skipped for alignment |
| `A64Pcs.EmptyStruct` | ports/tcc/src/arm64-gen.c:741-757 | the same for an empty struct of any alignment |
| `A64Pcs.EmptyMisread` | ports/tcc/src/arm64-gen.c:741-757 | after eight longs an empty struct and the double after it both get the code of the first vector register |
| `A64Pcs.CTypeIsArg` | ports/tcc/src/arm64-gen.c:671-678 | the sizes and alignments required of arguments are those of every C type: an alignment that is a power of two dividing the size |
| `CodeText.Text.O` | ports/tcc/src/arm64-gen.c:95-104 | appends one word to the text section |
| `ArmConst.PackImm` | ports/tcc/src/arm-gen.c:272-281 | for every data-processing immediate, the search over the sixteen rotations fails exactly when no rotated byte is c, and otherwise gives op with the operand c and all its other fields |
| `ArmConst.StuffConst` | ports/tcc/src/arm-gen.c:236-286 | for every data-processing immediate: with the eight operations that leave the flags alone the result is 0 if and only if neither c nor its replacement under the complementary operation fits, and otherwise a word that means op with c; with any other it is 0 if and only if c does not fit, and otherwise op with the operand c |
| `ArmConst.FindPair` | ports/tcc/src/arm-gen.c:300-308 | finds two separate byte windows that cover v if and only if there are any |
| `ArmConst.FindTriple` | ports/tcc/src/arm-gen.c:320-329 | finds three separate byte windows that cover v if and only if there are any |
| `ArmConst.EmitPieces` | ports/tcc/src/arm-gen.c:302-307 | one instruction a piece, the first on the source and the rest on the destination, adds the sum of the pieces |
| `ArmConst.StuffConstHarder` | ports/tcc/src/arm-gen.c:290-344 | for every 32-bit v the words set rd to rn plus or minus v modulo 2^32, in one to four instructions: as few as the byte windows over v or its negative allow |
| `ArmConst.CalcAddr` | ports/tcc/src/arm-gen.c:417-442 | base and offset after the emitted code name the same address as before it, with the offset inside the range and aligned; nothing is emitted when it was already |
| `ArmConst.BranchRoundTrip` | ports/tcc/src/arm-gen.c:346-366 | a branch word leads where it was aimed if and only if the distance is a multiple of four that fits a signed 24-bit number of words |
| `ArmConst.BranchGuardTooWide` | ports/tcc/src/arm-gen.c:346-356 | a distance that the guard accepts and that leads backwards |
| `ArmVfp.AvailRegs.constructor` | ports/tcc/src/arm-gen.c:800-807 | no register in use and no hole recorded |
| `ArmVfp.AvailRegs.Assign` | ports/tcc/src/arm-gen.c:818-842 | until a spill the register returned is the lowest that is aligned, inside s0 to s15 and wholly free, or -1 when there is none; afterwards always -1 |
| `ArmVfp.AssignAll` | ports/tcc/src/arm-gen.c:962-992 | over every argument list each argument has the lowest place the earlier ones leave, no two share a register, doubles are even, and after one goes to the stack all do |
| `ArmVfp.HolesBound` | ports/tcc/src/arm-gen.c:818-842 | over every argument list at most four holes are recorded |
| `ArmVfp.ThreeEntriesExact` | ports/tcc/src/arm-gen.c:800-842 | the three-entry array suffices for a call if and only if the call is not a double met with three holes recorded and an odd register next |
| `ArmVfp.FourthHole` | ports/tcc/src/arm-gen.c:800-807 | an argument list that records a fourth hole |
| `JumpLists.PatchedReaches` | ports/tcc/src/i386-gen.c:133-141 | after patching, every slot of the chain holds the distance from its end to the target |
| `JumpLists.PatchedOnly` | ports/tcc/src/i386-gen.c:133-141 | patching changes no byte outside the slots of the chain |
| `JumpLists.SlotTarget` | ports/tcc/src/i386-gen.c:133-141 | a patched slot sends control to the target, modulo 2^32 |
| `JumpLists.EmitHolds` | ports/tcc/src/i386-gen.c:98-116 | appending code leaves every open label as it was |
| `JumpLists.CloseHolds` | ports/tcc/src/i386-gen.c:133-141 | patching one label binds its slots and leaves the other labels as they were |
| `JumpLists.JoinHolds` | ports/tcc/src/i386-gen.c:731-739 | threading one chain behind another makes one label of the two, disjoint from the rest |
| `JumpLists.Code.constructor` | ports/tcc/src/i386-gen.c:98-108 | an empty buffer without labels |
| `JumpLists.Code.G` | ports/tcc/src/i386-gen.c:98-108 | appends the low byte, growing the buffer as needed |
| `JumpLists.Code.O` | ports/tcc/src/i386-gen.c:110-116 | appends the bytes of an opcode, least significant first, up to its last that is not zero |
| `JumpLists.Code.GenLe32` | ports/tcc/src/i386-gen.c:124-130 | appends a word, least significant byte first |
| `JumpLists.Code.Oad` | ports/tcc/src/i386-gen.c:149-158 | appends an opcode and a 32-bit operand and returns where the operand is |
| `JumpLists.Code.Gjmp2` | ports/tcc/src/i386-gen.c:149-161 | the operand of the jump becomes the new first slot of the label |
| `JumpLists.Code.Gjmp` | ports/tcc/src/i386-gen.c:675-678 | an unconditional jump whose operand is the new first slot of the label |
| `JumpLists.Code.GsymAddr` | ports/tcc/src/i386-gen.c:133-141 | terminates, sends every slot of the label to the target, changes no other byte, and keeps the other labels |
| `JumpLists.Code.PatchList` | ports/tcc/src/i386-gen.c:135-140 | the walk alone: each link is read before it is overwritten |
| `JumpLists.Code.Gsym` | ports/tcc/src/i386-gen.c:143-146 | the same with the current position as target |
| `JumpLists.Code.AppendList` | ports/tcc/src/i386-gen.c:731-739 | walks to the end of one chain and writes one word there, which makes the chain the concatenation of the two |
| `JumpLists.Code.Gtst` | ports/tcc/src/i386-gen.c:720-747 | all cases of a test: a conditional jump, taken under exactly the flags for which the tested condition differs from inv; a matching list gives exactly the concatenation of the two chains by one changed word; an inverted list emits a jump and patches the old chain to the point after it |
| `JumpLists.CondByte` | ports/tcc/src/i386-gen.c:725-728 | the byte is one of the sixteen conditional jumps, and under every setting of the flags its condition holds exactly when the tested one differs from inv |
| `JumpLists.RunKeeps` | ports/tcc/src/i386-gen.c:98-158 | over every interleaving of emitting, jumping, patching and appending, live labels stay acyclic, pairwise disjoint chains covering all open slots, and a slot once patched keeps its target |
| `JumpLists.Act` | ports/tcc/src/i386-gen.c:98-158 | each action is what the method of that name does to the code buffer |
| `JumpLists.ActAll` | ports/tcc/src/i386-gen.c:98-158 | a run of actions on the code buffer is the run that RunKeeps speaks of |
| `JumpLists.Test` | ports/tcc/src/i386-gen.c:720-747 | every case of a test is a run of at most two of those actions |
| `JumpTargets.RunStill` | ports/tcc/src/i386-gen.c:98-158 | over every run the opcode bytes stay as they were emitted: only operand slots are rewritten |
| `JumpTargets.JumpGoes` | ports/tcc/src/i386-gen.c:675-678 | an unconditional jump, read back as the processor reads it after anything that follows, goes where its label was placed |
| `JumpTargets.TestGoes` | ports/tcc/src/i386-gen.c:720-728 | the jump of a test, read back after anything that follows, goes to its label exactly when the tested condition differs from inv, and on to the next instruction otherwise |
| `JumpTargets.ComparisonTested` | ports/tcc/src/i386-gen.c:787-790 | after comparing two words the condition of each comparison token holds exactly when that comparison does, signed or unsigned |
| `JumpTargets.ComparisonGoes` | ports/tcc/src/i386-gen.c:720-728 | comparing x with y and testing the result jumps to the label exactly when the comparison of the C source holds, or does not when inverted |
| `AsmOperands.ConstraintPriority` | ports/tcc/src/i386-asm.c:1141-1189 | the largest class among the letters, or an error exactly when one is unknown |
| `AsmOperands.ResolveOne` | ports/tcc/src/i386-asm.c:1248-1269 | one operand is resolved, or refused, as its reference, variable register or letters say |
| `AsmOperands.ResolveReferences` | ports/tcc/src/i386-asm.c:1236-1270 | all operands are resolved in order, or refused at the first that cannot be |
| `AsmOperands.ResolvedExact` | ports/tcc/src/i386-asm.c:1247-1270 | the operands are accepted if and only if each refers to an earlier operand, past the outputs, that no other refers to, or is made of known letters |
| `AsmOperands.ResolvedLinks` | ports/tcc/src/i386-asm.c:1247-1270 | forward and backward reference links agree and point to earlier operands |
| `AsmOperands.SortPass` | ports/tcc/src/i386-asm.c:1276-1284 | one pass in place computes the exchanges of that pass |
| `AsmOperands.SortOperands` | ports/tcc/src/i386-asm.c:1272-1285 | the exchange sort in place computes the order the operands are served in |
| `AsmOperands.OrderSorts` | ports/tcc/src/i386-asm.c:1272-1285 | that order is a permutation of the operands by rising priority |
| `AsmConstraints.FirstFree` | ports/tcc/src/i386-asm.c:1375-1378 | the lowest register free for the given use, or -1 |
| `AsmConstraints.LowestIs` | ports/tcc/src/i386-asm.c:1375-1378 | the register found is free and every lower one is not; none is free when none is found |
| `AsmConstraints.TryLetter` | ports/tcc/src/i386-asm.c:1320-1427 | what one constraint letter leads to: the next letter, a choice or an error |
| `AsmConstraints.LetterSound` | ports/tcc/src/i386-asm.c:1320-1427 | a choice made at a letter is free, reserved for the right halves, and what the letter asks for |
| `AsmConstraints.NamedAllowed` | ports/tcc/src/i386-asm.c:1343-1361 | the letters a, b, c, d, S and D, and no others, name eax, ebx, ecx, edx, esi and edi |
| `AsmConstraints.ScanConstraint` | ports/tcc/src/i386-asm.c:1320-1427 | the scan of a constraint ends, with the first letter that can be met or an error |
| `AsmConstraints.ScanSound` | ports/tcc/src/i386-asm.c:1320-1427 | what the scan chooses is free and is what one letter asks for; no letter before that one could have done without a register; it is in use in both phases after & or +, and marked read-write after + |
| `AsmConstraints.AllocateOne` | ports/tcc/src/i386-asm.c:1300-1432 | one operand and the operand that refers to it get the choice, and its registers are reserved |
| `AsmConstraints.Allocate` | ports/tcc/src/i386-asm.c:1299-1433 | all operands are served in order of priority, or the first that cannot be stops it |
| `AsmConstraints.InitRegs` | ports/tcc/src/i386-asm.c:1287-1296 | every register starts free but the clobbered ones, esp and ebp |
| `AsmConstraints.FindOutReg` | ports/tcc/src/i386-asm.c:1435-1452 | the register for storing through pointers: none if no operand needs one, an error if none is free |
| `AsmConstraints.ComputeConstraints` | ports/tcc/src/i386-asm.c:1225-1452 | the result is the one computed for the order that the sort yields; when it returns normally, operands in use at the same time hold different registers, none holds esp, ebp or a clobbered register, each has its variable's register or what a letter asks for, and ties are as below; it does return normally whenever there are registers enough |
| `AsmConstraints.ComputeSound` | ports/tcc/src/i386-asm.c:1225-1452 | whatever is accepted, in any order by priority, has those properties |
| `AsmConstraints.AmpleSucceeds` | ports/tcc/src/i386-asm.c:1272-1452 | readable operands that each name a register of their own or can live in any never lead to an error while the registers left by the clobbers suffice, counting two for an A and one for storing through pointers: those bound to one register are served first |
| `AsmConstraints.PairReserved` | ports/tcc/src/i386-asm.c:1333-1342 | an A operand holds eax and keeps every operand in use at the same time out of eax and edx |
| `AsmConstraints.TiedExact` | ports/tcc/src/i386-asm.c:1303-1432 | a reference shares the register at the end of its chain if and only if the operand it names is not a reference itself; otherwise it has none |
| `AsmConstraints.ChainedReference` | ports/tcc/src/i386-asm.c:1303-1432 | the constraints "=r", "0", "1" are accepted and give registers r, r and none |
| `AsmConstraints.PercentRejected` | ports/tcc/src/i386-asm.c:1191-1427 | an operand with the commutativity modifier that is neither a reference nor a register variable is refused |
| `AsmConstraints.IdlePercents` | ports/tcc/src/i386-asm.c:1191-1427 | where every such modifier is on a reference or a register variable, the result is the same without them |
| `AsmConstraints.PercentExact` | ports/tcc/src/i386-asm.c:1191-1427 | operands accepted without their commutativity modifiers are accepted with them, and alike, if and only if each operand that has one is a reference or a register variable |
| `AsmConstraints.PercentRefused` | ports/tcc/src/i386-asm.c:1191-1427 | the input operand "r" is accepted and "%r" is not |
| `AsmRegisters.OnlyRegister` | ports/tcc/src/i386-asm.c:1333-1388 | an accepted operand whose only letter is a, b, c, d, S or D has eax, ebx, ecx, edx, esi or edi, by number; A has the pair eax and edx, q one of the first four, r any but esp and ebp |
| `AsmRegisters.PhasesApart` | ports/tcc/src/i386-asm.c:1306-1312 | two operands in use together have different registers: two inputs, two outputs, and any output that is tied, early-clobbered, read-write or reached through a pointer against the inputs |
| `AsmRegisters.SameRegisterRefused` | ports/tcc/src/i386-asm.c:1343-1364 | two outputs or two inputs that ask for the same register are refused |
| `AsmRegisters.ReadWriteKnown` | ports/tcc/src/i386-asm.c:1324-1332 | an output is marked as also an input exactly when its constraint begins with + |
| `AsmRegisters.OutRegisterExact` | ports/tcc/src/i386-asm.c:1435-1452 | a register is set aside for stores exactly when some operand in a register is reached through a pointer; it is not esp, ebp, clobbered or the register of an output |
| `AsmRegisters.ParticularFirst` | ports/tcc/src/i386-asm.c:1141-1285 | of two operands the one whose letters are all in more particular classes is served first: A, then a b c d S D, then q, then r R p, then constants and memory |
| `AsmRegisters.ReferenceReads` | ports/tcc/src/tccasm.c:1005-1031 | a decimal number, after any modifiers, refers to the operand with that number |
| `AsmRegisters.MoveAssigned` | ports/tcc/src/i386-asm.c:1225-1452 | the inputs "r", "S", "D", "c" are accepted with esi, edi and ecx for the last three, and another register for the first |
| `Utf8.Utf8Decode` | ports/st/src/st.c:284-307 | the decoding loop computes the decoding of the bytes at hand; after the first it takes continuation bytes only, a byte below 0x80 is itself, and nothing else becomes a rune below 0x80 |
| `Utf8.DecodeSize` | ports/st/src/st.c:284-351 | the decoder consumes one to four of the bytes at hand and yields a scalar value, or waits exactly when fewer than four bytes start a longer sequence |
| `Utf8.DecodeExtend` | ports/st/src/st.c:284-307 | once there is an answer, later bytes cannot change it |
| `Utf8.DecodePrefix` | ports/st/src/st.c:284-307 | an answer depends only on the bytes consumed |
| `Utf8.Utf8Encode` | ports/st/src/st.c:319-334 | the encoding loop computes the encoding of the rune |
| `Utf8.RoundTrip` | ports/st/src/st.c:284-351 | decoding the encoding of a Unicode scalar, with anything after it, gives the scalar and its length |
| `Utf8.OnlyShortest` | ports/st/src/st.c:284-351 | whatever decodes to a rune is exactly the encoding of that rune: no overlong forms |
| `Utf8.DecodeTable` | ports/st/src/st.c:284-351 | a lead byte with all its continuation bytes is taken whole: the rune it spells if the table in section 4 of RFC 3629 has it, and otherwise INVALID |
| `Utf8.DecodeBreaks` | ports/st/src/st.c:294-299 | a sequence broken by another byte is INVALID and takes exactly the bytes before that one |
| `Utf8.DecodeCases` | ports/st/src/st.c:284-307 | a byte that starts nothing is INVALID alone, an incomplete sequence waits, and there is no other case |
| `Utf8.Resynchronises` | ports/st/src/st.c:284-307 | whatever is consumed after the first byte is a continuation byte, and a rune below 0x80 comes only from that byte itself |
| `Utf8.EncodeTable` | ports/st/src/st.c:319-334 | the one to four bytes of every rune, as section 3 of RFC 3629 lays them out; what is no scalar is written as EF BF BD |
| `TermInvariant.PutcGoes` | ports/st/src/st.c:2363-2510 | every rune of width 0 or 1 in every state keeps cursor, scroll region, origin mode, screens, tab stops, CSI buffer, arguments and string buffer in bounds, and marks every row whose look it changes |
| `TermInvariant.CsiHandleGoes` | ports/st/src/st.c:1599-1816 | the same for every control sequence and argument |
| `TermInvariant.SetModesGoes` | ports/st/src/st.c:1469-1596 | the same for every list of mode numbers |
| `TermInvariant.RepeatGoes` | ports/st/src/st.c:1647-1652 | the same for any number of repetitions of the last rune |
| `TermInvariant.CsiParsed` | ports/st/src/st.c:1133-1162 | parsing leaves the bytes alone and never exceeds sixteen arguments |
| `TermRun.ResizeKeeps` | ports/st/src/st.c:2545-2624 | a resize to any size keeps the bounds and marks every row |
| `TermRun.ResizeKeepsCursorLine` | ports/st/src/st.c:2559-2610 | the cursor stays on its line, and that line keeps its cells |
| `TermRun.DrawShows` | ports/st/src/st.c:2633-2671 | drawing the dirty rows and the cursor gives the picture that the screen should show in every cell |
| `TermRun.DrawIsRedraw` | ports/st/src/st.c:2633-2671 | drawing only dirty rows and drawing all rows leave the same picture |
| `TermRun.RunKeeps` | ports/st/src/st.c:2363-2671 | over every run of runes of width 0 or 1, resizes and redraws, the bounds hold and a redraw of the dirty rows equals a full one |
| `TermRun.FeedHolds` | ports/st/src/st.c:2513-2542 | fewer than four bytes are ever held back, and only as the start of a longer sequence |
| `TermRun.FeedPuts` | ports/st/src/st.c:2513-2542 | the terminal sees nothing of the input but the runes given to tputc |
| `TermRun.FeedGoes` | ports/st/src/st.c:2513-2542 | every byte stream of such runes, valid UTF-8 or not, keeps the invariant and marks what it changes |
| `TermRun.FeedSplit` | ports/st/src/st.c:820-843 | cutting the input in two changes neither the runes, nor the terminal, nor the bytes held back |
| `TermRun.FeedChunks` | ports/st/src/st.c:820-843 | however a stream is cut into reads, tputc gets the same runes and the terminal ends the same |
| `TermStream.FeedAscii` | ports/st/src/st.c:2513-2542 | of every byte stream, well formed or not, the bytes below 0x80 reach tputc as themselves and in order, and no other rune is below 0x80 |
| `TermStream.TextFed` | ports/st/src/st.c:2513-2542 | text written in UTF-8 reaches tputc as exactly its characters, with nothing held back |
| `TermStream.BytesFed` | ports/st/src/st.c:2519-2526 | outside UTF-8 mode every byte reaches tputc as itself |
| `TermStream.EchoShows` | ports/st/src/st.c:2527-2537 | an echo shows a C0 control as a caret and its letter, but for tab, line feed and return |
| `TermRun.PutcPrints` | ports/st/src/st.c:2422-2510 | outside any sequence a rune that is no control is printed |
| `TermRun.RepeatPuts` | ports/st/src/st.c:1647-1652 | repeating the last rune n times is n calls of tputc with it |
| `TermLaws.ScrollUpShifts` | ports/st/src/st.c:1080-1097 | for a count inside the region, row i + n comes to row i, the last n rows are blank and rows outside the region stay |
| `TermLaws.ScrollDownShifts` | ports/st/src/st.c:1060-1077 | the mirror image |
| `TermLaws.ScrollClips` | ports/st/src/st.c:1060-1097 | counts past the region behave as the whole region |
| `TermLaws.ScrollUpNone` | ports/st/src/st.c:1080-1097 | a count below one moves nothing but blanks row orig and the row above it |
| `TermLaws.ScrollDownNone` | ports/st/src/st.c:1060-1077 | a count below one moves nothing but blanks the bottom row of the region and the row below it |
| `TermLaws.ScrollBack` | ports/st/src/st.c:1060-1097 | scrolling down undoes scrolling up on every row that stayed |
| `TermLaws.InsertThenDelete` | ports/st/src/st.c:1253-1284 | deleting n cells undoes inserting n blanks, but for the cells pushed off the right |
| `TermLaws.PrintPlaces` | ports/st/src/st.c:2471-2510 | with room, a rune goes under the cursor, the cursor advances or becomes pending, and no other cell changes |
| `TermLaws.PrintWraps` | ports/st/src/st.c:2471-2510 | with a wrap pending the rune starts the next line, scrolling at the bottom margin, and the line left is marked as wrapped |
| `TermLaws.EraseAboveExact` | ports/st/src/st.c:1697-1717 | erase-above blanks everything up to the cursor if and only if the cursor is not on the second row, or the first row is blank already |
| `TermLaws.EraseAboveMisses` | ports/st/src/st.c:1697-1717 | a screen on which erase-above leaves a letter above the cursor |
| `TermLaws.CursorRoundTrip` | ports/st/src/st.c:999-1010 | restoring a saved cursor brings it back, without a pending wrap |
| `TermLaws.SavedCursorReturns` | ports/st/src/st.c:999-1010 | the same after any steps that keep the saved cursor, the region and the size |
| `TermLaws.AltRoundTrip` | ports/st/src/st.c:1531-1552 | entering and leaving the alternate screen gives back the main screen, the modes and the cursor, all rows marked |
| `TermLaws.ResizeCells` | ports/st/src/st.c:2545-2624 | every cell of both new screens is the old cell slid up to keep the cursor's row, or a blank in the colours of that screen's cursor |
| `TermLaws.CsiRoundTrip` | ports/st/src/st.c:1133-1162 | up to sixteen written decimal arguments, private or not, are read back exactly with the final byte |
| `TermLaws.RepeatSequence` | ports/st/src/st.c:1647-1652 | the bytes of a repeat sequence give the last rune to tputc as often as written, between 1 and 65535 |
| `TermBytes.SequenceHandled` | ports/st/src/st.c:2439-2449 | a control sequence as a program writes it reaches the handler with its arguments, from every state outside a sequence |
| `TermBytes.BareHandled` | ports/st/src/st.c:2439-2449 | without arguments the handler gets a single zero |
| `TermBytes.EscapeHandled` | ports/st/src/st.c:2456-2466 | ESC and a final byte reach the escape handler and end the sequence |
| `TermBytes.EscapeThree` | ports/st/src/st.c:2450-2466 | ESC and one of # % ( ) * + apply to the byte that follows |
| `TermBytes.ControlHandled` | ports/st/src/st.c:2428-2438 | a control code outside a sequence is handled at once, and the last rune forgotten |
| `TermMotion.PositionMoves` | ports/st/src/st.c:1687-1692 | ESC [ y ; x H, or f, as bytes: the cursor ends in column x and row y counted from 1, from the top margin in origin mode, no further than the screen or the region |
| `TermMotion.PositionReached` | ports/st/src/st.c:1687-1692 | without origin mode a position inside the screen is reached exactly |
| `TermMotion.PositionHome` | ports/st/src/st.c:1687-1692 | ESC [ H alone goes to the first column of the first row |
| `TermMotion.UpMoves` | ports/st/src/st.c:1615-1618 | A moves up by its count, no further than the screen or the region |
| `TermMotion.DownMoves` | ports/st/src/st.c:1619-1623 | B and e move down |
| `TermMotion.RightMoves` | ports/st/src/st.c:1653-1657 | C and a move right |
| `TermMotion.LeftMoves` | ports/st/src/st.c:1658-1661 | D moves left |
| `TermMotion.LineMoves` | ports/st/src/st.c:1662-1669 | E and F move down and up to the first column |
| `TermMotion.ColumnMoves` | ports/st/src/st.c:1682-1686 | G and the backquote go to a column |
| `TermMotion.RowMoves` | ports/st/src/st.c:1765-1768 | d goes to a row, from the top margin in origin mode |
| `TermMotion.ThereAndBack` | ports/st/src/st.c:1653-1661 | right by n and left by n returns where there was room |
| `TermMotion.MarginsSet` | ports/st/src/st.c:1789-1798 | r sets the margins, in either order and clamped, and homes the cursor |
| `TermMotion.MarginsReset` | ports/st/src/st.c:1789-1798 | r alone makes the whole screen the region |
| `TermMotion.SavedReturns` | ports/st/src/st.c:1799-1804 | saving, going anywhere and restoring brings the cursor back, by s and u or by ESC 7 and ESC 8 |
| `TermEdits.EraseSequence` | ports/st/src/st.c:1697-1731 | J and K, each with 0, 1 and 2, blank exactly the cells after, up to or all around the cursor, on the screen or the line, and change nothing else |
| `TermEdits.EraseCells` | ports/st/src/st.c:1752-1756 | X blanks exactly n cells from the cursor on |
| `TermEdits.InsertSequence` | ports/st/src/st.c:1611-1614 | @ opens n blanks at the cursor and moves the cells after it right, on that row only |
| `TermEdits.DeleteSequence` | ports/st/src/st.c:1757-1760 | P closes n cells at the cursor and fills the row with blanks |
| `TermEdits.ScrollSequence` | ports/st/src/st.c:1732-1740 | S and T move the rows of the region up or down by n and blank the rest |
| `TermEdits.LinesSequence` | ports/st/src/st.c:1741-1751 | L and M do the same from the cursor's row on, and nothing outside the region |
| `TermTabs.NextTabLeast` | ports/st/src/st.c:2103-2112 | the next stop is the least past the column, or the end of the row |
| `TermTabs.PrevTabGreatest` | ports/st/src/st.c:2113-2117 | the previous stop is the greatest before the column, or column 0 |
| `TermTabs.TabMoves` | ports/st/src/st.c:2181-2183 | a tab lands on the next stop, or in the last column |
| `TermTabs.ForwardMoves` | ports/st/src/st.c:1693-1696 | I lands on the n-th stop after the cursor |
| `TermTabs.BackMoves` | ports/st/src/st.c:1761-1764 | Z lands on the n-th stop before the cursor, or in column 0 |
| `TermTabs.StopSet` | ports/st/src/st.c:2319-2321 | ESC H sets the stop at the cursor and no other |
| `TermTabs.StopsCleared` | ports/st/src/st.c:1670-1681 | g clears the stop at the cursor, 3 g all of them, any other number none |
| `TermTabs.DefaultStops` | ports/st/src/st.c:1023-1025 | the initial stops are the multiples of the tab width past column 0 |
| `TermTabs.GrownTabs` | ports/st/src/st.c:2595-2603 | a wider row keeps the stops up to the last one and goes on from it in steps of the tab width |
| `TermTabs.DefaultsGrow` | ports/st/src/st.c:2595-2603 | initial stops stay the initial stops of every later width |
| `TermControls.ReturnMoves` | ports/st/src/st.c:2184-2189 | backspace moves left and carriage return to the first column |
| `TermControls.LineFeeds` | ports/st/src/st.c:2190-2195 | line feed, vertical tab and form feed go down a row or scroll the region at its bottom, and return to the first column in newline mode |
| `TermControls.ShiftChooses` | ports/st/src/st.c:2209-2212 | shift out and shift in choose the second and the first table |
| `TermControls.SubstituteShows` | ports/st/src/st.c:2213-2215 | SUB shows a question mark under the cursor |
| `TermControls.IgnoredCodes` | ports/st/src/st.c:2219-2224 | NUL, ENQ, XON, XOFF and DEL do nothing |
| `TermControls.HighCodesIgnored` | ports/st/src/st.c:2429-2431 | in UTF-8 mode the eight-bit controls are ignored |
| `TermControls.HighCodes` | ports/st/src/st.c:2231-2259 | outside it NEL, HTS and DECID are ESC E, ESC H and ESC Z |
| `TermControls.NextLine` | ports/st/src/st.c:2316-2318 | ESC E goes to the start of the next line |
| `TermControls.IndexMoves` | ports/st/src/st.c:2309-2315 | ESC D goes down a row or scrolls at the bottom margin |
| `TermControls.ReverseIndexMoves` | ports/st/src/st.c:2322-2328 | ESC M goes up a row or scrolls at the top margin |
| `TermControls.LockChooses` | ports/st/src/st.c:2298-2301 | ESC n and ESC o choose the third and fourth table |
| `TermControls.PrintInserts` | ports/st/src/st.c:2478-2481 | in insert mode a rune moves the rest of its row over and goes in the gap |
| `TermModes.ModesInTurn` | ports/st/src/st.c:1469-1474 | several modes in one sequence are those sequences one after the other |
| `TermModes.PublicMode` | ports/st/src/st.c:1573-1593 | 4 is insert mode, 12 echo the other way round and 20 newline mode; no other public number does anything |
| `TermModes.WrapMode` | ports/st/src/st.c:1486-1488 | private mode 7 is wrapping |
| `TermModes.OriginMode` | ports/st/src/st.c:1482-1485 | private mode 6 counts rows from the region and homes the cursor |
| `TermModes.CursorMode` | ports/st/src/st.c:1550-1552 | private mode 1048 is ESC 7 and ESC 8 |
| `TermModes.ScreenMode` | ports/st/src/st.c:1536-1549 | private modes 47 and 1047 exchange the screens, blanking the alternate one when leaving it or entering it twice |
| `TermModes.AlternateEntered` | ports/st/src/st.c:1531-1549 | private mode 1049 puts the main screen away as it is and saves the cursor |
| `TermModes.AlternateLeft` | ports/st/src/st.c:1531-1549 | resetting it brings back the main screen and the cursor saved for it |
| `TermModes.OtherModes` | ports/st/src/st.c:1489-1570 | no other private number changes the terminal |
| `TermModes.ReportAnswers` | ports/st/src/st.c:1775-1788 | 5 n answers that all is well and 6 n the cursor's row and column counted from 1 |
| `TermModes.ReportReturns` | ports/st/src/st.c:1775-1788 | the position reported is the one that H goes to |
| `TermModes.IdentifyAnswers` | ports/st/src/st.c:1643-1646 | c and ESC Z identify the terminal |
| `TermModes.PrinterMode` | ports/st/src/st.c:1624-1642 | 5 i and 4 i turn printer copying on and off |
| `TermModes.TableChosen` | ports/st/src/st.c:2129-2140 | ESC ( 0 and its like put line drawing or ASCII in one of the four tables |
| `TermModes.GraphicShown` | ports/st/src/st.c:1187-1207 | with line drawing in use each letter shows as its graphic, one by one |
| `TermModes.GraphicPrinted` | ports/st/src/st.c:1187-1220 | a letter printed after ESC ( 0 appears on the screen as that graphic |
| `TermModes.Utf8Chosen` | ports/st/src/st.c:2120-2126 | ESC % G and ESC % @ turn UTF-8 on and off |
| `TermModes.AlignmentFills` | ports/st/src/st.c:2143-2153 | ESC # 8 puts the letter E in every cell |
| `TermModes.ResetState` | ports/st/src/st.c:1013-1038 | ESC c blanks both screens, homes the cursor and its saved copies, and restores modes, tables, margins and stops |
| `TermStrings.StringCollects` | ports/st/src/st.c:2389-2420 | inside a string sequence every rune that does not end it is stored as its UTF-8 bytes and changes nothing else |
| `TermStrings.StringSequence` | ports/st/src/st.c:2389-2466 | a whole string sequence, ended by BEL or by ESC and a backslash, hands over its letter and exactly the bytes between, and leaves screen, cursor and modes alone |
| `TermCounts.ScrollUpExact` | ports/st/src/st.c:1080-1097 | scrolling up keeps every row outside the region if and only if the count is at least 1, or there is no row above, or that row is blank already |
| `TermCounts.ScrollDownExact` | ports/st/src/st.c:1060-1077 | the same for scrolling down and the row below the region |
| `TermCounts.InsertNone` | ports/st/src/st.c:1270-1284 | inserting fewer than one blank blanks the cursor's cell and the one before it, and nothing else |
| `TermCounts.InsertNoneExact` | ports/st/src/st.c:1270-1284 | such a count leaves the screen alone if and only if those cells are blank already |
| `TermCounts.DeleteNone` | ports/st/src/st.c:1253-1267 | deleting fewer than one cell blanks the last cell of the row, and nothing else |
| `TermCounts.DeleteNoneExact` | ports/st/src/st.c:1253-1267 | such a count leaves the screen alone if and only if that cell is blank already |
| `TermCounts.EraseNone` | ports/st/src/st.c:1752-1756 | erasing fewer than one cell blanks backwards from the cursor |
| `TermCounts.EraseNoneExact` | ports/st/src/st.c:1752-1756 | such a count leaves the screen alone if and only if those cells are blank already |
| `TermCounts.SignedReads` | ports/st/src/st.c:1143-1158 | a number is read through white space and a sign, as strtol reads it |
| `TermCounts.NegativeArgument` | ports/st/src/st.c:1133-1162 | the bytes of -1 and a final byte are read as the argument -1 |
| `TermCounts.NegativeSequence` | ports/st/src/st.c:2422-2449 | ESC [ - 1 and a final byte reach the handler with that argument from every state outside a sequence |
| `TermCounts.NegativeScroll` | ports/st/src/st.c:1732-1736 | ESC [ - 1 S blanks a letter above the scroll region of a literal screen |
| `TermCounts.NegativeEdits` | ports/st/src/st.c:1611-1760 | ESC [ - 1 with @, P or X blanks a letter of a literal screen |
| `Terminal.Display.constructor` | ports/st/src/st.c:1041-1046 | a fresh display has both screens of distinct blank lines and is valid |
| `Terminal.Display.Tsetdirt` | ports/st/src/st.c:966-975 | marks exactly the rows between the clamped bounds |
| `Terminal.Display.Treset` | ports/st/src/st.c:1013-1038 | modes, tabs, region, charsets and both screens return to their initial state |
| `Terminal.Display.Tswapscreen` | ports/st/src/st.c:1049-1057 | exchanges the two pointer arrays, flips the mode and marks every row |
| `Terminal.Display.Tscrolldown` | ports/st/src/st.c:1060-1077 | swapping line pointers computes the downward shift; the pointers are permuted and no line is lost or shared |
| `Terminal.Display.Tscrollup` | ports/st/src/st.c:1080-1097 | swapping line pointers computes the upward shift; the pointers are permuted and no line is lost or shared |
| `Terminal.Display.RaiseLines` | ports/st/src/st.c:1090-1094 | the swapping loop alone, for rows already cleared |
| `Terminal.Display.LowerLines` | ports/st/src/st.c:1070-1074 | the swapping loop alone, for rows already cleared |
| `Terminal.Display.Csiparse` | ports/st/src/st.c:1133-1162 | the byte loop computes the arguments, the final byte and the private flag |
| `Terminal.Display.Tsetchar` | ports/st/src/st.c:1187-1220 | writes the translated rune in one cell and marks its row |
| `Terminal.Display.Tclearregion` | ports/st/src/st.c:1223-1250 | blanks exactly the clamped, ordered rectangle and marks its rows |
| `Terminal.Display.Tdeletechar` | ports/st/src/st.c:1253-1267 | shifts the rest of the row left and blanks its end |
| `Terminal.Display.Tinsertblank` | ports/st/src/st.c:1270-1284 | shifts the rest of the row right and blanks the gap |
| `Terminal.Display.Tsetmode` | ports/st/src/st.c:1469-1596 | all the numbered modes of a sequence are set or reset in order |
| `Terminal.Display.Trepeat` | ports/st/src/st.c:1647-1652 | printing the last rune n times, which is n calls of tputc |
| `Terminal.Display.Csihandle` | ports/st/src/st.c:1599-1816 | the whole dispatch of control sequences on the lines in memory does what the dispatch function says, described sequence by sequence in TermMotion, TermEdits, TermTabs and TermModes, and keeps the display valid |
| `Terminal.Display.Tputtab` | ports/st/src/st.c:2103-2118 | moves over n tab stops in either direction |
| `Terminal.Display.Tdectest` | ports/st/src/st.c:2143-2153 | fills the screen with the letter E |
| `Terminal.Display.Tcontrolcode` | ports/st/src/st.c:2178-2272 | every control code does what its function says, described code by code in TermControls, and keeps the display valid |
| `Terminal.Display.Eschandle` | ports/st/src/st.c:2279-2360 | every escape does what its function says, described in TermControls, TermModes and TermStrings, keeps the display valid, and tells whether the sequence is over |
| `Terminal.Display.Tputc` | ports/st/src/st.c:2363-2510 | one rune in any state: the display stays valid and does what the step function says |
| `Terminal.Display.Twrite` | ports/st/src/st.c:2513-2542 | feeds what can be decoded and leaves exactly the bytes held back |
| `Terminal.Display.Tresize` | ports/st/src/st.c:2545-2624 | both screens are rebuilt as specified; every old line is kept or freed exactly once and every new one is fresh |
| `Terminal.Display.Trealloc` | ports/st/src/st.c:2559-2594 | the memory part: lines slid out or cut off are freed, the others kept with their cells |
| `Terminal.Display.Tfinish` | ports/st/src/st.c:2611-2623 | both screens are blanked outside the old cells and the cursor is restored |
| `Terminal.Display.Drawregion` | ports/st/src/st.c:2633-2644 | draws exactly the dirty rows and clears their marks |
| `Terminal.Display.Draw` | ports/st/src/st.c:2647-2671 | a redraw of dirty rows with the cursor drawn last |
| `Terminal.Handle` | ports/st/src/st.c:2363-2671 | one rune, resize or redraw on the lines in memory and the window is the step of the run |
| `Terminal.Events` | ports/st/src/st.c:2363-2671 | a whole run on the lines in memory: it computes the run of the functions, both screens own 2 * row distinct lines of col cells and no other line is allocated, and a redraw of the dirty rows shows everything |
| `Terminal.Tty.Ttyread` | ports/st/src/st.c:820-843 | one read: held bytes and new ones are fed together, and fewer than four are held back |
| `Formatter.ItoaDenotes` | src/libs/string.c:102-144 | the base-10 text denotes its number for every 64-bit integer, the least included |
| `Formatter.ItoaOtherBase` | src/libs/string.c:102-144 | in any other base it denotes the number's bits |
| `Formatter.Reverse` | src/libs/string.c:134-143 | reverses the first n characters in place and touches no other |
| `Formatter.Itoa` | src/libs/string.c:102-144 | writes that text and a NUL at the start of the buffer and nothing else |
| `Formatter.ItoaHex` | src/libs/string.c:147-170 | the same for upper-case hexadecimal |
| `Formatter.Strlen` | src/libs/string.c:35-40 | the number of characters before the first NUL |
| `Formatter.ReadDirective` | src/libs/stdio.c:24-45 | reads the padding flag, the width and the length modifier |
| `Formatter.PutNumber` | src/libs/stdio.c:47-72 | a padded number, as far as it fits |
| `Formatter.PutConverted` | src/libs/stdio.c:47-86 | one conversion, as far as it fits |
| `Formatter.PutNext` | src/libs/stdio.c:17-88 | one turn of the main loop keeps what is written the start of the whole output |
| `Formatter.Vsnprintf` | src/libs/stdio.c:8-93 | writes at most size bytes, the last a NUL; the text is the first size - 1 characters of the whole output, which FormatPieces.FormatPrints describes piece by piece, and nothing after it changes |
| `Formatter.Vsprintf` | src/libs/stdio.c:103-105 | with no limit the whole output is written |
| `Formatter.LongDecimal` | src/libs/stdio.c:47-58 | a long signed decimal prints every 64-bit integer as itself |
| `Formatter.PlainDecimal` | src/libs/stdio.c:47-58 | a plain signed decimal prints a 32-bit integer as itself if and only if it is not negative |
| `Formatter.PlainDecimalFails` | src/libs/stdio.c:47-58 | -1 prints as 4294967295 |
| `Formatter.LongUnsigned` | src/libs/stdio.c:47-58 | a long unsigned decimal prints a value as itself if and only if its top bit is clear |
| `Formatter.LongUnsignedFails` | src/libs/stdio.c:47-58 | the largest unsigned value prints as -1 |
| `Formatter.Hexadecimal` | src/libs/stdio.c:47-58 | long hexadecimal and pointers print every 64-bit value |
| `FormatPieces.FormatPrints` | src/libs/stdio.c:8-93 | every format is made of plain text and directives up to its end, and its output is what these print one after the other: the i-th directive that takes an argument prints argument i; a number stands at the right end of a column of the given width, padded with blanks or zeros; %s prints the characters before the NUL or (null), %c one character, %% a percent sign, and an unknown conversion nothing |
| `FormatPieces.RenderPieces` | src/libs/stdio.c:8-93 | the same for a format written from given pieces |
| `FormatPieces.SpecReads` | src/libs/stdio.c:24-45 | a written directive is read back: its padding, its width as the number its digits denote, its length and its conversion |
| `FormatPieces.ConvertedPrints` | src/libs/stdio.c:47-86 | what one conversion prints, by its letter |
| `FormatPieces.NumeralUnique` | src/libs/string.c:102-170 | a number has one numeral in each base: digits of the base, no leading zero, a minus sign if negative |

## Left out

- Terminal.Display.Tputc: does not model runes two columns wide, because the code's own handling of their dummy cells relies on one never being in column 0, which deleting a cell does not maintain; widths are 0 or 1 throughout.
- Terminal.Display.Tsetchar: for the same reason leaves out the repairs of wide cells and their dummies.
- TermRun.RunKeeps: for the same reason requires widths of at most 1, as do TermInvariant.PutcGoes, TermRun.FeedGoes and Terminal.Events.
- Terminal.Display.CsiState: does not model attribute values; the effect of an SGR sequence is a parameter.
- Terminal.Display.Strhandle: does not model what a string sequence says; whether it changes a colour is a parameter, and window titles, clipboard and colour replies are outside.
- Terminal.Display.Csihandle: does not write a defaulted argument back into the argument array, which nothing reads afterwards.
- Terminal.Display.Csiparse: stores an argument that overflows a long as -1 and wraps the rest to 32 bits, as the code does; overflow of later arithmetic on such arguments is not modelled.
- Terminal.Display.Tdeftran: for a zero byte the code reads past its two-entry table; what it finds there is a parameter.
- Terminal.Tty.Ttyread: does not model the size limit of the read buffer or a failing read.
- Selection, printer output, the window-system modes of x.c, blinking attributes, and echo of the user's input.
- Replies to the child: kept as a log, not sent.
- A64Pcs.PcsAux: takes array lengths that are not negative; the length -1 of a flexible array member is outside.
- A64Opic.GenOpic: requires registers below x30, which are all that its caller's register class holds.
- Floating-point code generation, loads and stores, and the other relocations of the A64 back end.
- ArmConst.CalcAddr: treats pc as an ordinary register.
- ArmConst.StuffConst: states the operand and the kept fields, but not the flags, of operations outside the eight that the model machine executes.
- ArmConst.StuffConstHarder: makes its four searches before choosing between them, in the code's order of preference.
- JumpLists.Code.Gtst: each label is used once, as the compiler does; suppressed code and jumps to known addresses are outside.
- The jump lists of the ARM back end, which have the same shape as those of i386.
- AsmConstraints.ComputeConstraints: models the i386 register file; the operand that a bracketed name means is an input, the double-word flag starts cleared, a register variable outside the eight registers counts as none, and a reference number that overflows an int is outside.
- AsmConstraints.AmpleSucceeds: is one way only; an input and an output that name the same register, or an operand that names several, may still be served, which depends on the whole list of constraints.
- Formatter.Vsnprintf: does not model a null buffer; an argument past the last reads as zero, and a width that overflows an int is outside.
- The kernel's allocator, scheduler, file system and shell.
