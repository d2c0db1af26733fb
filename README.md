# Silhouette shadow stack and instrumentor, modelled in Dafny

Silhouette hardens ARMv7-M code with a shadow stack: a copy of each return address kept at a fixed distance from the stack.
Two back-end components of its LLVM fork do this work:

- **The instrumentor** is a library of instruction-list edits. It inserts instructions before or after an instruction and removes one. Inside a Thumb-2 IT (If-Then) block, an insertion re-covers the affected range with fresh IT instructions, so every predicated instruction keeps its condition. A removal instead shrinks the covering IT: it drops the removed instruction's tag, flips the condition and the remaining tags when the new first tag is "else", and re-encodes the mask, or it erases the IT when no tag is left. It also decodes and encodes the 4-bit IT mask and finds the registers that are free at a point.
- **The shadow-stack pass** runs once per machine function.
  - It skips functions placed in the `privileged_functions` section.
  - Every `PUSH` that saves LR is preceded by one store of LR to the shadow stack. The store is `STR LR, [SP, #offset]` when the offset is short. Otherwise it is a `MOVW/MOVT` or `MOV` that materialises the offset into a free register, or into a spilled R4, followed by a register-offset store (`STRT` when stores are hardened).
  - Every `POP` that restores LR or PC is followed by a skip of that stack slot and a load of the return address from the shadow stack. The POP is then narrowed or demoted so it no longer writes that register.

The model keeps the source's structure:

- **Imperative layer.** The machine function is a `class` whose blocks, id counter and callee-saved information the methods update. The instrumentor and the pass are methods with loops.
- **Specification layer.** Each method is proved equal to a function on the old state. Lemmas state and prove, about those functions:
  - the IT-block invariant, unique identities, and that every instruction an edit does not own is kept as a member of the block;
  - on the view of a block (its instructions other than ITs, in order, each with the condition the processor's IT state gives it), that every edit keeps the order and the conditions of the instructions it does not own, puts the new instructions at the edited instruction's place under its condition, and, in the pass, puts the store right before the push and the pop's code right after the demoted pop;
  - that every emitted instruction carries the predicate of the instruction it instruments;
  - on a small ARM execution model, that the store writes LR to the slot the load reads back.

Modules, in dependency order:

| module | models |
|---|---|
| `ITMask` | IT mask format, `getITBlockSize`, `decodeITMask`, `encodeITMask` |
| `MachineIR` | instructions, operands, condition codes, blocks, the IT-block view |
| `ITBlocks` | `findIT`, IT coverage and the well-formedness invariant |
| `ITEditSpec` | what `insertInstsBefore/After` and `removeInst` produce |
| `ITState` | the condition each instruction runs under, by the processor's IT state, and the view of a block |
| `Invariants`, `InstrIds`, `BlockInvariant` | the edits keep IT blocks well formed and ids unique, and keep every instruction they do not own |
| `MachineFunctions` | the mutable machine function |
| `Instrumentor` | the imperative editor |
| `EditView`, `IdView` | the editor's effect on the view: order and conditions kept, new code under the edited instruction's condition |
| `Liveness` | `findFreeRegistersBefore` (and the `After` variant) |
| `ShadowSites` | classification of PUSH and POP sites |
| `ShadowInsts` | options, the Thumb-2 immediate test, the emitted instruction lists |
| `ThumbExec`, `ShadowEffects` | the machine effect of the emitted code |
| `ShadowStackSpec`, `ShadowPassSpec` | the block edits of `setupShadowStack` / `popFromShadowStack` and of the whole pass |
| `ShadowStackView` | the pass's block edits on the view: where the new code lands and what it runs under |
| `ShadowStack` | the imperative pass |

In the prose, I is `llvm/lib/Target/ARM/ARMSilhouetteInstrumentor.cpp` and S is `llvm/lib/Target/ARM/ARMSilhouetteShadowStack.cpp`.

### What the proofs say about the emitted code

Properties proved on the execution model:

- `ShadowEffects.SetupSavesLR` and `ShadowEffects.PopLoadsSlot`: the setup code writes LR to the slot SP + offset, less 4 when it spills R4 (`ShadowEffects.SetupSlot`), and the pop code loads the slot (SP + 4) + offset, less 4 when it spills R4 (`ShadowEffects.PopSlot`), into the popped register. Both addresses wrap to 32 bits.
- `ShadowEffects.ReturnsSavedLR`: pairing the two returns the saved LR, provided that both sides agree on whether they spill R4.
- `ShadowEffects.SlotsMeet`: the slots coincide exactly when both sides make the same spill decision.
- `ShadowEffects.SpillsDisagree`: the decision can differ only when stores are hardened and `0 <= offset <= 4092`. The pop then takes its one-instruction path, while the setup spills when it finds no free register and its store lands 4 bytes lower. Free registers are also computed separately at the push and at the pop (S:82 and S:203), so the two spill decisions need not agree even outside that range.
- `ShadowEffects.SetupSaves`, last conjunct: when the setup spills and the offset is a multiple of 2^32, its store lands on R4's spill word, so R4 ends up holding LR rather than its old value. This happens for offset 0 with hardened stores and no free register at the push (S:72, S:85-91, S:119-144; `ShadowEffects.ZeroOffsetSpillGivesR4LR`). Only the pop's long path, taken for offsets outside 0..4092, is guaranteed a non-zero offset (`ShadowEffects.LongOffsetNonZero`).

## Model

| member | source | states |
|---|---|---|
| ITMask.ITBlockSize | llvm/lib/Target/ARM/ARMSilhouetteInstrumentor.cpp:47-62 | the IT block size is between 1 and 4 for a valid mask |
| ITMask.ITBlockSizeIsLowestBit | llvm/lib/Target/ARM/ARMSilhouetteInstrumentor.cpp:47-62 | the size is fixed by the lowest set bit of the mask: that bit is set, and every lower bit is clear |
| ITMask.TagsOfValid | llvm/lib/Target/ARM/ARMSilhouetteInstrumentor.cpp:401-416 | a valid mask decodes to between 1 and 4 then/else tags, the first being "same as the IT condition"; tag k >= 1 is "same" exactly when mask bit 4-k is clear |
| ITMask.EncodeDecode | llvm/lib/Target/ARM/ARMSilhouetteInstrumentor.cpp:401-416 | encoding the decoded tags of a mask gives back its low four bits |
| ITMask.DecodeEncode | llvm/lib/Target/ARM/ARMSilhouetteInstrumentor.cpp:401-416 | encoding valid tags gives a non-zero valid mask that decodes back to the same tags |
| ITMask.TagsOfInjective | llvm/lib/Target/ARM/ARMSilhouetteInstrumentor.cpp:401-416 | two masks with the same tags agree in their low four bits |
| ITMask.DecodeITMask | llvm/lib/Target/ARM/ARMSilhouetteInstrumentor.cpp:418-435 | the bit-walking decoder returns the tags of the mask |
| ITMask.EncodeITMask | llvm/lib/Target/ARM/ARMSilhouetteInstrumentor.cpp:455-469 | the encoder returns a valid mask whose decoding is the given tags |
| MachineIR.OppositeInvolution | llvm/lib/Target/ARM/ARMSilhouetteInstrumentor.cpp:232-238 | flipping a condition twice gives it back, so flipping "else" tags is its own inverse |
| ITBlocks.FindIT | llvm/lib/Target/ARM/ARMSilhouetteInstrumentor.cpp:81-98 | a found IT lies at or before the instruction, and the distance is at most 4 and at most the IT block size |
| ITBlocks.FindITSelf | llvm/lib/Target/ARM/ARMSilhouetteInstrumentor.cpp:81-98 | an IT instruction finds itself at distance 0 |
| ITBlocks.FindITSound | llvm/lib/Target/ARM/ARMSilhouetteInstrumentor.cpp:81-98 | between the found IT and the instruction there is no other IT, and the distance counts the code-emitting instructions in that range |
| ITBlocks.FindITComplete | llvm/lib/Target/ARM/ARMSilhouetteInstrumentor.cpp:81-98 | an IT that covers the instruction with no IT in between is the one found, at that distance |
| ITBlocks.InsideCovers | llvm/lib/Target/ARM/ARMSilhouetteInstrumentor.cpp:196-205 | in a well-formed block, the rest of the covering IT block follows an instruction it covers |
| ITEditSpec.ChunkFacts | llvm/lib/Target/ARM/ARMSilhouetteInstrumentor.cpp:222-231 | every IT chunk takes 1 to 4 code-emitting instructions, ends on one of them, and the count left decreases accordingly |
| Invariants.ChunkITFacts | llvm/lib/Target/ARM/ARMSilhouetteInstrumentor.cpp:239-241 | each rebuilt IT has a valid mask whose block size equals the number of tags it carries |
| Invariants.RechunkWF | llvm/lib/Target/ARM/ARMSilhouetteInstrumentor.cpp:220-243 | re-covering a range without ITs with fresh ITs yields well-formed IT blocks |
| Invariants.InsertKeepsWF | llvm/lib/Target/ARM/ARMSilhouetteInstrumentor.cpp:171-342 | inserting instructions that hold no IT keeps every IT block of the block well formed (the conditions are stated by EditView.InsertView) |
| Invariants.RemoveKeepsWF | llvm/lib/Target/ARM/ARMSilhouetteInstrumentor.cpp:357-398 | removing an instruction keeps every IT block well formed: the covering IT is shrunk or erased (the conditions are stated by EditView.RemoveView) |
| InstrIds.RechunkKeeps | llvm/lib/Target/ARM/ARMSilhouetteInstrumentor.cpp:220-243 | re-covering keeps every instruction of the range |
| InstrIds.SplicedHolds | llvm/lib/Target/ARM/ARMSilhouetteInstrumentor.cpp:183-185 | the new instructions land right before (or after) the given position, and the rest keep their order |
| InstrIds.InsertIds | llvm/lib/Target/ARM/ARMSilhouetteInstrumentor.cpp:171-342 | after insertion, ids stay unique and below the advanced counter |
| InstrIds.InsertKeeps | llvm/lib/Target/ARM/ARMSilhouetteInstrumentor.cpp:171-342 | insertion keeps every old and every new instruction except the replaced ITs as members of the block (their order is stated by EditView.InsertView) |
| InstrIds.RemoveIds | llvm/lib/Target/ARM/ARMSilhouetteInstrumentor.cpp:357-398 | removal keeps ids unique and below the counter |
| InstrIds.RemoveKeeps | llvm/lib/Target/ARM/ARMSilhouetteInstrumentor.cpp:357-398 | removal keeps every other instruction that is not an IT as a member of the block (their order is stated by EditView.RemoveView) |
| BlockInvariant.InsertKeepsOk | llvm/lib/Target/ARM/ARMSilhouetteInstrumentor.cpp:171-342 | insertion keeps the block invariant: well-formed ITs, and ids that are unique and below the counter |
| BlockInvariant.RemoveKeepsOk | llvm/lib/Target/ARM/ARMSilhouetteInstrumentor.cpp:357-398 | removal keeps the block invariant |
| BlockInvariant.RemoveDrops | llvm/lib/Target/ARM/ARMSilhouetteInstrumentor.cpp:357-398 | after removal, no instruction carries the removed instruction's id |
| ITState.CondAtFindIT | llvm/lib/Target/ARM/ARMSilhouetteInstrumentor.cpp:81-98 | an instruction that emits code runs under the condition of the IT that findIT returns, or its opposite, as the tag at findIT's distance says; with no IT found it runs unconditionally |
| ITState.RechunkView | llvm/lib/Target/ARM/ARMSilhouetteInstrumentor.cpp:220-243 | a range re-covered with fresh ITs runs every instruction under the condition of the tag it was given, and ends outside any IT block |
| EditView.InsertView | llvm/lib/Target/ARM/ARMSilhouetteInstrumentor.cpp:171-342 | before or after an instruction outside an IT block or inside one, insertion keeps the view of the code before and after the insertion point and adds the new code-emitting instructions there, in order, under the instruction's condition |
| EditView.InsertAtITView | llvm/lib/Target/ARM/ARMSilhouetteInstrumentor.cpp:179-189 | at an IT instruction itself (findIT distance 0) the list is spliced in and no IT is rebuilt |
| EditView.RemoveView | llvm/lib/Target/ARM/ARMSilhouetteInstrumentor.cpp:357-398 | removal takes the instruction's entry out of the view and keeps every other entry, in order and under its condition |
| IdView.UpdateView | llvm/lib/Target/ARM/ARMSilhouetteShadowStack.cpp:212-230 | changing an instruction in place to one of the same kind replaces its entry of the view by the new one under the same condition |
| IdView.RemoveViewId | llvm/lib/Target/ARM/ARMSilhouetteInstrumentor.cpp:357-398 | removal replaces the entry of the removed instruction's id by nothing |
| IdView.InsertAfterViewId | llvm/lib/Target/ARM/ARMSilhouetteInstrumentor.cpp:264-342 | insertion after an instruction replaces its entry by the instruction and the new ones, all under its condition |
| Instrumentor.FlipAll | llvm/lib/Target/ARM/ARMSilhouetteInstrumentor.cpp:232-238 | the loop negates every tag |
| Instrumentor.CountRealInsts | llvm/lib/Target/ARM/ARMSilhouetteInstrumentor.cpp:212-217 | the loop counts the instructions that emit code |
| Instrumentor.FindRangeEnd | llvm/lib/Target/ARM/ARMSilhouetteInstrumentor.cpp:196-205 | the walk stops right after the last instruction the IT block covers |
| Instrumentor.TakeChunk | llvm/lib/Target/ARM/ARMSilhouetteInstrumentor.cpp:222-231 | the inner loop takes the longest prefix holding at most 4 code-emitting instructions, and splits the tags accordingly |
| Instrumentor.CoverRange | llvm/lib/Target/ARM/ARMSilhouetteInstrumentor.cpp:220-243 | the re-cover loop produces the specified chunked IT blocks and id counter |
| Instrumentor.RecoverIT | llvm/lib/Target/ARM/ARMSilhouetteInstrumentor.cpp:220-246 | covering the range with fresh ITs and erasing the old IT gives the specified re-covered block |
| Instrumentor.RebuildRange | llvm/lib/Target/ARM/ARMSilhouetteInstrumentor.cpp:189-246 | the range is found, the tags extended and the range re-covered exactly as specified |
| Instrumentor.InsertInITBlock | llvm/lib/Target/ARM/ARMSilhouetteInstrumentor.cpp:189-246 | inserting inside an IT block gives the specified IT-case insertion |
| Instrumentor.Splice | llvm/lib/Target/ARM/ARMSilhouetteInstrumentor.cpp:183-185 | the new instructions are spliced in at the position, the rest unchanged |
| Instrumentor.InsertInsts | llvm/lib/Target/ARM/ARMSilhouetteInstrumentor.cpp:171-342 | one block gets exactly the specified insertion, with every other block, the liveness and the callee-saved data unchanged |
| Instrumentor.InsertInstsBefore | llvm/lib/Target/ARM/ARMSilhouetteInstrumentor.cpp:171-248 | the block becomes the specified insertion before the instruction |
| Instrumentor.InsertInstsAfter | llvm/lib/Target/ARM/ARMSilhouetteInstrumentor.cpp:264-342 | the block becomes the specified insertion after the instruction |
| Instrumentor.InsertInstBefore | llvm/lib/Target/ARM/ARMSilhouetteInstrumentor.cpp:134-137 | inserting one instruction is the list insertion with a singleton |
| Instrumentor.InsertInstAfter | llvm/lib/Target/ARM/ARMSilhouetteInstrumentor.cpp:152-155 | inserting one instruction after is the list insertion with a singleton |
| Instrumentor.RemoveInst | llvm/lib/Target/ARM/ARMSilhouetteInstrumentor.cpp:357-398 | the block becomes the specified removal, and nothing else changes |
| Instrumentor.RemoveFromBlock | llvm/lib/Target/ARM/ARMSilhouetteInstrumentor.cpp:360-397 | erasing the instruction and shrinking or erasing its IT gives the removal specification |
| Instrumentor.RemoveInIT | llvm/lib/Target/ARM/ARMSilhouetteInstrumentor.cpp:365-397 | shrinking or erasing the covering IT, then erasing the instruction, gives the removal specification |
| Liveness.FreeAmong | llvm/lib/Target/ARM/ARMSilhouetteInstrumentor.cpp:519-530 | a register is kept if and only if it is a candidate, not reserved and not live, and the candidate order is kept |
| Liveness.FreeAmongAppend | llvm/lib/Target/ARM/ARMSilhouetteInstrumentor.cpp:512-530 | filtering a concatenation of candidate lists is the concatenation of the filtered lists |
| Liveness.PushFree | llvm/lib/Target/ARM/ARMSilhouetteInstrumentor.cpp:519-530 | the filter loop appends exactly the free candidates |
| Liveness.LiveBefore | llvm/lib/Target/ARM/ARMSilhouetteInstrumentor.cpp:502-509 | the backward walk computes the live set before the instruction |
| Liveness.FilterFree | llvm/lib/Target/ARM/ARMSilhouetteInstrumentor.cpp:512-530 | the free list is the free subsequence of the candidates |
| Liveness.FindFreeRegistersBefore | llvm/lib/Target/ARM/ARMSilhouetteInstrumentor.cpp:490-533 | the result holds exactly the candidates that are not reserved and not live before the instruction, in rank order |
| Liveness.FindFreeRegistersAfter | llvm/lib/Target/ARM/ARMSilhouetteShadowStack.cpp:203 | the same, for the liveness just after the instruction |
| ShadowSites.PushNotPop | llvm/lib/Target/ARM/ARMSilhouetteShadowStack.cpp:385-437 | no instruction is both a push site and a pop site |
| ShadowSites.FirstRegOperand | llvm/lib/Target/ARM/ARMSilhouetteShadowStack.cpp:389-431 | the operand scan returns the first register operand in the given set |
| ShadowSites.ClassifyInst | llvm/lib/Target/ARM/ARMSilhouetteShadowStack.cpp:385-437 | the classifier returns the LR operand of a PUSH and the LR/PC operand of a POP |
| ShadowSites.ClassifyBlock | llvm/lib/Target/ARM/ARMSilhouetteShadowStack.cpp:385-437 | a block contributes its push and pop sites in order |
| ShadowSites.Classify | llvm/lib/Target/ARM/ARMSilhouetteShadowStack.cpp:385-437 | the walk over the function collects every push and pop site |
| ShadowSites.SitesSound | llvm/lib/Target/ARM/ARMSilhouetteShadowStack.cpp:385-437 | every collected site is an instruction of the function with that operand |
| ShadowSites.SitesComplete | llvm/lib/Target/ARM/ARMSilhouetteShadowStack.cpp:385-437 | every such instruction is collected |
| ShadowSites.SitesDistinct | llvm/lib/Target/ARM/ARMSilhouetteShadowStack.cpp:385-437 | with unique ids, no site is collected twice |
| ShadowSites.SitesAt | llvm/lib/Target/ARM/ARMSilhouetteShadowStack.cpp:385-437 | with unique ids, each collected site identifies its instruction |
| ShadowInsts.DefaultOffsetEncodable | llvm/lib/Target/ARM/ARMSilhouetteShadowStack.cpp:27-34 | the default offset fits one Thumb-2 modified immediate but not the short store |
| ShadowInsts.NotEncodableExample | llvm/lib/Target/ARM/ARMSilhouetteShadowStack.cpp:94-114 | some offsets need the MOVW/MOVT pair |
| ShadowInsts.T2ModImmIsExpansion | llvm/lib/Target/ARM/ARMSilhouetteShadowStack.cpp:94-114 | the single-MOV test accepts a value if and only if some 12-bit modified-immediate field expands to it (ThumbExpandImm) |
| ShadowInsts.FirstPredIndexFinds | llvm/lib/Target/ARM/ARMSilhouetteShadowStack.cpp:69-70 | the predicate is read from the first predicate operand, and its absence is detected |
| ShadowInsts.PredicateOf | llvm/lib/Target/ARM/ARMSilhouetteShadowStack.cpp:69-70 | an instruction built with predOps reports that predicate |
| ShadowInsts.SetupBuildersPredicated | llvm/lib/Target/ARM/ARMSilhouetteShadowStack.cpp:72-147 | every instruction the setup builds carries the push's predicate |
| ShadowInsts.PopBuildersPredicated | llvm/lib/Target/ARM/ARMSilhouetteShadowStack.cpp:186-277 | every instruction the pop path builds carries the pop's predicate |
| ShadowInsts.SetupFresh | llvm/lib/Target/ARM/ARMSilhouetteShadowStack.cpp:60-154 | the setup list is predicated, numbered from the counter and free of ITs, and it is one instruction exactly on the short path |
| ShadowInsts.PopFresh | llvm/lib/Target/ARM/ARMSilhouetteShadowStack.cpp:172-280 | the pop list starts with the slot skip, is predicated and fresh, and has two instructions exactly on the short path |
| ThumbExec.ExecAppend | llvm/lib/Target/ARM/ARMSilhouetteShadowStack.cpp:151 | running two instruction lists in sequence is running their concatenation |
| ThumbExec.MaterializeEffect | llvm/lib/Target/ARM/ARMSilhouetteShadowStack.cpp:94-114 | the MOV or MOVW/MOVT sequence leaves the 32-bit offset in the register |
| ThumbExec.HalvesMakeWord | llvm/lib/Target/ARM/ARMSilhouetteShadowStack.cpp:100-113 | the low and high halves rebuild the offset modulo 2^32, and MOVW alone suffices when the high half is zero |
| ThumbExec.StoreLREffect | llvm/lib/Target/ARM/ARMSilhouetteShadowStack.cpp:116-139 | the store writes LR at SP + scratch, and the hardened form also leaves the address in the scratch register |
| ThumbExec.ReturnEffect | llvm/lib/Target/ARM/ARMSilhouetteShadowStack.cpp:272-276 | the appended BX_RET copies LR to PC |
| ShadowEffects.SetupRun | llvm/lib/Target/ARM/ARMSilhouetteShadowStack.cpp:60-154 | running the setup code gives the setup state |
| ShadowEffects.SetupSaves | llvm/lib/Target/ARM/ARMSilhouetteShadowStack.cpp:60-154 | the setup code stores LR at its slot and keeps SP and the other registers, restoring a spilled R4, except that R4 holds LR when the slot offset wraps to 0 |
| ShadowEffects.SetupSavesLR | llvm/lib/Target/ARM/ARMSilhouetteShadowStack.cpp:60-154 | the setup slot holds LR afterwards |
| ShadowEffects.PopRun | llvm/lib/Target/ARM/ARMSilhouetteShadowStack.cpp:172-280 | running the pop code gives the pop state |
| ShadowEffects.PopRestores | llvm/lib/Target/ARM/ARMSilhouetteShadowStack.cpp:172-280 | the pop code loads its slot into LR or PC, advances SP past the return slot, restores a spilled R4, and returns through LR when it had to |
| ShadowEffects.PopLoadsSlot | llvm/lib/Target/ARM/ARMSilhouetteShadowStack.cpp:192-277 | the popped register receives the shadow slot's contents |
| ShadowEffects.LongOffsetNonZero | llvm/lib/Target/ARM/ARMSilhouetteShadowStack.cpp:201-278 | an offset outside 0..4092, which sends the pop down its long path, is non-zero modulo 2^32 |
| ShadowEffects.ZeroOffsetSpillGivesR4LR | llvm/lib/Target/ARM/ARMSilhouetteShadowStack.cpp:72-144 | with offset 0, hardened stores and no free register, the setup spills R4 and R4 ends up holding the saved LR |
| ShadowEffects.SlotsMeet | llvm/lib/Target/ARM/ARMSilhouetteShadowStack.cpp:72-263 | the pop's slot equals the setup's if and only if both sides make the same spill decision |
| ShadowEffects.SpillsDisagree | llvm/lib/Target/ARM/ARMSilhouetteShadowStack.cpp:72-263 | with no free register, the spill decisions differ if and only if stores are hardened and 0 <= offset <= 4092, and then it is the setup that spills |
| ShadowEffects.ReturnsSavedLR | llvm/lib/Target/ARM/ARMSilhouetteShadowStack.cpp:60-342 | a pop after a matching setup returns the LR saved at the push |
| ShadowStackSpec.KeptTrans | llvm/lib/Target/ARM/ARMSilhouetteInstrumentor.cpp:171-398 | keeping instructions is transitive under successive edits |
| ShadowStackSpec.Inserted | llvm/lib/Target/ARM/ARMSilhouetteShadowStack.cpp:151 | inserting fresh code keeps the block invariant, and every old and every new instruction as a member of the block |
| ShadowStackSpec.Removed | llvm/lib/Target/ARM/ARMSilhouetteShadowStack.cpp:334-338 | erasing a plain instruction keeps the invariant and the others, and drops its id |
| ShadowStackSpec.Updated | llvm/lib/Target/ARM/ARMSilhouetteShadowStack.cpp:212-230 | replacing one instruction in place keeps the invariant and the others |
| ShadowStackSpec.SetupEdit | llvm/lib/Target/ARM/ARMSilhouetteShadowStack.cpp:60-154 | the setup keeps the invariant, and the old and the new instructions as members of the block (their place is stated by ShadowStackView.SetupEditView) |
| ShadowStackSpec.PopInserted | llvm/lib/Target/ARM/ARMSilhouetteShadowStack.cpp:172-280 | the pop's insertion keeps the invariant and the other instructions as members, and keeps the pop with its operand retargeted when a return must be added (the place of the new code is stated by ShadowStackView.PopEditView) |
| ShadowStackSpec.RetargetHidden | llvm/lib/Target/ARM/ARMSilhouetteShadowStack.cpp:212-215 | retargeting changes only the popped operand |
| ShadowStackSpec.Unreturn | llvm/lib/Target/ARM/ARMSilhouetteShadowStack.cpp:285-293 | a returning POP loses its return form, and the last new instruction takes over its implicit operands |
| ShadowStackSpec.Shrink | llvm/lib/Target/ARM/ARMSilhouetteShadowStack.cpp:294-338 | the POP is narrowed, replaced by a post-indexed load, or erased when it would pop nothing |
| ShadowStackSpec.PopDemote | llvm/lib/Target/ARM/ARMSilhouetteShadowStack.cpp:284-339 | the demotion keeps the invariant and the unrelated instructions, and produces the demoted POP or its replacement |
| ShadowStackSpec.PopEdit | llvm/lib/Target/ARM/ARMSilhouetteShadowStack.cpp:172-342 | the whole pop edit keeps the invariant and the other instructions as members, with the new code inserted and the original POP demoted (the order is stated by ShadowStackView.PopEditView) |
| ShadowStackSpec.MarkedLR | llvm/lib/Target/ARM/ARMSilhouetteShadowStack.cpp:222-230 | exactly the first LR entry of the callee-saved list becomes restored |
| ShadowStackSpec.MarkedLRIdempotent | llvm/lib/Target/ARM/ARMSilhouetteShadowStack.cpp:222-230 | marking LR restored twice is marking it once |
| ShadowStackSpec.MarkedLRWithout | llvm/lib/Target/ARM/ARMSilhouetteShadowStack.cpp:222-230 | a callee-saved list without LR is left unchanged |
| ShadowStackView.SetupEditView | llvm/lib/Target/ARM/ARMSilhouetteShadowStack.cpp:60-154 | the setup puts its code right before the push, under the push's condition, and keeps every other entry of the view in order and under its condition |
| ShadowStackView.UnreturnView | llvm/lib/Target/ARM/ARMSilhouetteShadowStack.cpp:285-293 | un-returning replaces the pop's entry by the stripped pop and the last new instruction's entry by the one with the implicit operands, under the same conditions |
| ShadowStackView.ShrinkView | llvm/lib/Target/ARM/ARMSilhouetteShadowStack.cpp:294-338 | the demotion switch replaces the pop's entry by the narrowed pop, the post-indexed load, or nothing, under the same condition |
| ShadowStackView.PopEditView | llvm/lib/Target/ARM/ARMSilhouetteShadowStack.cpp:172-342 | the whole pop edit replaces the pop's entry by the demoted pop (if any remains) followed by the new code, the last instruction taking the pop's implicit operands when the pop returned, all under the pop's condition, and keeps every other entry in order and under its condition |
| ShadowStack.SetupShadowStack | llvm/lib/Target/ARM/ARMSilhouetteShadowStack.cpp:60-154 | the method performs the setup edit on the block, reports a change, and leaves the rest of the function unchanged |
| ShadowStack.MarkLRRestored | llvm/lib/Target/ARM/ARMSilhouetteShadowStack.cpp:222-230 | the loop marks the first LR entry restored and touches nothing else |
| ShadowStack.SwitchToLR | llvm/lib/Target/ARM/ARMSilhouetteShadowStack.cpp:212-230 | the POP's operand becomes LR, and the callee-saved data is marked when valid |
| ShadowStack.PopInsert | llvm/lib/Target/ARM/ARMSilhouetteShadowStack.cpp:200-280 | the insertion and the register switch give the specified pop insertion |
| ShadowStack.UnreturnPop | llvm/lib/Target/ARM/ARMSilhouetteShadowStack.cpp:285-293 | the block becomes the specified un-returned POP |
| ShadowStack.ShrinkPop | llvm/lib/Target/ARM/ARMSilhouetteShadowStack.cpp:294-338 | the block becomes the specified narrowed or replaced POP |
| ShadowStack.NarrowPop | llvm/lib/Target/ARM/ARMSilhouetteShadowStack.cpp:294-312 | the two-register update form becomes the specified post-indexed load |
| ShadowStack.PopFromShadowStack | llvm/lib/Target/ARM/ARMSilhouetteShadowStack.cpp:172-342 | the method performs the pop edit on the block, and marks the callee-saved data exactly when it adds a return |
| ShadowStack.SetupSite | llvm/lib/Target/ARM/ARMSilhouetteShadowStack.cpp:441-443 | instrumenting one push site by id is the setup edit at that site |
| ShadowStack.PopSite | llvm/lib/Target/ARM/ARMSilhouetteShadowStack.cpp:444-446 | instrumenting one pop site by id is the pop edit at that site |
| ShadowStack.SetupPushes | llvm/lib/Target/ARM/ARMSilhouetteShadowStack.cpp:441-443 | the loop over push sites gives the specified sequence of setup edits and reports a change exactly when there are sites |
| ShadowStack.PopPops | llvm/lib/Target/ARM/ARMSilhouetteShadowStack.cpp:444-446 | the loop over pop sites gives the specified sequence of pop edits and reports a change exactly when there are sites |
| ShadowStack.Run | llvm/lib/Target/ARM/ARMSilhouetteShadowStack.cpp:364-449 | a privileged function is untouched; any other gets the specified instrumentation, with a change reported exactly when it has a push or pop site |
| ShadowPassSpec.Found | llvm/lib/Target/ARM/ARMSilhouetteShadowStack.cpp:385-437 | looking an instruction up by id finds it in its block, or shows it is absent |
| ShadowPassSpec.FoundStays | llvm/lib/Target/ARM/ARMSilhouetteShadowStack.cpp:441-446 | an instruction an edit keeps is found again by id |
| ShadowPassSpec.PushesStay | llvm/lib/Target/ARM/ARMSilhouetteShadowStack.cpp:441-443 | every push site stays findable after another site's edit |
| ShadowPassSpec.PopsStay | llvm/lib/Target/ARM/ARMSilhouetteShadowStack.cpp:444-446 | every pop site other than the one edited stays findable with its shape |
| ShadowPassSpec.Replaced | llvm/lib/Target/ARM/ARMSilhouetteShadowStack.cpp:151 | replacing a block by an edit that keeps the invariant keeps the function invariant and everything outside the block |
| ShadowPassSpec.SetupAt | llvm/lib/Target/ARM/ARMSilhouetteShadowStack.cpp:60-154 | one setup keeps the function invariant, the callee-saved data and every instruction |
| ShadowPassSpec.SetupAll | llvm/lib/Target/ARM/ARMSilhouetteShadowStack.cpp:441-443 | all setups keep the invariant, every instruction and every pop site |
| ShadowPassSpec.PopAtSite | llvm/lib/Target/ARM/ARMSilhouetteShadowStack.cpp:172-342 | one pop edit keeps the invariant and every instruction except the pop, and changes the callee-saved data only by marking LR |
| ShadowPassSpec.PopAll | llvm/lib/Target/ARM/ARMSilhouetteShadowStack.cpp:444-446 | all pop edits keep every instruction except the edited pops, and the callee-saved data is either unchanged or marked once |
| ShadowPassSpec.PopAllStep | llvm/lib/Target/ARM/ARMSilhouetteShadowStack.cpp:444-446 | each step of the pop loop leaves the remaining sites valid, and the rest of the specification is the remaining work |
| ShadowPassSpec.Classified | llvm/lib/Target/ARM/ARMSilhouetteShadowStack.cpp:385-437 | every collected push and pop site can be instrumented, and the pop sites are distinct |
| ShadowPassSpec.Instrumented | llvm/lib/Target/ARM/ARMSilhouetteShadowStack.cpp:364-449 | the pass keeps the invariant and the block count, keeps every original instruction except the instrumented pops, and marks the callee-saved data at most once |

## Left out

- Diagnostics are not modelled, because they do not change the code: the `errs()` messages, the `hasVarSizedObjects` warning (S:376-379) and the spill messages.
- Pass registration, `getPassName` and the pass constructor (S:36-44, S:450-458) are left out: they are LLVM plumbing.
- The compiler-rt builtins and their tests are not part of this model.
- `ARMSilhouetteInstrumentor.h` is not part of this model, so neither is the default of the `Thumb` argument. The model takes `Config.thumb` as a parameter. With it false the candidates are R0-R12 and LR, in that order. With it true they are R0-R7.
- LLVM's register information is a parameter (`Liveness.TargetInfo`): `LivePhysRegs::stepBackward`'s definitions and uses, and `MachineRegisterInfo::isReserved`.
- `getT2SOImmVal` is written out from the ARMv7-M modified-immediate rules of section A5.3.2 of the ARMv7-M Architecture Reference Manual. Only its success test is used; it is proved to accept exactly the values `ThumbExpandImm` produces from a 12-bit field.
- `getOppositeCondition` is written out as the pairwise ARM condition flip, and `getInstrPredicate` reads the first predicate operand pair. Both are LLVM calls whose code is not shown.
- `findFreeRegistersAfter` (S:203) is not defined in the two source files. `Liveness.FindFreeRegistersAfter` models it as the "before" query applied to the liveness just after the instruction.
- Instructions are found by a unique id instead of by pointer. Iterators, debug locations and `copyImplicitOps` are modelled by moving the POP's list of implicit operands.
- Blocks keep their live-out sets. The pass does not change them.
- Source assertions become preconditions:
  - the editor's "not a meta instruction" and "not an IT" assertions (`ITEditSpec.InsertReady`, `ITEditSpec.RemoveReady`);
  - the shape of an instrumented POP, which `ShadowStack.Run` requires through `ShadowPassSpec.PopsShaped` (S:409-431 and the demotion switch's default case, S:334-338).
- ThumbExec: executes every emitted instruction as if its predicate held. The pass copies the instrumented instruction's predicate to every new instruction (`ShadowInsts.SetupFresh`, `ShadowInsts.PopFresh`), and none of them sets flags, so under a failing condition none executes. Flags, faults and unprivileged-access checks of `STRT` are not modelled.
- ShadowStackSpec.Unreturn: the source first copies the implicit operands onto the last new instruction and then rebuilds the POP. The model applies the two in-place updates in the other order. They touch distinct instructions, so the result is the same.
- ShadowPassSpec.Instrumented: states the invariant, the block count, the callee-saved data and that every original instruction other than the instrumented pops is kept as a member. The predicate and the machine effect of the emitted code are proved about the emitted lists (ShadowInsts, ShadowEffects), and their place and condition for one site's block edit (ShadowStackView); neither is lifted to the whole function, and there is no global "every return is checked" property.
- Invariants.InsertKeepsWF: states well-formedness only; the conditions of the old and new instructions are stated by EditView.InsertView.
- Invariants.RemoveKeepsWF: states well-formedness only; the conditions of the remaining instructions are stated by EditView.RemoveView.
- InstrIds.InsertKeeps: states membership only; the order is stated by EditView.InsertView.
- InstrIds.RemoveKeeps: states membership only; the order is stated by EditView.RemoveView.
- ShadowStackSpec.Inserted: states membership only; where the code lands is stated for the pass's two insertions by ShadowStackView.SetupEditView and ShadowStackView.PopEditView.
- ShadowStackSpec.SetupEdit: states membership only; that the store lies right before the push is ShadowStackView.SetupEditView.
- ShadowStackSpec.PopInserted: states membership only; that the new code follows the pop is ShadowStackView.PopEditView.
- ShadowStackSpec.PopEdit: states membership only; the order is ShadowStackView.PopEditView.
- ITEditSpec.InsertReady: demands that the last new instruction is not meta when the "after" form is given the instruction that closes its IT block. That is stronger than needed: the source goes wrong only when the code-emitting instructions before the trailing meta ones fill whole chunks of 4, so that a chunk of meta instructions alone is left. The pass never inserts meta instructions.
- EditView.InsertAtITView: at an IT instruction itself the source splices the list in without rebuilding any IT, so the new instructions fall into the IT's block; the view statements of EditView.InsertView exclude that case.
