# rv32-bt: a verified model

rv32-bt runs RISC-V (RV32IM) programs. It interprets them, cuts what it executes into basic blocks, records the traces of hot
loops, and compiles each traced region through an SSA form into host code. This project models the four parts of it that have to
be right for the guest to see nothing but the instruction set, and proves them right. All statements are about every graph, every
region, every run and every state that meets the stated preconditions.

1. **Graph analyses of a region** (`regionCFG.cc`, `cfgBasicBlock.cc`). Dominance, frontiers, natural loops and definition blocks
   are defined by paths (modules `Graphs`, `Frontiers`, `NaturalLoops`, `PhiPlacement`), and the loops of the program are methods
   over the mutable tables of the original, proved against those definitions: the bitset fixpoint with its in-place extraction of
   immediate dominators (`BitsetDominance`), the Lengauer-Tarjan algorithm with path compression (`DfsTrees`, `Semidominators`,
   `LengauerTarjan`), interval numbering of the dominator tree, dominance frontiers, iterated-frontier phi placement, and natural
   loops (`RegionCfgs`).
2. **The meaning of compiled code** (`riscvInstruction.cc` against `interpret.cc`). `Rv32` is the interpreter; `SsaIr`, `CodeGen`,
   `SsaForm` and `SsaRun` are an SSA language with phis, compare chains and abort blocks, the code generator, what renaming
   produces, and how the result runs. `MachineFacts`, `Refinement`, `Meaning` and `SsaPaths` prove that it computes what the
   interpreter computes; `DefUse`, `Renaming` and `Translator` are the imperative passes that produce it. The interpreter itself
   is pinned from outside: `Encoding` writes the words of all instructions down from the format tables and proves that decoding
   inverts it, and `StepLaws` and `AluLaws` say what each step does from the bits of the word and in plain arithmetic.
3. **The block store and the dispatcher** (`basicBlock.cc`, `interpret.cc`, `main.cc`). `BlockHeap`, `BlockSplit` and `BlockStores`
   state the invariant of all blocks together and prove that every operation keeps it, splits included; `FindBlocks` and
   `Dispatcher` look blocks up, build them, run them and run compiled regions; `PlainMode` is the loop without the translator.
4. **The trace recorder and the region builder** (`region.cc`, `regionCFG.cc`, `helper.cc`). `TraceRecorder` proves recorded traces
   to be closed walks; `Augmentation` is the depth-first search for untraced blocks and its four modes; `RegionBuilder` proves that
   traces with such blocks always satisfy what `buildCFG` assumes or dies on, but for instructions without translation; `Filters`
   proves which words are accepted and translated; `Polynomials`, `Crc`, `CrcNumbers` and `TraceKeys` prove that the keys of traces
   are remainders of the CRC-32C polynomial, and do not conflate traces that differ in one block.

The four parts are put together in `CompiledCode`, `Dispatcher` and `Simulator`. The dispatch loop of the model records traces,
augments and builds their regions, translates them and runs the SSA code of the translation, and every step of that is the one
proved right above; nothing is assumed of the compiled code. `Simulator.Simulate` is the result: from the first instruction of a
guest on, whatever blocks are built, split, recorded, compiled and invalidated on the way, the guest takes the steps of plain
interpretation, and stops where plain interpretation stops it, no earlier and, unless the program dies in one of the two ways
below, no later. What the guest must do for that is the predicate `CompiledCode.Tame`:
it does not change its code, executes no instruction that `execRiscv` gives up on or that C++ leaves undefined, does not read the
cycle counter into x0, and each linking `jalr` that it executes again satisfies `Refinement.LinkOk`; one that is executed once is
always interpreted. `Guests` has tame guests that stop, that do not, and that call once.

Five things that the program seems to promise are not so, and for each the model has the exact condition and an input:

- The code generated for a linking `jalr` (`riscvInstruction.cc:876-913`) ignores the immediate and the masking of the target, and
  reads rs1 after rd has been written. It leaves its block as the interpreter does if and only if `LinkOk` holds
  (`Meaning.LinkLeaves`); `LinkFailure.LinkGoesWrong` is an instruction and a state for which it does not.
- The filter of the compiler (`compile.cc:9-40`) lets words through that kill the compiler: `Guests.FenceKills` and
  `Guests.NopKills`. With augmentation the compiler also meets blocks that the filter has not seen. It dies if and only if some block
  of the region has an instruction without translation (`Dispatcher.Machine.CloseTrace`).
- Blocks that augmentation adds to a region do not learn the region's head (`basicBlock.cc:446-461`), so that their split does not
  drop the region (`CompiledCode.StaleRegion`). The code stays right, but where it leaves such a block for an address where no block
  starts, `new basicBlock` dies in `addSuccessor`, and nowhere else (`Dispatcher.Machine.RunCompiled`). `StaleLink.DiesAtLink` is a
  store, a guest and a run for which it does.
- With `--cfg` off the program still calls `getNextBlock` at every transfer of control, on a block without instructions, where
  `fallsThru` throws (`basicBlock.cc:147-156`). n instructions complete if and only if none of them transfers control
  (`PlainMode.PlainExact`); `Guests.SpinThrows` is a guest that does not get past its first.
- x0 is not constant: reading the cycle counter into x0 writes it, and nothing else does (`Rv32.X0Constant`); `Guests.CycleIntoZero`
  is the word and a state.

Reading order: `Graphs`, `BitsetDominators`, `LengauerTarjan`, `RegionCfg`, then `Rv32`, `Encoding`, `StepLaws`, `SsaForm`,
`Meaning`, then `BlockHeap`, `BlockStore`, `Augmentation`, `RegionBuilder`, `CompiledCode`, `Dispatcher`, `Simulator`, `Guests`,
`StaleLink`. Some state is ghost: the depth-first tree of Lengauer-Tarjan, the guest program, the history of visits, the order of
the search, and step counts. Blocks are the values of an abstract type with equality only, so no proof depends on what identifies a
block.

## Model

| member | source | states |
|---|---|---|
| Graphs.DomChain | regionCFG.cc:1154-1170 | the dominators of a block form a chain, which the in-place extraction of immediate dominators relies on |
| Graphs.IdomMapUnique | regionCFG.cc:806-811 | two maps that both give path-based immediate dominators are equal, so both sides of the 512-block switch give the same tree |
| BitsetDominance.BitsetDominators.Dfs | regionCFG.cc:1114-1126 | numbers what is reachable so that every block but the entry has a predecessor with a smaller number |
| BitsetDominance.BitsetDominators.Initialize | regionCFG.cc:1129-1132 | every block is numbered, and the starting sets are above every solution of the dominator equations |
| BitsetDominance.BitsetDominators.Refine | regionCFG.cc:1139-1149 | one in-place meet: the bits set in all the sets together strictly fall, or the block's equation already holds |
| BitsetDominance.BitsetDominators.Fixpoint | regionCFG.cc:1135-1152 | the loop ends, and then a bit is set exactly if its block lies on every path from the entry |
| BitsetDominance.SolutionOnPath | regionCFG.cc:1135-1152 | in any solution of the equations, a bit in a block's set belongs to a block on every path to it, so the path dominators are the greatest solution |
| BitsetDominance.StableIsDominance | regionCFG.cc:1135-1152 | a stable state that started from the top is exactly path dominance |
| BitsetDominance.DominatorsDescend | regionCFG.cc:1154-1170 | a strict dominator has a smaller preorder number |
| BitsetDominance.FilterStep | regionCFG.cc:1159-1166 | clearing with the already collapsed set of a nearer dominator removes exactly the one dominator above it |
| BitsetDominance.FilteredIsIdom | regionCFG.cc:1159-1167 | after the scan exactly one bit is left, and it is the immediate dominator |
| BitsetDominance.BitsetDominators.ExtractOne | regionCFG.cc:1154-1169 | one round of the extraction, with earlier sets collapsed and later ones whole |
| BitsetDominance.BitsetDominators.Run | regionCFG.cc:1102-1171 | the idom fields are the path-based immediate dominators, and the dominator-tree successors are their inverse |
| Semidominators.SemiIsAncestor | regionCFG.cc:90-98 | a semidominator is a proper ancestor in the depth-first tree |
| Semidominators.LeastOfferIsSemi | regionCFG.cc:92-98 | the least number offered by the predecessors is the number of the path-defined semidominator |
| Semidominators.DirectIdom | regionCFG.cc:104-112 | if no block between semidominator and w has a lower semidominator, the semidominator is the immediate dominator |
| Semidominators.DeferredIdom | regionCFG.cc:117-122 | otherwise the immediate dominator is that of the block of least semidominator |
| LengauerTarjan.CompressStep | regionCFG.cc:53-61 | joining two compressed stretches keeps the label of least Sdno on the uncompressed forest path |
| LengauerTarjan.WaitsForChild | regionCFG.cc:102-114 | when w is processed, every block in its parent's bucket has all the path below that parent in the forest, so no bucket is emptied too early |
| LengauerTarjan.LengauerTarjanDominators.Dfs | regionCFG.cc:35-47 | numbers the blocks in preorder, Parent and Ndfs giving a depth-first spanning tree without forward cross edges |
| LengauerTarjan.LengauerTarjanDominators.Compress | regionCFG.cc:53-61 | terminates; every later Eval still answers for the uncompressed forest; only blocks up to bb change; bb then hangs off its root |
| LengauerTarjan.LengauerTarjanDominators.Eval | regionCFG.cc:62-70 | a block of least Sdno on the uncompressed forest path up to but not including the root, or the block itself if it is a root |
| LengauerTarjan.LengauerTarjanDominators.Semidominate | regionCFG.cc:92-98 | Sdno of w becomes the number of its path-defined semidominator, and nothing else in Sdno changes |
| LengauerTarjan.LengauerTarjanDominators.DrainBucket | regionCFG.cc:102-114 | every block waiting in the parent's bucket gets its immediate dominator or a block to defer to |
| LengauerTarjan.LengauerTarjanDominators.Process | regionCFG.cc:90-115 | the whole state of the algorithm goes from block number i to i - 1 |
| LengauerTarjan.CorrectOne | regionCFG.cc:117-122 | the final pass turns each deferred entry into the immediate dominator |
| LengauerTarjan.LengauerTarjanDominators.Run | regionCFG.cc:74-128 | on every graph whose blocks are all reachable from the only one without predecessors, idom is the path-based immediate dominator |
| Translator.ComputeDominators | regionCFG.cc:806-811 | both branches of the 512-block switch give path-based immediate dominators and their tree |
| Frontiers.FewPreds | regionCFG.cc:1176-1178 | a block with fewer than two predecessors is in no frontier, so skipping it loses nothing |
| RegionCfgs.RegionCfg.WalkUp | regionCFG.cc:1179-1187 | the upward walk ends, and marks exactly the dominators of the predecessor that do not strictly dominate the block |
| RegionCfgs.RegionCfg.ComputeDominanceFrontiers | regionCFG.cc:1173-1190 | y is in the frontier of x if and only if x dominates a predecessor of y and does not strictly dominate y |
| RegionCfgs.RegionCfg.Number | regionCFG.cc:1068-1078 | numbers exactly the subtree, in an interval, so that intervals nest as dominance does |
| RegionCfgs.RegionCfg.FastDominancePreComputation | regionCFG.cc:1064-1081 | afterwards the constant-time test holds if and only if the block lies on every path from the entry |
| RegionCfgs.RegionCfg.DominatesWalk | cfgBasicBlock.cc:420-438 | the walk up the idom chain with its shortcuts decides the same relation |
| RegionCfgs.RegionCfg.AddPhiNode | cfgBasicBlock.cc:134-142 | at most one phi per register and block |
| RegionCfgs.RegionCfg.SpreadFrom | regionCFG.cc:207-216 | handling one work-list entry: its frontier gets phis, and every new block is queued |
| RegionCfgs.RegionCfg.InducePhis | regionCFG.cc:199-218 | ends; the blocks that get a phi are the least set containing the frontiers of the definitions and closed under frontiers, and no other phi changes |
| RegionCfgs.RegionCfg.FindLoop | regionCFG.cc:2013-2029 | ends despite duplicates on the stack, and for a back edge gives exactly the header and all blocks that reach the latch without passing it |
| RegionCfgs.RegionCfg.LoopStep | regionCFG.cc:2016-2027 | an entry already in the loop has its predecessors in the loop or nearer the top of the stack |
| NaturalLoops.LoopDominated | regionCFG.cc:2037-2043 | the header of a back edge dominates every block of its loop |
| RegionCfgs.RegionCfg.FindNaturalLoops | regionCFG.cc:2032-2063 | one loop per header: the union of the loops of all its latches |
| PhiPlacement.IteratedIsClosed | regionCFG.cc:199-218 | closure of the frontier sets is closure under path-based frontiers |
| PhiPlacement.Carrier | regionCFG.cc:199-218 | along any path from a definition, some definition or phi on the path dominates its end |
| PhiPlacement.MeetHasPhi | regionCFG.cc:199-218 | a block where two otherwise disjoint paths from definitions meet has a phi |
| PhiPlacement.NoPhiNoWrite | regionCFG.cc:199-218 | if a block has no phi, no block strictly between its immediate dominator and it, on any path, is a definition |
| DefUse.GetRegDefBlocks | regionCFG.cc:466-498 | a register is marked read exactly if an instruction reads it, and its definition blocks are exactly the blocks that write it |
| DefUse.RecUses | riscvInstruction.cc:214-276 | the registers marked are those marked before and those the instruction reads |
| DefUse.RecDefines | riscvInstruction.cc:214-282 | the block is added for exactly the register the instruction writes |
| DefUse.NoZeroDefs | regionCFG.cc:1005 | the assertion that x0 is not written holds for every region of translatable instructions |
| DefUse.AddEntry | regionCFG.cc:1006-1015 | the entry becomes a definition of exactly the registers that are written somewhere |
| DefUse.InsertPhis | regionCFG.cc:1001-1062 | for every register and the instruction count the blocks with a phi are the iterated frontier of the definitions, the least set closed under frontiers, and a variable that is not written has none |
| Renaming.OnlyChild | cfgBasicBlock.cc:476-482 | the region head is the only dominator-tree child of the entry, so leaving the loop after the first child skips nothing |
| Renaming.SsaBuilder.GetSucc | cfgBasicBlock.cc:440-448 | the successor at an address, and none only if there is none |
| Renaming.SsaBuilder.GenerateAbort | regionCFG.cc:1367-1432 | branches inside the region where a successor is known, and otherwise saves every written register, the count and the pc |
| Renaming.SsaBuilder.HandleBranch | riscvInstruction.cc:236-260 | both ways of a conditional branch, which collapse to one when both addresses are equal |
| Renaming.SsaBuilder.CompareChain | riscvInstruction.cc:850-869 | the chain tests every successor and falls through to the abort block |
| Renaming.SsaBuilder.GenerateJump | riscvInstruction.cc:762-913 | the terminator of every branch and jump; a direct jump without its target as successor is the only failure |
| Renaming.SsaBuilder.GenerateBody | cfgBasicBlock.cc:533-537 | the statements and the table after the block, and a terminator exactly if the last instruction transfers control |
| Renaming.SsaBuilder.TraverseAndRename | cfgBasicBlock.cc:497-560 | renames exactly the blocks of the dominator subtree, each from the table of its immediate dominator, and leaves all others alone |
| Renaming.SsaBuilder.TraverseEntry | cfgBasicBlock.cc:450-483 | the entry loads exactly the variables read or written, and every other block of the region is renamed |
| Renaming.SsaBuilder.AddIncomingEdges | regionCFG.cc:1224-1238 | each predecessor's terminal value, which is never null |
| Renaming.SsaBuilder.PatchUpPhiNodes | cfgBasicBlock.cc:485-495 | every phi below gets one operand per predecessor |
| SsaForm.TablesGood | cfgBasicBlock.cc:497-545 | every table holds exactly the tracked variables, none null, each value made for its variable in a block that dominates |
| SsaForm.NoPhiSame | cfgBasicBlock.cc:513-545 | where a block has no phi, its predecessors and its immediate dominator agree on the value |
| SsaPaths.RenamingExact | cfgBasicBlock.cc:485-545 | along any path from the entry, of any length, the table's value traces back to the last write on that path, or the entry load |
| SsaPaths.NoPhiNoWriteBetween | cfgBasicBlock.cc:513-545 | where the translation has no phi for a register, no block strictly between the immediate dominator and the block writes it |
| Rv32.X0Constant | interpret.cc:510-525 | x0 keeps its value in every step except a cycle-counter read into x0, which stores the counter |
| Guests.CycleIntoZero | interpret.cc:514-520 | the word 0xc0002073 in a state of its own: x0 is zero before and holds the count after |
| Encoding.DecodeEncode | riscv.hh:5-84 | with the words of all instructions written down from the format tables of RV32IM (opcodes, function codes, the five layouts of immediates): decoding the word of an instruction whose registers and immediate fit gives back the instruction |
| Encoding.DecodeNone | interpret.cc:127-540 | the words that the interpreter gives up on, bit by bit: unknown opcodes, and unknown function codes of stores, branches and, if they have a destination, of loads and ALU instructions |
| StepLaws.BranchLaw | interpret.cc:464-507 | from the bits of the word at the pc: the step goes to pc plus the displacement exactly if the registers named by bits 19-15 and 24-20 meet the condition that bits 14-12 stand for (equal, different, signed and unsigned less or not less), else to pc + 4, and changes nothing but pc and count; codes 2 and 3 are given up |
| StepLaws.JalLaw | interpret.cc:295-309 | the target from the bits of the word, and pc + 4 in rd unless that is x0 |
| StepLaws.JalrLaw | interpret.cc:279-294 | the target is rs1 plus immediate without its lowest bit, with rs1 read before rd gets pc + 4 |
| StepLaws.UpperLaw | interpret.cc:260-278 | lui and auipc |
| StepLaws.SystemLaw | interpret.cc:510-530 | only 0x73 stops the machine, and leaves the pc; only a read of the cycle counter writes a register, x0 like any other; the rest, fences too, moves on |
| StepLaws.LoadLaw | interpret.cc:129-163 | the register gets the one, two or four bytes at rs1 plus immediate, lowest first, with the sign of the top byte extended for lb and lh; widths that do not exist are given up unless rd is x0 |
| StepLaws.StoreLaw | interpret.cc:236-258 | the memory with exactly the one, two or four bytes of rs2 put at rs1 plus immediate |
| StepLaws.StoreKeeps | interpret.cc:236-258 | a store leaves every byte outside its range as it was |
| StepLaws.StoreThenLoad | interpret.cc:129-258 | a load of the width of a store gives the number back, cut to the width and extended by its sign or by zeros |
| AluLaws.ComputeResult | interpret.cc:310-462 | an operation has no result exactly for a zero divisor and for the most negative number divided by -1; otherwise the result satisfies the arithmetic relation of the operation: sums and products modulo 2^32, every bit of and, or and xor, shifts and high products as floors, quotient and remainder with a == b * q + r, r shorter than b and of the sign of a |
| AluLaws.OneResult | interpret.cc:310-462 | that relation leaves one result for every operation |
| AluLaws.BitByBit | interpret.cc:377-443 | bit k of the bitwise operations from the bits k of the operands |
| AluLaws.Truncates | interpret.cc:383-432 | division rounds toward zero |
| AluLaws.AluLaw | interpret.cc:310-462 | the step of a word with the register opcode computes what its function codes stand for on the registers that it names |
| AluLaws.AluImmLaw | interpret.cc:179-235 | the same with a sign-extended constant, and with shift amounts from bits 24-20 |
| MachineFacts.ExecKeeps | interpret.cc:127-544 | translatable instructions keep the machine state in range and write no register but their destination |
| MachineFacts.InterpretKeeps | interpret.cc:86-558 | every step but a cycle-counter read into x0 keeps registers in range and x0 zero |
| MachineFacts.MaskEven | riscvInstruction.cc:848 | masking with ~1 clears exactly the lowest bit |
| SsaIr.Mask31 | riscvInstruction.cc:472-477 | masking a shift amount with 0x1f is the remainder by 32 |
| SsaIr.MulhCorrect | riscvInstruction.cc:478-487 | the high word of the 64-bit product of sign-extended operands is that of the exact product |
| SsaIr.AluExprCorrect | riscvInstruction.cc:442-610 | the code of every register-register operation computes what the interpreter computes |
| SsaIr.AluImmExprCorrect | riscvInstruction.cc:369-440 | the same for every register-immediate operation |
| Refinement.InsnSim | riscvInstruction.cc:369-760 | one instruction: its code and its new table mirror one interpreter step, memory included |
| Refinement.BodySim | cfgBasicBlock.cc:533-537 | the same for any number of instructions of a block |
| Meaning.EnterSim | cfgBasicBlock.cc:485-515 | entering a block along any edge: its phis receive the interpreter's values |
| Meaning.AbortSim | regionCFG.cc:1367-1432 | an abort block restores exactly the interpreter's pc, registers, memory and instruction count |
| Meaning.LinkExact | riscvInstruction.cc:876-913 | a linking jalr tests the right address if and only if LinkOk holds, a condition on its immediate, registers and target |
| Meaning.LinkLeaves | riscvInstruction.cc:876-913 | the terminator of a linking jalr leaves the block as the interpreter does if and only if LinkOk holds |
| LinkFailure.LinkGoesWrong | riscvInstruction.cc:876-913 | for `jalr x1, 4(x5)` with 0x100 in x5 the interpreter goes to 0x104, and the generated code leaves with the interpreter's registers for 0x100 |
| Meaning.JrTarget | riscvInstruction.cc:844-848 | the address that jr tests is the interpreter's target |
| Meaning.TermSim | riscvInstruction.cc:236-260 | every terminator goes where the interpreter goes, or leaves with its state |
| Meaning.StepSim | cfgBasicBlock.cc:497-560 | one block of compiled code is as many interpreter steps as it has instructions |
| Meaning.TranslationPreservesMeaning | regionCFG.cc:800-867 | after any number of blocks the compiled code is not stuck, and if it has left, its state is the one the interpreter reaches in the same number of steps, the last of which was the last instruction of the block that was left, for where control can go from there and the block has no successor in the region |
| Meaning.TranslationIsFaithful | regionCFG.cc:800-867 | the same as one property of region and translation, for all start states and run lengths; code that is still inside has not stopped the machine |
| Meaning.Progress | cfgBasicBlock.cc:518-520 | code that is still running has counted at least one instruction per block |
| Translator.AnalyzeGraph | regionCFG.cc:800-881 | the passes of analyzeGraph in their order produce code that preserves meaning |
| Translator.CompileTraces | regionCFG.cc:555-798 | compiling the recorded traces of a head, with what augmentation adds, fails if and only if an instruction of the region has no translation, and otherwise gives code of all blocks of the region that preserves meaning |
| BlockHeap.NotTooLong | basicBlock.cc:227 | a finished block does not wrap around the address space, so the offset of a split is its position |
| BlockHeap.EdgeAdded | basicBlock.cc:164-166 | a new edge keeps succs and preds symmetric and succsMap their mirror |
| BlockHeap.FewSuccs | basicBlock.cc:168-181 | a block that does not jump indirectly never has more than two successors, so the check cannot fail |
| BlockHeap.InsnAddedCode | basicBlock.cc:191-212 | a block that grows by the next instruction stays laid out at entryAddr + 4i |
| BlockSplit.SplitKeepsCode | basicBlock.cc:259-275 | both halves are laid out and sized as finished blocks |
| BlockSplit.SplitKeepsEdges | basicBlock.cc:241-257 | edges stay symmetric and mirrored |
| BlockSplit.SplitKeepsFlow | basicBlock.cc:241-257 | every edge is still one that control can take, and the first half falls into the second |
| BlockSplit.SplitKeepsIndex | basicBlock.cc:239-264 | both address maps still find what they should |
| BlockStores.LinkOk | basicBlock.cc:152-176 | an edge to where control can go keeps the whole invariant, and neither call of die() is reached |
| BlockStores.SplitDone | basicBlock.cc:224-284 | all the fields after a split satisfy the whole invariant |
| BlockStores.BlockStore.constructor | main.cc:222-223 | the empty store satisfies the invariant |
| BlockStores.BlockStore.NewBlock | basicBlock.cc:181-183 | a block at a new address: the whole new state, and the invariant |
| BlockStores.BlockStore.AddSuccessor | basicBlock.cc:147-176 | fails exactly if the block has no instruction, falls through and would get a second successor, or has no indirect jump and would get a third; for an edge control can take it does not, and the invariant holds afterwards |
| BlockStores.BlockStore.AddIns | basicBlock.cc:189-207 | the whole new state; the next instruction keeps the invariant, and a read-only block does not change |
| BlockStores.BlockStore.AddRegion | basicBlock.cc:421-434 | a trace is kept if and only if its key is new, the key is counted, and the blocks learn the head; counted keys stay those of the kept traces |
| BlockStores.BlockStore.EnoughRegions | basicBlock.cc:406-411 | true exactly if some trace has been seen often enough |
| BlockStores.BlockStore.CanCompileRegion | basicBlock.cc:37-60 | true exactly if all instructions are accepted by the filter, which the rows below are about: the test that a block falls into the next one cannot fail on a recorded trace |
| Filters.FilterExact | compile.cc:9-40 | of the words that the interpreter executes the filter refuses exactly the system instructions |
| Filters.AcceptedExact | basicBlock.cc:37-60 | a block of such words is accepted exactly if it has no system instruction |
| Filters.TranslatableAccepted | basicBlock.cc:37-60 | a block whose instructions all have a translation is always accepted, so no such trace is thrown away |
| Filters.HasClass | riscvInstruction.cc:285-364 | the words that getInsn has a class for, by opcode |
| Filters.TranslatesExactly | riscvInstruction.cc:285-364 | the words with a translation: branches, jumps and stores, and whatever else writes a register other than x0 |
| Filters.FlagWords | riscv.hh:86-160 | the words that set the four flags of a block, and those that end a block, by opcode and destination |
| BlockStores.BlockStore.Compile | basicBlock.cc:464-490 | the store takes exactly the blocks of the recorded traces for the region, whatever augmentation has added, and clears the traces |
| BlockStores.BlockStore.SetReadOnly | basicBlock.cc:125-142 | the whole new state: the first time, each of the four flags gains what the instructions set, and the traces, counts and code of the block are dropped; later nothing |
| BlockStores.FlagsOfExact | basicBlock.cc:125-134 | each of hasjr, hasjalr, hasjal and hasmonitor is set if and only if the block has such an instruction |
| BlockStores.BlockStore.DropCompiledCode | basicBlock.cc:209-222 | exactly the traces of the block and the traces and code of the regions that contain it are dropped |
| BlockStores.BlockStore.Relink | basicBlock.cc:241-257 | the successors move to the new block, which becomes the only successor |
| BlockStores.BlockStore.Divide | basicBlock.cc:259-266 | the instructions from the offset on move, and insMap follows them |
| BlockStores.BlockStore.Forget | basicBlock.cc:228-235 | no trace and no compiled region contains the block any more, and nothing is being recorded |
| BlockStores.BlockStore.Split | basicBlock.cc:224-284 | the whole new state and the invariant; no trace or compiled region contains the split block any more, and exactly those of the heads that knew it are gone |
| BlockStores.SplitKeepsCompiled | basicBlock.cc:209-235 | a region that is still compiled after a split has the blocks it was compiled from, unchanged |
| BlockStores.CollectBlocks | regionCFG.cc:566-574 | exactly the blocks of the traces |
| FindBlocks.FindBlock | basicBlock.cc:305-329 | finds nothing exactly if the address is unknown to all three maps; otherwise the block that starts there, made by a split if need be, with the edge to it; a known successor changes nothing; regions still compiled are unchanged; on a block without instructions it fails exactly if a block starts at the address |
| TraceRecorder.RegionFinder.constructor | region.hh:29-34 | a recorder that is not collecting |
| TraceRecorder.RegionFinder.UpdateRegionHeads | region.cc:8-35 | a block counts as visited unless it starts behind the block given as the last one; collecting starts, with that block as head, exactly at the visit that is the hotThresh-th, and at least the second, since its slot was last visited for another block or freed, and then frees the slot |
| TraceRecorder.SlotsDiffer | region.hh:25-27 | two entry addresses share a slot if and only if, divided by four, they are congruent modulo 1024 |
| TraceRecorder.RowCounts | region.cc:20-33 | the count of a head over any history is the number of counted visits in its slot since the last event there that was not a visit to it |
| TraceRecorder.RowStarts | region.cc:20-33 | every history has such a last event, or none of another kind |
| TraceRecorder.TracksVisit | region.cc:20-33 | the table of 1024 heads and counts follows the history of each slot through a visit |
| TraceRecorder.RegionFinder.DisableRegionCollection | region.cc:37-48 | collecting stops and the slot of the head is freed, or nothing changes |
| TraceRecorder.RegionFinder.GetRegion | region.cc:50-59 | hands out exactly the collected blocks, in order, and frees the slot of the head |
| TraceRecorder.RegionFinder.Update | region.cc:61-80 | done exactly when the head comes round; then the trace is a non-empty closed walk of at most numEntries - 1 blocks that holds its head first and nowhere else; else the block joins the walk, or the buffer is full |
| TraceRecorder.WalkKept | region.cc:61-80 | edges added while collecting do not spoil the walk |
| Dispatcher.Machine.constructor | main.cc:222-223 | the first block is ready to be built at the start address |
| Dispatcher.Machine.GetNextBlock | interpret.cc:74-81 | control moves along an edge to the block that starts at the pc, and the block left is finished; while nothing is built it fails |
| Dispatcher.Machine.NewNext | basicBlock.cc:185-187 | a new block gets the edge from the block that control has left, unless that block has no instructions or falls through to another |
| Dispatcher.Machine.Interpret1 | interpret.cc:85-558 | one interpreter step inside a block; a transfer of control moves to the next block |
| Dispatcher.Machine.Run | basicBlock.cc:377-390 | running a block, which may split itself, is as many interpreter steps as it had instructions, and ends at an edge of the block; the executions counted grow by exactly one, for the edge from the block that was run to the new pc; after a transfer of control the current block is already the next one, otherwise still the one that was run |
| Dispatcher.Machine.Lookup | basicBlock.cc:384-390 | the edge from the block to the pc gains one execution and nothing else is counted; findBlock has the edge already |
| Dispatcher.Machine.Heat | basicBlock.cc:523-525 | the visit is counted unless the next block starts behind the current one or a trace is being collected; after a block that ends in a transfer both are the same block, so forward transfers are counted like backward ones; collecting starts at exactly the visit given above |
| Dispatcher.Machine.InterpretAndBuild | interpret.cc:85-90 | one interpreter step, and the block grows by exactly that instruction or is finished |
| Dispatcher.Machine.CloseTrace | basicBlock.cc:446-510 | the closed trace is counted and recorded; the region is compiled if and only if a count is high enough and the trace is accepted; the compiler then dies if and only if some block of the region, from the traces or from augmentation, has an instruction without translation; all compiled code fits its region |
| Dispatcher.Machine.CompileRegion | basicBlock.cc:463-501 | the new code is a faithful translation of the traces of the head and of what augmentation adds to them; death is exact |
| Dispatcher.Machine.ExecuteJIT | basicBlock.cc:436-528 | every outcome is some number of interpreter steps, and the current block is again ready at the pc, or the program has died in one of two known ways, one of them only with augmentation; a trace is closed exactly if the current block closes the recorded walk; if that leaves a compiled region, and nothing is recorded, its code is what runs; a block without a region that control has gone to is visited |
| Dispatcher.Machine.Record | basicBlock.cc:446-506 | the current block joins the walk, or closes it, and then the trace is handled as CloseTrace says; otherwise the records stay as they are |
| Dispatcher.Machine.RunUnit | basicBlock.cc:513-520 | compiled code runs if and only if the block has some and nothing is recorded, and does what its run comes to; otherwise the block itself is run; either way some number of interpreter steps, along an edge of the block store |
| CompiledCode.CompiledRuns | regionCFG.cc:1939-1991 | compiled code entered in a state of a tame guest is, after any number of blocks, where the interpreter is, or has returned its state, by a transfer of control, to a block of the region, for where control can go from there unless that block has been split since |
| CompiledCode.ExitJumps | regionCFG.cc:709-716 | a block of a region that falls through falls into the region, so compiled code is left only by a transfer of control |
| CompiledCode.RunRegion | regionCFG.cc:1939-1957 | runs the translation block by block; code that has left its region is done |
| CompiledCode.CplrKept | basicBlock.cc:209-235 | code keeps fitting its region while other blocks are built, linked and split, and while blocks that only augmentation has put into the region are split |
| CompiledCode.StaleRegion | basicBlock.cc:209-235 | the split of a block drops a region if and only if the block has learned the region's head; a region that has the block from augmentation stays, and the block is not the one it was compiled from any more |
| CompiledCode.TameRun | interpret.cc:85-558 | a tame guest never gets stuck, and keeps x0 zero and its registers in range |
| CompiledCode.TameTail | interpret.cc:85-558 | a tame guest is tame from each of its states on, with the addresses executed on the way as those it has been at |
| Dispatcher.Machine.RunCompiled | basicBlock.cc:513-524 | entering compiled code comes to what its run comes to, some number of interpreter steps; dispatch goes on at the block that starts at the pc, and dies in addSuccessor if and only if the run has left a block that has been split since it was compiled, for an address where no block starts, which takes augmentation |
| StaleLink.DiesAtLink | basicBlock.cc:519-521 | a tame guest and a store for which it does: augmentation takes a block into the region, the block is split, and the code of the region leaves it for an address where no block starts |
| StaleLink.TakesInB | regionCFG.cc:607-617 | there the search of the default mode takes in exactly the one block beside the trace |
| StaleLink.LeavesB | regionCFG.cc:1939-1957 | and the code can only leave from that block, for that address |
| Dispatcher.Machine.Dispatch | main.cc:238-243 | the dispatch loop executes the instruction sequence of plain interpretation, under every mode of augmentation; if it stops the machine, interpretation stops there, and if interpretation stops it after no more steps than there may be dispatches, and blocks to each, the loop stops it there or has died |
| Dispatcher.MustStop | main.cc:238-243 | neither running out of dispatches nor compiled code that is still inside is possible once interpretation has stopped the machine |
| PlainMode.PlainExact | basicBlock.cc:147-156 | n instructions of the plain loop complete if and only if the interpreter executes n instructions of which none transfers control: the first transfer asks an empty block for its last instruction |
| PlainMode.PlainRunOnce | main.cc:233-237 | the plain loop ends in one way, after one number of instructions, in one state |
| Dispatcher.Machine.InterpretOnly | main.cc:233-237 | the loop, block store included, ends as PlainRun says: by its condition, by the exception, or where the interpreter gives up |
| Simulator.PlainStops | main.cc:233-243 | where interpretation stops the machine after n instructions and max_icnt leaves room, the plain loop ends there if none of the n transfers control, and throws otherwise |
| Guests.SpinThrows | basicBlock.cc:147-156 | a guest that jumps to its own address: the interpreter takes the step, the plain loop throws |
| Guests.TwoStops | main.cc:233-243 | a guest of two instructions that is tame, stopped by its second, and transfers no control |
| Guests.RunTwo | main.cc:238-243 | given two dispatches of two blocks, the translator stops this guest in the state after its second instruction, whatever the thresholds and the mode |
| Simulator.Simulate | main.cc:222-243 | the same for the whole program from its start, for all thresholds and modes of augmentation, with no invariant left to assume; it dies only on a word without translation, or with augmentation in addSuccessor right after a transfer of control |
| Simulator.BothModes | main.cc:233-243 | if the translator stops the guest after n instructions and max_icnt leaves room for them, the plain loop ends in the same state if none of them transfers control, and throws if one does; where both stop the guest, the states are the same |
| Guests.SpinIsTame | main.cc:238-243 | a tame guest that does not stop |
| Guests.OneCallIsTame | riscvInstruction.cc:876-913 | a guest with a linking jalr that compiled code would get wrong is tame if it is executed once |
| Guests.FenceKills | compile.cc:9-40 | a fence passes the filter of the compiler and has no class, so bindInsns asserts |
| Guests.NopKills | compile.cc:9-40 | addi x0, x0, 0 passes the filter and has a class, and insertPhis asserts that nothing defines x0 |
| Dispatcher.StepShape | interpret.cc:127-544 | where a step can go and whether it stops the machine follow from the instruction word |
| Augmentation.AugDfs | regionCFG.cc:141-195 | every block added lies on a route to the target, within the depth bound and the blocks visited, that passes returns, indirect calls and system calls only in blocks with a call; nothing is added where none is found; while the bound does not cut it, the search has gone on from every block without jr, jalr, jal and monitor, and from those with a call that has the target, itself or a block seen before for a successor; and it passes no block with a call that has none of these for a successor |
| Augmentation.NoneMissed | regionCFG.cc:141-195 | a search that found nothing and was not cut leaves no route through blocks where it goes on |
| Augmentation.FindPaths | regionCFG.cc:608-611 | from a fresh start: what is visited lies on routes from one block to the other and was passed in some order in which each block with a call has the target, itself or an earlier block for a successor; with at most 1024 blocks a route is found wherever one leads through blocks where the search goes on |
| Augmentation.RootedMore | regionCFG.cc:612-615 | blocks on routes between blocks of a region are reached from the head and go on inside the region |
| Augmentation.AugmentHead | regionCFG.cc:607-617 | mode head: routes from the head, one to every block to which an open one leads |
| Augmentation.AugmentPairs | regionCFG.cc:619-650 | modes aggressive and insane: routes between pairs of blocks, one for each pair of traced blocks that an open one connects |
| Augmentation.Augment | regionCFG.cc:602-659 | the blocks added lie on routes between pairs that the mode looks at, each is reached from the head and goes on, and mode none adds nothing |
| RegionBuilder.GatherBlocks | regionCFG.cc:566-659 | one head for all traces, and the blocks of the region: those of the traces and of the augmentation |
| RegionBuilder.TracedRooted | regionCFG.cc:566-574 | the blocks of closed walks from the head are reached from it, go on, and come back to it |
| RegionBuilder.Toposort | basicBlock.cc:751-764 | each block listed but the head has a predecessor listed before it or still open |
| RegionBuilder.Order | basicBlock.cc:766-769 | the order starts with the head, lists every block of the region once, and each other block after some predecessor |
| RegionBuilder.HandOn | regionCFG.cc:672-677 | exactly the successors gain: each its weight times the probability of the block |
| RegionBuilder.WeightIs | basicBlock.hh:109-115 | the weight of an edge is the fraction of the block's executions that took it, and 0 for a block that has never run |
| RegionBuilder.HeadProbability | regionCFG.cc:666-679 | neither lookup throws; the blocks have probability 1 for the head and otherwise what those before them in the order hand on, and the result is what flows back to the head |
| RegionBuilder.BuildGraph | regionCFG.cc:699-726 | the arcs are exactly the successor edges inside the region, and the self loop of a region of one block |
| RegionBuilder.PrependEntry | regionCFG.cc:800-803 | the entry has the head as only successor and no predecessor |
| RegionBuilder.AllBlocksReachable | regionCFG.cc:518-553 | true exactly if there is a path from the root to every block |
| RegionBuilder.AllReached | regionCFG.cc:781-783 | every block of a region, traced or added, is reachable from the head, so this call of die() cannot fire |
| RegionBuilder.TracesOk | regionCFG.cc:566-586 | all traces of a head start with it, so there is one head and no empty trace |
| RegionBuilder.BindInsns | cfgBasicBlock.cc:346-360 | the decoded instructions, and none exactly if getInsn has no class for some word |
| RegionBuilder.DefinesZero | regionCFG.cc:1003-1005 | the assertion fails exactly if some instruction has x0 for its destination |
| RegionBuilder.BoundInsn | riscvInstruction.cc:285-364 | a word that the interpreter executes can be translated if and only if getInsn has a class for it and it does not define x0 |
| RegionBuilder.DecodeRegion | regionCFG.cc:730-736 | the two assertions together let a region pass if and only if all its instructions have a translation |
| RegionBuilder.PlausibleSuccessors | cfgBasicBlock.cc:95-120 | true exactly if every successor is the taken or not-taken address of the branch |
| RegionBuilder.AllPlausible | regionCFG.cc:772-777 | the check succeeds for every block of a region, traced or added |
| RegionBuilder.RegionOk | regionCFG.cc:555-798 | a region of finished blocks, all reached from its head and going on inside it, has every property the translation needs |
| RegionBuilder.RegionFalls | regionCFG.cc:709-716 | a block of a region that does not end in a transfer has what follows it for a successor |
| RegionBuilder.BuildCFG | regionCFG.cc:555-803 | fails exactly if the region contains an instruction without translation, and otherwise gives a well-formed region with exactly the blocks of the traces and those of the augmentation |
| Crc.UpdateCrc | helper.cc:89-101 | the state after n bytes is the remainder of the polynomial division by x^32 + 0x1edc6f41 of the bytes, lowest bits first, 32 places up, plus the starting state |
| Crc.BitRemainder | helper.cc:96-98 | one inner step is one step of the division |
| Crc.DivisorIs | helper.cc:91-91 | the constant has the bits of that polynomial without its leading term |
| Polynomials.OneDivision | helper.cc:89-101 | division by a polynomial has one quotient and one remainder |
| CrcNumbers.BitNumber | helper.cc:96-98 | one inner step takes the number x to x / 2, xored with 0x82f63b78 exactly if x is odd |
| CrcNumbers.CheckValue | helper.cc:89-101 | the check value of CRC-32C: "123456789", divided from a state of ones and complemented, leaves 0xe3069283, whatever computes the remainder |
| Crc.BitInverse | helper.cc:96-98 | the inner step is a bijection on 32-bit words |
| Crc.UpdateBijective | helper.cc:89-101 | for fixed bytes of any number, the update is a bijection on the state |
| Crc.AddrInjective | helper.cc:89-101 | from a fixed state, different addresses give different states |
| Crc.TraceKey | basicBlock.cc:421-426 | the key is the complement of the remainder that the entry addresses of the trace leave, divided from a state of ones |
| Crc.KeysDiffer | basicBlock.cc:421-434 | traces of equal length that differ in exactly one block have different keys |
| TraceKeys.NearAddressesDiffer | basicBlock.cc:421-426 | the same for the numeric keys of traces given by their entry addresses |
| TraceKeys.NearTraceKept | basicBlock.cc:421-434 | a trace that differs from each recorded trace of its head in exactly one block is recorded beside them |

## Left out

- LLVM itself (module building, verifier, optimisation, machine code), capstone, libunwind, bfd symbols, perfmap, options, reports
  and dumps: foreign code and output. SSA values stand for LLVM values.
- System calls, the tohost poll (`interpret.cc:102-106`), ELF loading, state files and simulation points: input and output.
- Floating-point registers, the fcr table and fprTouched: no RISC-V instruction reaches them.
- splitBBs and repairBrokenEdges: off by default, and written for branch delay slots.
- findLeafNodeFunc and findFuncWithInline: nothing calls them.
- Loop nesting depth and perfect nests: isNestedLoop (`regionCFG.hh:302-306`) tests dominance the other way round than its comment
  says.
- The order in which aug_dfs tries successors, by execution counts (`regionCFG.cc:131-137`, `186`), and the order of sets of block
  pointers: they are arbitrary, and what is proved holds for every order.
- The option that turns the instruction count off, and the recorder's profile mode.
- dropAllBBs, inscnt, insInBBCnt, the dump at an instruction count and sanityCheck: not read by any decision of the modelled parts;
  what sanityCheck looks for is part of the invariant of the block store.
- The x0 assertion of `insertPhis` is checked right after `bindInsns` has passed: what is between them has no effect that outlives it.
- Interpretation is undefined, and so is not compared, for a zero divisor, for the most negative value divided by -1, and for words that
  do not decode.
- The guest does not write into code it executes; see `CompiledCode.Tame` for this and the other conditions on guests.
- Simulator.Simulate: the number of dispatches, and of blocks that compiled code runs in one dispatch, is bounded by parameters, since
  a guest need not stop; a guest that does is stopped once both bounds reach its number of instructions, and before that a run that
  ends inside compiled code is where the interpreter is.
- The allocator: the objects that `new basicBlock` returns are parameters, new and different from each other.
- The key of a trace in the block store is any function of its blocks; `TraceKeys` is about the CRC as that function.
- Memory addresses of multi-byte accesses do not wrap at 2^32, as the original adds them to a 64-bit base pointer.
- Blocks of the store are values that maps lead to fields from, grouped in records, not heap objects; aliasing between blocks and
  deallocation are not captured. Sets ordered by entry address are plain sets: entry addresses are proved unique.
