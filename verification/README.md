# A verified model of the TOYRISCV backend and of target triples

This project models, in Dafny, two parts of the repository that carry its hardest logic, and proves what they are for.

**The TOYRISCV code generator.** Selects and conditional branches are lowered from ten condition codes to six
(`CondLowering.dfy`). Select pseudo-instructions are then expanded, in place, into a Head / IfFalse / Tail triangle with
PHIs: `MachineFunction.dfy` does it on a mutable machine function, as the compiler does, and is proved equal to the
specification in `SelectExpansion.dfy`; `SelectSimulation.dfy`, `ExpansionPreserves.dfy` and `SelectRuns.dfy` prove that
every run of the whole function is preserved, `ExpansionWellFormed.dfy`, `Conservation.dfy`, `Dominance.dfy` and
`SsaPreserved.dfy` that the result is well formed, loses nothing and stays in SSA form, `SelectExtent.dfy` which
instructions are gathered and where each one goes, and `FinalizeISel.dfy` that repeating the expansion in any order ends,
leaves no select and still preserves every run, finite or not. Below that are the selection patterns
(`InstructionSelection.dfy`), the splitting of constants and symbol addresses into upper and lower parts
(`Immediates.dfy`, `SymbolAddresses.dfy`) and the bit layouts of the six instruction formats (`Encoding.dfy`). The
standard is the RISC-V Instruction Set Manual, Volume I, version 20191213: sections 2.2 to 2.5 and 5.2, and chapter 24.

**Target triples.** `Triple::normalize` moves the components of a string to canonical positions with three levels of
loops. `TripleComponents.dfy` and `TripleSearch.dfy` specify the moves and the rounds of the search for any parsers that
accept no empty component; `TripleParsing.dfy` and `TripleNames.dfy` hold the tables and prove that of them;
`TripleGaps.dfy` proves that a description of the moves by length, order and empty slots leaves just one result;
`TripleNormalize.dfy` and `TripleSpecialCases.dfy` do the work in place; `TripleAgreement.dfy` proves that the
enumerations agree with the components, `TripleShapes.dfy` and `TripleIdempotence.dfy` exactly when a second pass changes
nothing, and `TripleMeaning.dfy` what the normal form parses to. `TripleFields.dfy`, `TripleTables.dfy` and
`TripleClass.dfy` model the class with its string, its enumerations and its mutators, and `DarwinVersions.dfy` its version
queries.

How the model reads the source:

- Machine code is blocks over virtual registers in SSA form (`CfgOk`, `SsaOk` say what that means). An ordinary
  instruction has any meaning that depends on its opcode, its operands and the rest of the world; debug instructions
  have none. The word comparisons are a parameter too; `Conditions.dfy` and `CondLowering.RV32IsLawful` give those of RV32.
- `MachineFunction.EmitSelectPseudo` keeps the block and puts its two new blocks after it. When a block is its own
  successor its PHIs name the tail afterwards, and the proof covers that case.
- A first select that reads its own destination stops the scan before it has gathered even itself; it is then expanded
  alone, without moving its debug values. The model does the same.
- `InstructionSelection.dfy` and `Immediates.dfy` use integers with explicit wrap-around; `Encoding.dfy` uses bit-vectors.
  `TOYRISCVInstrFormats.td:137` comments out the opcode bits of the B format, which the base class sets.
- `translateSetCCForBranch` compares with -1, 1 and 0 only, so its proof needs just that no word lies between those.
- A block that ends in a call that never returns has no terminator and no successor; in the model, where control must
  not run off a block (`WellFormedness.EdgesOk`), such a call is followed by a `Return`.
- `simm20u` (`TOYRISCVInstrInfo.td:33`) accepts 32-bit numbers with twelve zeros below, but HI20 and %hi produce the
  upper twenty bits alone, as the field holds them; `Encoding.Valid` follows the latter.
- In the triple parsers, the ARM architecture parser and the sub-architecture of an architecture name are parameters.
  Proofs about lists take any parsers that have the properties named in `TripleParsing.Silent` and `TripleNames.Known`;
  `TripleNames.TablesAreKnown` proves those of the tables.
- The object format can be that of a component that has since moved (`TripleAgreement.FormatIsOriginal`); the comment at
  `Triple.cpp:1011` speaks of architecture, vendor and system only, and those do agree.
- Versions are triples of numbers parsed elsewhere; a missing component is zero.

Results that came out differently from what one might expect, each with its exact condition: on RV64 the LUI/ADDI pair is
wrong for the top 2^11 constants (`Immediates.MaterialisesOnRV64`); `normalize` is not idempotent for Android versions
that begin with "eabi" (`TripleIdempotence.NormalizeTwice`, `EabiIsDroppedTwice`); `isOSVersionLT` ignores a micro number
after minor 0, and a macOS query can disagree with the mapped version (`DarwinVersions.QueryAgrees`, `MacQueryAgrees`);
the three-string constructor overlooks what follows a dash in its system string (`TripleClass.ThreeStringsAgree`,
`EnvironmentOverlooked`).

Check it with `dafny verify dfyconfig.toml`.

## Model

| member | source | states |
|---|---|---|
| MachineFunctionClass.MachineFunction.EmitSelectPseudo | llvm/lib/Target/TOYRISCV/TOYRISCVISelLowering.cpp:256-376 | expanding in place at a select turns the whole function - layout, code, edges, numbering - into exactly its expansion, and returns the tail |
| MachineFunctionClass.MachineFunction.ScanSelects | llvm/lib/Target/TOYRISCV/TOYRISCVISelLowering.cpp:287-316 | the scan loop returns the last select gathered, the debug values collected and, as a ghost, the destinations gathered |
| MachineFunctionClass.MachineFunction.CollectDebugValues | llvm/lib/Target/TOYRISCV/TOYRISCVISelLowering.cpp:305-305 | the debug values of a select are those of its destination in the unbroken row of debug values after it |
| MachineFunctionClass.MachineFunction.TransferSuccessorsAndUpdatePhis | llvm/lib/Target/TOYRISCV/TOYRISCVISelLowering.cpp:339-341 | every outgoing edge moves to the tail, and the PHIs at the other ends, the block's own included, name the tail |
| MachineFunctionClass.MachineFunction.InsertTriangle | llvm/lib/Target/TOYRISCV/TOYRISCVISelLowering.cpp:318-329 | two fresh blocks are laid out right after the block, IfFalse first |
| MachineFunctionClass.MachineFunction.SplitBlock | llvm/lib/Target/TOYRISCV/TOYRISCVISelLowering.cpp:331-338 | moved debug values first, then what follows the run, go to the tail; the rest stays |
| MachineFunctionClass.MachineFunction.MakeTriangle | llvm/lib/Target/TOYRISCV/TOYRISCVISelLowering.cpp:318-353 | blocks, spliced code and edges of the triangle before selects are replaced, for the whole function |
| MachineFunctionClass.MachineFunction.ReplaceSelects | llvm/lib/Target/TOYRISCV/TOYRISCVISelLowering.cpp:346-375 | the head gets the branch, loses its selects, and the tail starts with one PHI for each |
| MachineFunctionClass.MachineFunction.CreatePhis | llvm/lib/Target/TOYRISCV/TOYRISCVISelLowering.cpp:355-372 | each select of the run is erased and makes one PHI, in order |
| SelectSimulation.GatheredUnstopped | llvm/lib/Target/TOYRISCV/TOYRISCVISelLowering.cpp:293-316 | the scan let everything up to the last gathered select pass, and no PHI or terminator is among it; `SelectExtent.RunExtent` says in fields what it lets pass |
| SelectExtent.RunExtent | llvm/lib/Target/TOYRISCV/TOYRISCVISelLowering.cpp:279-316 | told from instruction fields alone: a later select is gathered if and only if every instruction from the first up to it may stand in the run - debug instructions; others without side effect or memory access that read no result of the run; selects of the same condition that choose no result of the run - and the first does not choose its own result |
| SelectExtent.RunIsHarmless | llvm/lib/Target/TOYRISCV/TOYRISCVISelLowering.cpp:293-316 | every instruction of the run is such: no side effect, no access to memory, one condition |
| SelectExtent.MovedExactly | llvm/lib/Target/TOYRISCV/TOYRISCVISelLowering.cpp:296-306 | the debug values that move are exactly those of the gathered selects' results in the unbroken row after each, in the order in which they stand; none if the first select chooses its own result |
| SelectExtent.HeadPositions | llvm/lib/Target/TOYRISCV/TOYRISCVISelLowering.cpp:331-350 | the head is the instructions before the run and those in it that are neither selects nor moved, debug instructions included, each once and in order, and then the branch |
| SelectExtent.TailPositions | llvm/lib/Target/TOYRISCV/TOYRISCVISelLowering.cpp:331-338 | the tail, after its PHIs, is the moved debug values and then every other instruction after the run, each once and in order |
| SelectExtent.OthersExactly | llvm/lib/Target/TOYRISCV/TOYRISCVISelLowering.cpp:326-341 | every other block keeps its instructions but for the source that PHIs of the old successors name, and IfFalse is empty |
| SelectExtent.PiecesExactly | llvm/lib/Target/TOYRISCV/TOYRISCVISelLowering.cpp:331-372 | the expanded block and the tail hold those pieces, the PHIs of the block renamed only if it was its own successor |
| SelectSimulation.ConditionKept | llvm/lib/Target/TOYRISCV/TOYRISCVISelLowering.cpp:298-314 | the operands of the shared condition are no destination of the run |
| SelectSimulation.RunSim | llvm/lib/Target/TOYRISCV/TOYRISCVISelLowering.cpp:287-316 | running the run in place, select by select, equals running everything else and then all selects at once on the final registers |
| ExpansionPreserves.EnterRunPhis | llvm/lib/Target/TOYRISCV/TOYRISCVISelLowering.cpp:355-372 | entering the tail, its PHIs read in parallel give the selects' values for the edge taken |
| ExpansionPreserves.HeadBlock | llvm/lib/Target/TOYRISCV/TOYRISCVISelLowering.cpp:331-350 | the head does the run without its selects and goes to the tail exactly when the condition holds |
| ExpansionPreserves.TailBlock | llvm/lib/Target/TOYRISCV/TOYRISCVISelLowering.cpp:331-372 | the tail, entered from the head or from IfFalse, does the selects and then the rest of the block |
| ExpansionPreserves.EnterRenamed | llvm/lib/Target/TOYRISCV/TOYRISCVISelLowering.cpp:339-341 | PHIs that name the tail read on its edge what they read on the block's edge |
| SelectRuns.StepOther | llvm/lib/Target/TOYRISCV/TOYRISCVISelLowering.cpp:339-341 | any other block does what it did, the tail standing for the block it came from |
| SelectRuns.StepSelf | llvm/lib/Target/TOYRISCV/TOYRISCVISelLowering.cpp:318-372 | the expanded block, its own successor or not, reaches the same state and successor in one to three steps |
| SelectRuns.ExpansionPreservesRuns | llvm/lib/Target/TOYRISCV/TOYRISCVISelLowering.cpp:256-376 | from every block, registers and world, the old function reaches a configuration if and only if the new one reaches it, rerouted through the tail |
| Conservation.SelectsDecrease | llvm/lib/Target/TOYRISCV/TOYRISCVISelLowering.cpp:355-372 | every expansion leaves fewer selects, by exactly the number gathered |
| Conservation.DefinitionsConserved | llvm/lib/Target/TOYRISCV/TOYRISCVISelLowering.cpp:331-372 | no register gains or loses a definition |
| Conservation.OrderKept | llvm/lib/Target/TOYRISCV/TOYRISCVISelLowering.cpp:331-372 | apart from debug instructions and gathered selects, head and tail hold the block's instructions, each once and in order |
| Conservation.PhisInOrder | llvm/lib/Target/TOYRISCV/TOYRISCVISelLowering.cpp:355-372 | each gathered select becomes exactly one PHI, in order |
| ExpansionWellFormed.ExpansionKeepsCfg | llvm/lib/Target/TOYRISCV/TOYRISCVISelLowering.cpp:318-375 | the result is well formed: recorded edges are where control can go, PHI sources are exactly the predecessors, PHIs first, terminators last, definitions before uses |
| ExpansionWellFormed.PredsMoved | llvm/lib/Target/TOYRISCV/TOYRISCVISelLowering.cpp:339-341 | the predecessors of every old block are the old ones with the tail in place of the expanded block |
| Dominance.DominatesKept | llvm/lib/Target/TOYRISCV/TOYRISCVISelLowering.cpp:318-353 | dominance is kept; what the expanded block dominated, the tail dominates too |
| Dominance.HeadCovered | llvm/lib/Target/TOYRISCV/TOYRISCVISelLowering.cpp:308-314 | every use left in the head, the branch's included, follows its definition |
| SsaPreserved.TailCovered | llvm/lib/Target/TOYRISCV/TOYRISCVISelLowering.cpp:331-372 | every use in the tail follows a definition there or in the head or from outside |
| SsaPreserved.ChoicesKept | llvm/lib/Target/TOYRISCV/TOYRISCVISelLowering.cpp:298-303 | what a gathered select chooses between is no result of the run |
| SsaPreserved.ExpansionKeepsSsa | llvm/lib/Target/TOYRISCV/TOYRISCVISelLowering.cpp:256-376 | one definition for each register, dominating every use and every PHI source, holds of the expansion if it held before |
| FinalizeISel.EmitInstrWithCustomInserter | llvm/lib/Target/TOYRISCV/TOYRISCVISelLowering.cpp:378-387 | the inserter hook expands a select and is called for nothing else |
| FinalizeISel.TrailsAreBounded | llvm/lib/Target/TOYRISCV/TOYRISCVISelLowering.cpp:378-387 | no order of expanding takes more steps than there are selects |
| FinalizeISel.ExpandSelects | llvm/lib/Target/TOYRISCV/TOYRISCVISelLowering.cpp:378-387 | expanding selects in any order, those left in a tail included, ends with none left, in SSA form |
| FinalizeISel.ExpandAllKeepsSsa | llvm/lib/Target/TOYRISCV/TOYRISCVISelLowering.cpp:256-387 | any number of expansions keep SSA form |
| FinalizeISel.ExpandAllPreservesRuns | llvm/lib/Target/TOYRISCV/TOYRISCVISelLowering.cpp:256-387 | for every well-formed function and any number of expansions in any order: a configuration reaches another exactly when it does so afterwards, both rerouted through the tails; runs that never end and runs that start anywhere included |
| FinalizeISel.ExpandAllPreserves | llvm/lib/Target/TOYRISCV/TOYRISCVISelLowering.cpp:256-387 | the corollary for whole runs: after any number of expansions a function whose entry has no predecessor finishes from each state exactly when it did, in the same state |
| Conditions.BrCondTaken | llvm/lib/Target/TOYRISCV/TOYRISCVInstrInfo.cpp:45-61 | the branch picked for a condition code is taken exactly when the condition holds |
| CondLowering.RV32IsLawful | llvm/lib/Target/TOYRISCV/TOYRISCVISelLowering.cpp:85-112 | 32-bit wrapping arithmetic and its two orders satisfy what the lowering relies on |
| CondLowering.CodesAgree | llvm/lib/Target/TOYRISCV/TOYRISCVISelDagToDag.h:24-41 | condition code, branch and branch pattern all decide as the DAG comparison, for each of the six codes |
| CondLowering.TranslateSetCCForBranch | llvm/lib/Target/TOYRISCV/TOYRISCVISelLowering.cpp:85-112 | the in-place rewrite returns the translated comparison |
| CondLowering.TranslationHolds | llvm/lib/Target/TOYRISCV/TOYRISCVISelLowering.cpp:85-112 | for all ten codes and all operands the translated comparison decides as the original and has one of the six codes |
| CondLowering.TranslationIsMinimal | llvm/lib/Target/TOYRISCV/TOYRISCVISelLowering.cpp:85-112 | a comparison a branch can make is left alone but for one with 1; one with -1 is made one with 0, and the others swap their operands |
| CondLowering.SelectPreserved | llvm/lib/Target/TOYRISCV/TOYRISCVISelLowering.cpp:182-245 | a lowered select has the value of the select, through the constant cases too, with one of the six codes or no comparison |
| CondLowering.LoweredShape | llvm/lib/Target/TOYRISCV/TOYRISCVISelLowering.cpp:182-245 | exactly which selects need no comparison, and what the comparison of the others keeps |
| CondLowering.SelectPseudoComputes | llvm/lib/Target/TOYRISCV/TOYRISCVInstrInfo.td:253-275 | the select pseudo-instruction of a lowered select computes the select |
| CondLowering.BrCondPreserved | llvm/lib/Target/TOYRISCV/TOYRISCVISelLowering.cpp:389-410 | the selected branch is taken exactly when the condition is non-zero |
| InstructionSelection.SelectionComputes | llvm/lib/Target/TOYRISCV/TOYRISCVInstrInfo.td:289-319 | every legal choice of patterns for a tree, with the immediate on either side of add, and, or and xor, gives code that computes the tree's value and disturbs no register in use |
| InstructionSelection.RV32BitwiseIsLawful | llvm/lib/Target/TOYRISCV/TOYRISCVInstrInfo.td:291-313 | and, or and xor of 32-bit words satisfy what the commuted patterns rely on |
| InstructionSelection.SomeChoiceMatches | llvm/lib/Target/TOYRISCV/TOYRISCVInstrInfo.td:289-319 | the patterns cover every tree |
| InstructionSelection.RegImmComputes | llvm/lib/Target/TOYRISCV/TOYRISCVInstrInfo.td:291-313 | the immediate patterns compute their node, sign-extended immediates under unsigned comparison included |
| InstructionSelection.RegRegComputes | llvm/lib/Target/TOYRISCV/TOYRISCVInstrInfo.td:289-312 | the register patterns compute their node wherever it has a value |
| InstructionSelection.ImmediatePatterns | llvm/lib/Target/TOYRISCV/TOYRISCVInstrInfo.td:291-313 | which instruction takes a constant of 12 bits, for each of the six operations on the right and of the four on the left |
| InstructionSelection.RegisterPatterns | llvm/lib/Target/TOYRISCV/TOYRISCVInstrInfo.td:289-312 | the register pattern of each arithmetic and bitwise operation |
| InstructionSelection.ShiftAndComparePatterns | llvm/lib/Target/TOYRISCV/TOYRISCVInstrInfo.td:289-312 | the register pattern of each shift and comparison |
| InstructionSelection.ConstantPatterns | llvm/lib/Target/TOYRISCV/TOYRISCVInstrInfo.td:316-319 | a constant is added to zero if and only if it has 12 bits, and can always be made of two parts |
| InstructionSelection.EmittedFits | llvm/lib/Target/TOYRISCV/TOYRISCVInstrInfo.td:30-36 | only instructions whose immediates fit their fields are emitted |
| Immediates.Rebuilds | llvm/lib/Target/TOYRISCV/TOYRISCVInstrInfo.td:47-60 | HI20 and LO12Sext are in range and make up the value modulo 2^32 |
| Immediates.MaterialisesOnRV32 | llvm/lib/Target/TOYRISCV/TOYRISCVInstrInfo.td:316-319 | LUI and ADDI yield every 32-bit constant on RV32 |
| Immediates.MaterialisesOnRV64 | llvm/lib/Target/TOYRISCV/TOYRISCVInstrInfo.td:316-319 | on RV64 they yield a simm32 constant if and only if it is at most 2^31 - 2^11 - 1 |
| Immediates.EvaluateAsConstant | llvm/lib/Target/TOYRISCV/MCTargetDesc/TOYRISCVMCExpr.cpp:184-213 | which kinds give a value, which give none, and exactly when evaluation has no defined result |
| Immediates.HiLoRecombine | llvm/lib/Target/TOYRISCV/MCTargetDesc/TOYRISCVMCExpr.cpp:204-213 | %hi and %lo agree with HI20 and LO12Sext and recombine modulo 2^32 wherever rounding does not overflow |
| SymbolAddresses.LowerSymbolOperand | llvm/lib/Target/TOYRISCV/TOYRISCVMCInstLower.cpp:28-66 | symbol, then offset if not zero, then modifier if any |
| SymbolAddresses.LowerOperands | llvm/lib/Target/TOYRISCV/TOYRISCVMCInstLower.cpp:68-97 | each explicit operand is lowered, in its place: a register keeps its number, an immediate its value, a block becomes a reference to it and a global address symbol, offset and the modifier its flag names; implicit registers are left out; an unknown kind is an error |
| SymbolAddresses.LoweredValue | llvm/lib/Target/TOYRISCV/TOYRISCVMCInstLower.cpp:53-66 | a lowered global address has the value of symbol plus offset under the modifier of its flag |
| SymbolAddresses.GlobalAddressValue | llvm/lib/Target/TOYRISCV/TOYRISCVISelLowering.cpp:120-180 | the small-model sequence, with the offset as a separate ADD, computes symbol plus offset on RV32 |
| SymbolAddresses.AddOnlyForOffset | llvm/lib/Target/TOYRISCV/TOYRISCVISelLowering.cpp:171-179 | an ADD is made exactly for an offset that is not zero |
| SymbolAddresses.FoldedOffset | llvm/lib/Target/TOYRISCV/TOYRISCVISelLowering.cpp:140-149 | with the offset folded into both symbol operands it computes the same sum |
| SymbolAddresses.FoldingAgrees | llvm/lib/Target/TOYRISCV/TOYRISCVISelLowering.cpp:171-179 | folding the offset makes no difference |
| Encoding.RoundTrip | llvm/lib/Target/TOYRISCV/TOYRISCVInstrFormats.td:76-166 | decoding an encoded instruction by the manual's fields gives it back, for all 34 instructions and all operands, even offsets of branches and jumps included |
| Encoding.DecodeIsExact | llvm/lib/Target/TOYRISCV/TOYRISCVInstrFormats.td:76-166 | a word that decodes is the encoding of what it decodes to, with operands in range |
| Encoding.EncodeIsManual | llvm/lib/Target/TOYRISCV/TOYRISCVInstrFormats.td:24-166 | with the manual's opcodes, function codes and bit positions written out: a word encodes a valid instruction if and only if its bits are the instruction's |
| Encoding.DecodeIsManual | llvm/lib/Target/TOYRISCV/TOYRISCVInstrFormats.td:24-166 | a word decodes to an instruction if and only if its bits are the instruction's |
| Encoding.NoSharedWord | llvm/lib/Target/TOYRISCV/TOYRISCVInstrInfo.td:92-138 | different instructions have different words |
| Encoding.HoldsB | llvm/lib/Target/TOYRISCV/TOYRISCVInstrFormats.td:123-139 | the scattered B immediate is the branch offset |
| Encoding.HoldsJ | llvm/lib/Target/TOYRISCV/TOYRISCVInstrFormats.td:153-166 | the scattered J immediate is the jump offset |
| Encoding.HoldsS | llvm/lib/Target/TOYRISCV/TOYRISCVInstrFormats.td:107-121 | the split S immediate is the store offset |
| TripleStrings.SplitJoin | llvm/lib/Support/Triple.cpp:873-875 | splitting a joined list of dash-free components gives it back |
| TripleStrings.JoinSplit | llvm/lib/Support/Triple.cpp:1054-1055 | joining the components of a string gives it back |
| TripleStrings.SplitBoth | llvm/lib/Support/Triple.cpp:873-875 | joining two strings with a dash puts their components in a row |
| TripleParsing.NothingMeansUnknown | llvm/lib/Support/Triple.cpp:418-600 | no parser takes an empty component or "unknown" |
| TripleComponents.RippleConserves | llvm/lib/Support/Triple.cpp:958-967 | pushing components right loses and invents none |
| TripleComponents.InsertedLeft | llvm/lib/Support/Triple.cpp:952-967 | inserting left puts the component in place, moves nothing fixed, keeps the order of the rest, and stays within the list |
| TripleComponents.PushedRight | llvm/lib/Support/Triple.cpp:968-998 | pushing right puts the component in place, moves nothing fixed, keeps the order of the rest, and empties what it passes; `TripleGaps.MoveIsExact` adds the length and the empty slots |
| TripleGaps.RippleGaps | llvm/lib/Support/Triple.cpp:972-993 | one pass of pushing closes the first empty free slot from where it starts and leaves those after it; only without one does the list grow, by one component that is not empty |
| TripleGaps.PushGaps | llvm/lib/Support/Triple.cpp:968-998 | a push closes as many empty free slots as there are free positions to pass, the first ones first, and makes the list longer by as many as are missing |
| TripleGaps.MoveIsExact | llvm/lib/Support/Triple.cpp:952-1000 | a list is what a move makes if and only if it fits the description: the component in place, fixed ones and what is left of both positions untouched, nothing loose left between, the rest in order, and the length and the empty slots as counted |
| TripleGaps.MovedToIsUnique | llvm/lib/Support/Triple.cpp:952-1000 | only one list fits that description |
| TripleComponents.NextNotPast | llvm/lib/Support/Triple.cpp:994-997 | pushing right never steps past the target position |
| TripleSearch.RoundsSearched | llvm/lib/Support/Triple.cpp:912-1004 | after every round: what is found fits; what was found by search had nothing fitting to its left; what was not found fits nothing left over |
| TripleSearch.RoundsKeep | llvm/lib/Support/Triple.cpp:912-1004 | the multiset of non-empty components is unchanged, fixed components never move, never-fixed ones keep their order |
| TripleSearch.CanonicalIsFixpoint | llvm/lib/Support/Triple.cpp:903-1009 | a second pass moves nothing and finds the same positions, for every list |
| TripleGaps.PlaceIsExact | llvm/lib/Support/Triple.cpp:912-1003 | a round does to the list exactly what is described: the first free component that fits, if any, moves to the position |
| TripleGaps.SearchIsUnique | llvm/lib/Support/Triple.cpp:903-1004 | any sequence of lists whose rounds are as described ends where the search ends |
| TripleGaps.SearchExists | llvm/lib/Support/Triple.cpp:903-1004 | every list has such a sequence |
| TripleShapes.ShapedIsFixpoint | llvm/lib/Support/Triple.cpp:903-1052 | a searched list in which components were replaced by a system, an environment or an object format, as the special cases do, is left as it is by a second search, which finds the same positions |
| TripleNormalize.RulesAreSound | llvm/lib/Support/Triple.cpp:934-950 | the tables satisfy what the permutation needs of the parsers |
| TripleNormalize.FoundInPlace | llvm/lib/Support/Triple.cpp:877-901 | what is found before anything moves is what has a known enumeration at its own position |
| TripleNormalize.InsertComponentLeft | llvm/lib/Support/Triple.cpp:957-967 | the insert-left loop ends at the emptied slot at the latest and computes the insertion |
| TripleNormalize.InsertEmptyComponent | llvm/lib/Support/Triple.cpp:972-993 | one round of the push-right loop, appending what is pushed off the end |
| TripleNormalize.PushComponentRight | llvm/lib/Support/Triple.cpp:968-998 | the push-right loop ends and reaches exactly the target |
| TripleNormalize.TryComponent | llvm/lib/Support/Triple.cpp:926-950 | one attempt parses the component and says whether it is valid |
| TripleNormalize.FindComponent | llvm/lib/Support/Triple.cpp:916-950 | the attempts for one position stop at the first component that fits, having parsed just those up to it |
| TripleNormalize.MoveComponent | llvm/lib/Support/Triple.cpp:952-1000 | the component is moved left or right to its position, and the assertion on it holds |
| TripleNormalize.PlaceComponent | llvm/lib/Support/Triple.cpp:916-1003 | the loop over components for one position that is not settled computes one round of the search |
| TripleNormalize.Permute | llvm/lib/Support/Triple.cpp:877-1004 | all loops end, all indices are in bounds, and the result is that of four rounds |
| TripleAgreement.SearchAgrees | llvm/lib/Support/Triple.cpp:1011-1012 | architecture, vendor, system, environment and flags agree with the components at their positions; the object format where the environment is unknown |
| TripleAgreement.SearchFinds | llvm/lib/Support/Triple.cpp:897-1004 | a found position exists and parses as such; for one not found no component left over parses as such |
| TripleAgreement.FormatIsOriginal | llvm/lib/Support/Triple.cpp:892-895 | with an environment in place from the start, the object format is that of the fifth component as given, wherever it has moved since |
| TripleAgreement.FormatIs | llvm/lib/Support/Triple.cpp:892-950 | the object format in every case: of the component found in the last round if that is no environment, unknown if any was tried before one that is, and otherwise of the fifth component as given |
| TripleSpecialCases.SpecialIsSafe | llvm/lib/Support/Triple.cpp:1014-1026 | an environment implies a fourth component, so the special cases read and write existing components |
| TripleSpecialCases.FillUnknown | llvm/lib/Support/Triple.cpp:1006-1009 | empty components become "unknown" |
| TripleSpecialCases.ApplySpecialCases | llvm/lib/Support/Triple.cpp:1013-1052 | the special cases, step by step, compute their specification |
| TripleSpecialCases.Normalize | llvm/lib/Support/Triple.cpp:869-1056 | the whole function, for every string |
| TripleSpecialCases.NoEmptyComponent | llvm/lib/Support/Triple.cpp:1006-1055 | no component of the result is empty |
| TripleMeaning.NormalMeaning | llvm/lib/Support/Triple.cpp:869-1056 | for every string, parsing its normal form gives the architecture and vendor that normalization found, the system, which is Windows for MinGW and Cygwin, and the environment: the one found, GNUEABIHF for SUSE's GNUEABI, MSVC, GNU or Cygnus where Windows has none, or the mips rule's where the form is only an architecture |
| TripleMeaning.NormalFromSearch | llvm/lib/Support/Triple.cpp:1006-1055 | the normal form has one component for each of the searched list, "unknown" for each empty one; on Windows four, or five with an object format, with the spellings that are written |
| TripleMeaning.NormalFourth | llvm/lib/Support/Triple.cpp:1014-1026 | the fourth component: "androideabi" before any version becomes "android", SUSE's "gnueabi" becomes "gnueabihf", and any other stays |
| TripleMeaning.SearchEmpties | llvm/lib/Support/Triple.cpp:903-1009 | in the searched list as many components are empty as in the given one and as it has grown by |
| TripleMeaning.VendorForgotten | llvm/lib/Support/Triple.cpp:948-955 | an architecture and a system without a vendor get exactly one "unknown" between them |
| TripleMeaning.I386Linux | llvm/lib/Support/Triple.cpp:869-1056 | "i386-linux" becomes "i386-unknown-linux" |
| TripleIdempotence.CanonicalTwice | llvm/lib/Support/Triple.cpp:903-1009 | for every string, permuting twice is permuting once |
| TripleIdempotence.NormalizeTwice | llvm/lib/Support/Triple.cpp:869-1056 | for every string, normalizing twice is normalizing once if and only if the search leaves no Android environment that begins with "androideabieabi", outside mingw and cygwin |
| TripleIdempotence.NormalizeTwiceFromInput | llvm/lib/Support/Triple.cpp:869-1056 | told from the string: if no component of it begins with "androideabieabi", normalizing twice is normalizing once |
| TripleIdempotence.EabiIsDroppedTwice | llvm/lib/Support/Triple.cpp:1014-1022 | "androideabieabi" changes twice |
| TripleIdempotence.RenameTwice | llvm/lib/Support/Triple.cpp:1014-1026 | on the fourth component alone: when the Android and SUSE cases are idempotent |
| TripleIdempotence.AgainWindows | llvm/lib/Support/Triple.cpp:1028-1052 | the Windows, mingw and cygwin forms, format suffix included, are stable under a second pass |
| TripleNames.EnvironmentParses | llvm/lib/Support/Triple.cpp:563-587 | every environment is parsed back from its name, with or without a dash and more after it |
| TripleNames.FormatParses | llvm/lib/Support/Triple.cpp:589-600 | every object format is parsed back from its name, alone or after a dash, which keeps an "x" from joining "coff" |
| TripleTables.VendorParses | llvm/lib/Support/Triple.cpp:175-195 | every vendor is parsed back from its name |
| TripleTables.OSParses | llvm/lib/Support/Triple.cpp:198-240 | every system is parsed back from its name, whatever version follows |
| TripleTables.TablesReadNames | llvm/lib/Support/Triple.cpp:502-561 | so it is with the parsers of the tables |
| TripleTables.DefaultFormatIs | llvm/lib/Support/Triple.cpp:711-795 | exactly which architectures and systems have each object format by default |
| TripleTables.MipsEnvironmentIs | llvm/lib/Support/Triple.cpp:819-828 | exactly which architecture names give each environment of the mips rule |
| TripleFields.PartsAreComponents | llvm/lib/Support/Triple.cpp:1058-1106 | the nested-split accessors give the components of the constructor's split at three dashes |
| TripleFields.PartsOfSplit | llvm/lib/Support/Triple.cpp:1080-1106 | the accessors give the components of the full split, or the empty string |
| TripleFields.ParseIsParseParts | llvm/lib/Support/Triple.cpp:800-832 | the enumerations are parses of the accessors' components, but for the environment of a one-component triple |
| TripleNames.TablesAreFaithful | llvm/lib/Support/Triple.cpp:502-600 | the tables parse names of environments and formats back, on either side of a dash |
| TripleNames.TablesAreKnown | llvm/lib/Support/Triple.cpp:501-587 | the tables also read every Android version as Android, "windows" as Windows, and no system from what begins with "mingw" or "cygwin" |
| TripleClass.ArchNameSet | llvm/lib/Support/Triple.cpp:1252-1261 | a new architecture name changes architecture and sub-architecture and keeps all else, but for a format that is not spelled out and the environment of a triple that was only an architecture |
| TripleClass.VendorNameSet | llvm/lib/Support/Triple.cpp:1263-1265 | a new vendor name changes the vendor and keeps all else, but for the environment of a triple that was only an architecture |
| TripleClass.OSNameSet | llvm/lib/Support/Triple.cpp:1267-1273 | a new system name changes the system and keeps all else, but for a format that is not spelled out and the environment of a triple that was only an architecture |
| TripleClass.EnvironmentNameSet | llvm/lib/Support/Triple.cpp:1275-1278 | a new environment name, dashes allowed, changes environment and format only |
| TripleClass.OSAndEnvironmentNameSet | llvm/lib/Support/Triple.cpp:1280-1282 | a new system and environment change just those and the object format that follows from them |
| TripleClass.ArchNameComponents | llvm/lib/Support/Triple.cpp:1252-1261 | for any name: its components stand in place of the first, and the others, filled up to three, follow |
| TripleClass.VendorNameComponents | llvm/lib/Support/Triple.cpp:1263-1265 | for any name: its components stand in place of the second of at least three |
| TripleClass.OSNameComponents | llvm/lib/Support/Triple.cpp:1267-1273 | for any name: its components stand in place of the third; what followed stays, unless that is a single empty component, and nothing is added where nothing followed |
| TripleClass.EnvironmentNameComponents | llvm/lib/Support/Triple.cpp:1275-1278 | for any name: its components follow the first three |
| TripleClass.OSAndEnvironmentNameComponents | llvm/lib/Support/Triple.cpp:1280-1282 | for any name: its components follow the first two |
| TripleClass.OwnNames | llvm/lib/Support/Triple.cpp:1252-1282 | setting a component to what it is changes nothing in a string with three components; for the system if and only if the fourth is not a last, empty one |
| TripleClass.EnvironmentSet | llvm/lib/Support/Triple.cpp:1236-1242 | setting environment k makes it k and keeps architecture, vendor, system and object format, on any string |
| TripleClass.EnvironmentSpelled | llvm/lib/Support/Triple.cpp:1236-1242 | the object format is spelled out after the new environment only where it is not the default |
| TripleClass.VendorSet | llvm/lib/Support/Triple.cpp:1228-1230 | setting vendor k makes it k and keeps everything else, but for the mips rule |
| TripleClass.OSSet | llvm/lib/Support/Triple.cpp:1232-1234 | setting system k makes it k, with the format that follows from it |
| TripleClass.ObjectFormatSet | llvm/lib/Support/Triple.cpp:1244-1250 | setting object format k makes it k, or the default for the unknown one, and keeps the environment and everything else |
| TripleClass.FormatSpelled | llvm/lib/Support/Triple.cpp:1244-1250 | the new format is spelled out after the environment, or alone where there is none |
| TripleClass.StringsParse | llvm/lib/Support/Triple.cpp:840-867 | what the joined string parses to: for dash-free arguments what the three- and four-string constructors store, otherwise the system up to its first dash and an environment of the rest |
| TripleClass.ThreeStringsAgree | llvm/lib/Support/Triple.cpp:840-848 | for any system string, the three-string constructor agrees with parsing the string it builds if and only if what follows a dash in the system means nothing more |
| TripleClass.EnvironmentOverlooked | llvm/lib/Support/Triple.cpp:840-848 | a system string that brings an environment along leaves the constructor without it, though parsing the string it has built finds it |
| TripleClass.Triple.SetEnvironment | llvm/lib/Support/Triple.cpp:1236-1242 | the object keeps its invariant, and only the environment field changes |
| TripleClass.Triple.SetVendor | llvm/lib/Support/Triple.cpp:1228-1230 | the object keeps its invariant, and the vendor changes as in VendorSet |
| TripleClass.Triple.SetOS | llvm/lib/Support/Triple.cpp:1232-1234 | the object keeps its invariant, and the system changes as in OSSet |
| TripleClass.Triple.SetObjectFormat | llvm/lib/Support/Triple.cpp:1244-1250 | the object keeps its invariant, and only the format field changes, to the default for the unknown format |
| TripleClass.Triple.SetArchName | llvm/lib/Support/Triple.cpp:1252-1261 | the string is rebuilt and parsed again |
| TripleClass.Triple.SetVendorName | llvm/lib/Support/Triple.cpp:1263-1265 | the string is rebuilt and parsed again |
| TripleClass.Triple.SetOSName | llvm/lib/Support/Triple.cpp:1267-1273 | the string is rebuilt, with the environment if there is one, and parsed again |
| TripleClass.Triple.SetEnvironmentName | llvm/lib/Support/Triple.cpp:1275-1278 | the string is rebuilt and parsed again |
| TripleClass.Triple.SetOSAndEnvironmentName | llvm/lib/Support/Triple.cpp:1280-1282 | the string is rebuilt and parsed again |
| TripleClass.Triple.FromThree | llvm/lib/Support/Triple.cpp:840-848 | for all arguments, stores the joined string and the enumerations of the arguments; the invariant holds when none of them has a dash |
| TripleClass.Triple.FromFour | llvm/lib/Support/Triple.cpp:855-867 | for all arguments, stores the joined string and the enumerations of the arguments; the invariant holds when architecture, vendor and system have no dash |
| DarwinVersions.OSVersionLTIsLexicographic | llvm/include/llvm/ADT/Triple.h:418-427 | the version query is lexicographic comparison if and only if the version is not one below a micro number that is ignored |
| DarwinVersions.GetMacOSXVersion | llvm/lib/Support/Triple.cpp:1135-1174 | the out-parameter version and success of the mapping, with its defaults |
| DarwinVersions.MapDefaults | llvm/lib/Support/Triple.cpp:1138-1173 | which versions do not map, and what the others map to, case by case |
| DarwinVersions.MapKeepsOrder | llvm/lib/Support/Triple.cpp:1140-1156 | the map keeps the order of Darwin versions from 4 on |
| DarwinVersions.QueryAgrees | llvm/lib/Support/Triple.cpp:1706-1721 | for every Darwin version that maps, the unversioned one included, exactly which queries whose sum does not wrap agree with comparing the macOS version |
| DarwinVersions.UnversionedQueryAgrees | llvm/lib/Support/Triple.cpp:1140-1143 | on an unversioned Darwin a query agrees if and only if it asks past the default, 10.4 |
| DarwinVersions.WrappedQueryAgrees | llvm/lib/Support/Triple.cpp:1716-1720 | exactly which queries whose sum wraps agree all the same |
| DarwinVersions.ReleaseQueriesAgree | llvm/lib/Support/Triple.cpp:1706-1721 | queries of 10.m up to m = 16 and of M.0 from 11 on always agree |
| DarwinVersions.WrappedQuery | llvm/lib/Support/Triple.cpp:1716-1717 | a minor number whose sum wraps is answered wrongly |
| DarwinVersions.MacQueryAgrees | llvm/lib/Support/Triple.cpp:1711-1713 | exactly which queries on a macOS version that maps agree, the unversioned one with its default 10.4 included |

## Left out

- Registration, target machine, subtarget, streamer, object file and printer classes: wiring to LLVM with no property of their own.
- Frame lowering and `encodeInstruction`: their bodies are empty; encodings are taken from the instruction formats.
- `LowerFormalArguments` and `LowerReturn`: loops over calling-convention state that is not part of this model.
- `getAddr` for position-independent code and the medium code model: the pseudo-instructions it makes have no visible expansion.
- `getPCRelHiFixup`, which always returns no fixup, and the TLS walk over symbols.
- Target flags and relocation kinds for which `lowerSymbolOperand` has no case (`MO_PLT`): unreachable in the source.
- Vector and floating-point selects, physical registers and kill flags in select expansion; debug instructions have no effect here.
- The order in which LLVM's own pass calls the inserter hook is not part of this model: `FinalizeISel` allows any order.
- Sharing of nodes in the selection DAG: expressions are trees.
- RV64 loads and stores, load and store patterns, and setcc codes that have no pattern.
- `parseARMArch`, `parseSubArch` and `VersionTuple::tryParse`: opaque, since the parsers they call are not part of this model.
- `setArch` by kind: it passes a fixed name to the mutator by name; that architecture names parse back is not shown.
- TripleClass.ArchNameSet: asks for a dash-free name; with a dash in it the later components shift.
- TripleClass.VendorNameSet: asks for a dash-free name, for the same reason.
- TripleClass.OSNameSet: asks for a dash-free name, for the same reason.
- Pointer widths, byte orders and other finite tables of the triple class.
