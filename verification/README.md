# A verified model of QBDI's translation cache

QBDI translates guest code basic block by basic block into code pages (`ExecBlock`), groups the
pages into address regions (`ExecRegion`), looks translations up by address, splits sequences on
demand, merges and flushes regions, and runs the guest on the result. This project models that
machinery in Dafny and proves that it agrees with something simple: a run without a cache, on one
register file, whose every turn executes code instrumented with the rules at the beginning of the
turn. If whatever changes the rules breaks to the VM, as the documentation asks, that is the guest
instruction by instruction, each instrumented with the rules of the moment it is executed.

`dafny verify dfyconfig.toml` checks the whole project.

## How the project is laid out

| file | models |
|---|---|
| `Range.dfy` | `Range` and `RangeSet` |
| `PatchCondition.dfy`, `Guest.dfy` | conditions, rules and decoded instructions |
| `Ring.dfy`, `RegionVector.dfy`, `Eviction.dfy` | the intrusive list of regions, its relocation by vector moves, and how it follows the manager |
| `Block.dfy`, `PageWrite.dfy`, `Thread.dfy`, `Recording.dfy`, `ExecBlock.dfy` | a code page, what is written into it, how it is executed and what its registries hold (AArch64) |
| `Program.dfy` | the guest code as a fixed decoder sees it, and its basic blocks |
| `Placement.dfy`, `Coverage.dfy` | where `findRegion` puts a code range, and when it covers all of it |
| `Cache.dfy`, `RegionList.dfy`, `Lookup.dfy`, `BlockWrite.dfy`, `BasicBlock.dfy`, `Budget.dfy`, `PageMap.dfy`, `Flush.dfy` | regions as values: indexes, lookup, writing and what it takes, pages, flushing, eviction |
| `Manager.dfy` | `ExecBlockManager` |
| `Witness.dfy` | inputs for which a property fails |
| `Coherence.dfy`, `Run.dfy`, `Interpreter.dfy`, `Engine.dfy` | rules against cached code, the run without a cache, the guest instruction by instruction, the engine |
| `Fold.dfy` | an idiom that keeps large predicates folded |

A page is an object with an array while it is written; between calls the manager holds its blocks as
values, since a region owns them through unique pointers. The manager's list of regions is a sequence
of names; `Eviction.dfy` proves that the vector of list nodes, moved by pointer assignments, has that
order after every operation: placements with and without reallocation, flushes and a clear.

## Main results

* A run with blocks, contexts, flushes and switches leaves the registers and the rules of a run
  without a cache, in which each turn executes a part of the basic block at the program counter, with
  the code that instrumenting it at the beginning of the turn would give (`Engine.Run`). Callbacks may
  change the rules and clear the cache in between. What is executed is the code of the looked-up
  sequence on its page (`Engine.Locate`).
* A run that gives up has a reason that can be read off the basic block at the program counter and the
  cache: a patch that no page has room for or no register is free in, 65536 blocks and patches together,
  or a page with too few shadows for the basic block (`Engine.Run`, `ExecBlockManager.WriteBasicBlock`).
* If whatever changes the rules in the middle of a turn ends with another action than Continue, every
  instruction is executed with the rules of that moment (`NeverStale`). However the guest code is cut
  into sequences, a run that only the callbacks of instructions watch is the one instruction by
  instruction (`Transparent`). `Engine.RunSteps` states both of the engine.
* Every history of rule changes, cache operations, translations and runs leaves the state of the same
  history without a cache, and each cached patch is what its instruction would get now, cached once
  (`Engine.History`).
* A lookup hits exactly the cached instructions; what it selects ends where the original sequence
  ended (`ExecBlockManager.GetProgrammedExecBlock`).
* Writing a basic block adds its patches to the cache, each once: cut points exist such that the
  patches between two of them are the code of a sequence listed under its first instruction. The
  cache stays in order if and only if the basic block was not overlong
  (`ExecBlockManager.WriteBasicBlock`).
* `writeSequence` never touches the epilogue, never runs out of room for its tail, and rolls back
  without a trace (`ExecBlock.WriteSequence`). What is executed from a selected sequence on, written or
  split off, is the code of its patches, with a change of the scratch register exactly where it is
  needed, and a tail that stores the next guest address unless the last instruction has set it
  (`ExecBlock.SelectSeq`). After any writes, rollbacks and splits the markers and
  shadows registered for an instruction are those of its patch (`ExecBlock.GetTagByInst`).
* The nodes of the eviction list stay a well-formed ring in order of age while the vector erases,
  inserts, compacts and reallocates its elements (`RegionVector.Erase`, `Emplace`, `RemoveIf`,
  `Reallocate`).

## What the code does not do

These properties fail for some inputs; each has a witness and the exact condition.

* `findRegion` merges only one neighbour, and `preWriteBasicBlock` and `writeBasicBlock` both call
  it, so a basic block that overlaps three regions can end outside the region it is written into.
  `GapReached` gives a cache in order and a program with overlapping decodings. `findRegion` makes
  these regions if its cost test refuses to extend a neighbour by three bytes (`GapReachable`), which
  it does if and only if the bytes left on the page are not more than three times the expansion ratio,
  or not more than three (`CostRefuses`, `GapByCost`). The last instruction is then outside the range
  that lookups and flushes go by. The region covers the basic block if and only if it is not overlong
  (`PlacedCoversIff`, `PlacedTwiceCoversIff`). On code without overlapping decodings, such as AArch64
  code, this never happens (`NeverOverlong`, `AlignedApart`).
* A comment in `writeBasicBlock` says that its own trim never finds anything after
  `preWriteBasicBlock`. It does for the cache of `RetrimReached`, and in general if and only if the
  first placement merges two regions, a third one starts before the end of the basic block, and that
  one has its last instruction (`Retrimmed`).
* A turn executes code that was looked up before its entry event, so a callback of that event, or of
  an instruction, that changes the rules and continues is too late for the code at hand
  (`StaleEntry`). For one added or deleted rule, that code is what the new rules give if and only if
  the rule applies to none of its instructions (`StaleAdd`, `StaleDelete`); for any change, if and
  only if the same rules apply to each of them (`FreshIff`). `docs/source/api_description.rst` (lines
  132 to 137) asks such callbacks to return BREAK_TO_VM.
* Decoding stops at the end of the instrumented range that its start is in, and at none from a start
  in no range, so two basic blocks with a common instruction can end differently (`RangeBreaks`). The
  trim compares from the end, so it then misses a cached instruction (`TrimMisses`). Basic blocks that
  share an instruction end alike if and only if none that starts in no range crosses the end of one
  (`AlikeIff`). The engine's results are for those ranges.
* A condition's `affectedRange` is sound for an instruction if and only if its end does not wrap
  around (`AffectedSoundIff`).
* `clearCache(true)` does not clean `codeBlockMap`: the map is exact afterwards if and only if there
  was no block (`ExecBlockManager.ClearCacheAll`).
* `RangeSet::overlaps` answers true for every empty range (`RangeSet.OverlapsRange`).
* A comment in `InstrRule.h` says that rules of lesser priority come first; `addInstrRule` keeps the
  higher ones first, and so does the model.

## Hypotheses

* The decoder is fixed: `Program` maps an address and mode to at most one instruction, and no
  instruction wraps around the address space.
* No basic block that starts in no instrumented range gets into one and past its end (`Uncrossed`, the
  exact condition of `AlikeIff`). The list of ranges is one that `RangeSet` can produce.
* A patch is what `finalizeInstsPatch` leaves (`WellFormed`): one begin and one end marker, at least
  one instruction, no more than three markers for each 4-byte instruction. The generator gives such
  patches for every instruction and list of rules.
* The terminator and the jump to the epilogue allocate no tagged shadow and together fit
  `MINIMAL_BLOCK_SIZE`; a page with its prologue and epilogue is at most 64 KiB.
* A rule's condition depends on the instruction alone, and the ranges of user rules are lists that
  `RangeSet` can produce. The user callback that an `InstrRule` calls while a basic block is
  instrumented (src/Patch/InstrRule.cpp:234) is such a condition: it makes no request of the engine.
* The flush flag of a new manager has any value.

An abort of the source is an outcome of the model. Aborts that are left are those the code can reach:
too many blocks in a region, no free shadow, no free scratch register, no decodable instruction.

## Model

| member | source | states |
|---|---|---|
| `Ranges.OverlapsIsSharing` | include/QBDI/Range.h:123-126 | two non-empty ranges overlap if and only if they share an address, and when an empty one is reported |
| `Ranges.CanonicalUnique` | include/QBDI/Range.h:386-400 | sorted, separated lists denote the same addresses only if they are equal |
| `Ranges.TotalCounts` | include/QBDI/Range.h:164-170 | the sum of the sizes of a list is the number of addresses it denotes |
| `Ranges.TotalBound` | include/QBDI/Range.h:164-170 | that sum stays below the word size, so size() never wraps |
| `Ranges.SizeUnionIntersection` | include/QBDI/Range.h:164-170 | sizes of union and intersection add up to the sizes of the operands |
| `Ranges.RangeSet.Size` | include/QBDI/Range.h:164-170 | the loop computes the number of addresses |
| `Ranges.RangeSet.ElementRange` | include/QBDI/Range.h:172-181 | finds the range with the address if and only if there is one |
| `Ranges.RangeSet.ContainsRange` | include/QBDI/Range.h:185-197 | true if and only if every address of the range is in the set |
| `Ranges.RangeSet.OverlapsRange` | include/QBDI/Range.h:199-211 | true if and only if the range is empty or shares an address with the set |
| `Ranges.RangeSet.Equals` | include/QBDI/Range.h:386-400 | true if and only if both sets have the same addresses |
| `Ranges.RangeSet.Add` | include/QBDI/Range.h:213-259 | union of the addresses, on a list that stays sorted and separated |
| `Ranges.RangeSet.AddSet` | include/QBDI/Range.h:261-265 | union with another set, or with itself |
| `Ranges.RangeSet.Remove` | include/QBDI/Range.h:267-327 | difference of the addresses, on a list that stays sorted and separated |
| `Ranges.RangeSet.RemoveSet` | include/QBDI/Range.h:329-333 | difference with another set |
| `Ranges.RangeSet.IntersectSet` | include/QBDI/Range.h:335-354 | intersection with another set |
| `Ranges.RangeSet.IntersectRange` | include/QBDI/Range.h:356-373 | intersection with a range |
| `PatchConditions.AffectedRange` | src/Patch/PatchCondition.h:47-51 | the set built by intersections and unions has exactly the addresses a condition tree declares |
| `PatchConditions.AffectedSound` | src/Patch/PatchCondition.h:97-235 | a condition of any tree holds only at addresses it declares, if the instruction does not wrap |
| `PatchConditions.AffectedSoundIff` | src/Patch/PatchCondition.h:97-126 | all conditions are sound for an instruction if and only if it does not wrap |
| `PatchConditions.AffectedExact` | src/Patch/PatchCondition.h:97-215 | a condition on the position alone declares exactly the addresses where it holds for an instruction of one byte |
| `PatchConditions.LeafMeaning` | src/Patch/PatchCondition.h:97-143 | a range condition holds if all bytes of the instruction are in the range, an address condition at that address only |
| `PatchConditions.Complement` | src/Patch/PatchCondition.h:152-231 | exactly one of a condition and its negation holds; their disjunction always does and their conjunction never |
| `PatchConditions.DeMorgan` | src/Patch/PatchCondition.h:152-231 | the negation of any conjunction is the disjunction of the negations, and the other way round |
| `PatchConditions.PartByPart` | src/Patch/PatchCondition.h:152-203 | a joined list of conditions is tested part by part; the empty conjunction holds and the empty disjunction does not |
| `PatchConditions.TryInstrument` | src/Patch/InstrRule.cpp:221-228 | a rule with a condition instruments the instructions the condition holds for; a user rule those with all bytes in its range that its callback wants |
| `PatchConditions.RuleAffectedRange` | src/Patch/InstrRule.h:243 | the range a rule declares: that of its condition, or its own |
| `PatchConditions.RuleAffectedSound` | src/Patch/InstrRule.cpp:221-228 | a rule applies only at addresses in that range |
| `Rings.Node.Move` | src/Utility/MovableDoubleLinkedList.h:51-66 | a move-constructed node takes exactly the place of the old one, which is left alone |
| `Rings.Node.MoveAssign` | src/Utility/MovableDoubleLinkedList.h:68-86 | a move-assigned node leaves its ring and takes the other's place, also in the same ring and next to it |
| `Rings.Node.RemoveSelf` | src/Utility/MovableDoubleLinkedList.h:89-98 | a removed node is alone and the others stay a ring in the same order |
| `Rings.List.InsertBegin` | src/Utility/MovableDoubleLinkedList.h:166-173 | a node from any ring ends up behind the head; both rings stay well formed |
| `Rings.List.InsertEnd` | src/Utility/MovableDoubleLinkedList.h:175-182 | a node from any ring ends up last; both rings stay well formed |
| `Rings.List.Destroy` | src/Utility/MovableDoubleLinkedList.h:148-152 | the destructor's loop ends with every node alone |
| `RegionVectors.MoveAssign` | src/Utility/MovableDoubleLinkedList.h:68-86 | among the slots of a vector, the pointer assignments of a move take the target out of the list and put it in the place of the other; all other slots stay |
| `RegionVectors.MoveKeepsOrder` | src/Utility/MovableDoubleLinkedList.h:68-86 | so the region moved to another slot keeps its place in the list |
| `RegionVectors.RegionVector.Reallocate` | src/Utility/MovableDoubleLinkedList.h:51-66 | moving all elements to new memory keeps every region's place |
| `RegionVectors.RegionVector.Erase` | src/ExecBlock/ExecBlockManager.cpp:385 | erasing a vector element by node moves takes its region out of the ring and keeps the order of the others |
| `RegionVectors.RegionVector.Emplace` | src/ExecBlock/ExecBlockManager.cpp:499-500 | inserting one by node moves and linking it makes it the youngest and keeps the order of the others |
| `RegionVectors.RegionVector.RemoveIf` | src/ExecBlock/ExecBlockManager.cpp:550-551 | exactly the flagged regions leave the vector and the ring; both orders stay |
| `RegionVectors.RegionVector.Clear` | src/ExecBlock/ExecBlockManager.cpp:567-571 | destroying all elements leaves the ring of the list empty |
| `RegionVectors.RegionVector.Oldest` | src/ExecBlock/ExecBlockManager.cpp:590 | iterating over the ring visits the regions from the oldest to the youngest |
| `Evictions.FollowPlacement` | src/ExecBlock/ExecBlockManager.cpp:388-502 | after findRegion, with or without a reallocation, the vector holds the manager's regions and the ring has the order of its list |
| `Evictions.FollowClear` | src/ExecBlock/ExecBlockManager.cpp:567-571 | the same after clearCache(true) |
| `Evictions.FollowFlush` | src/ExecBlock/ExecBlockManager.cpp:535-554 | the same after flushCommit |
| `Evictions.FollowEviction` | src/ExecBlock/ExecBlockManager.cpp:590 | so reduceCacheTo visits the regions in the order of the list |
| `ExecBlocks.ExecBlock.constructor` | src/ExecBlock/ExecBlock.cpp:55-135 | a new page holds prologue and epilogue and is valid |
| `ExecBlocks.ExecBlock.WriteCodeByte` | src/ExecBlock/ExecBlock.cpp:294-309 | bytes are written if and only if they end before the epilogue |
| `ExecBlocks.ExecBlock.NewShadow` | src/ExecBlock/ExecBlock.cpp:524-535 | shadows are numbered in order and registered when tagged |
| `ExecBlocks.ExecBlock.ApplyRelocatedInst` | src/ExecBlock/ExecBlock.cpp:311-346 | all items are written and registered at their offsets, or the space between position and epilogue is too small |
| `ExecBlocks.ExecBlock.InitScratchRegister` | src/ExecBlock/AARCH64/ExecBlock_AARCH64.cpp:141-208 | the scratch register is free in a run of patches that no other register stays free beyond, and is the highest such one; it aborts if and only if none is free in the first |
| `ExecBlocks.ExecBlock.WritePatch` | src/ExecBlock/AARCH64/ExecBlock_AARCH64.cpp:99-139 | a written patch leaves room for the tail and has a scratch register it does not use; a failed one changes nothing before the position |
| `ExecBlocks.ExecBlock.WriteOrRollback` | src/ExecBlock/ExecBlock.cpp:386-458 | a patch is written and registered at its offset, with the page valid again, or everything is restored |
| `ExecBlocks.ExecBlock.WriteTail` | src/ExecBlock/ExecBlock.cpp:460-474 | terminator and epilogue jump always fit: their aborts are unreachable |
| `ExecBlocks.ExecBlock.WriteSequence` | src/ExecBlock/ExecBlock.cpp:348-493 | full if and only if the first patch does not fit; then registries are unchanged; else a maximal prefix becomes one sequence, behind whose last patch stand a terminator with the address of the next instruction, unless all were written and the last one sets the program counter, and the jump to the epilogue; the page is closed exactly when no patch can fit; bytes outside the free space never change; validity is kept |
| `ExecBlocks.ExecBlock.SplitSequence` | src/ExecBlock/ExecBlock.cpp:495-502 | adds the rest of a sequence with its end and the recorded scratch register, changes no other |
| `ExecBlocks.ExecBlock.SelectSeq` | src/ExecBlock/AARCH64/ExecBlock_AARCH64.cpp:48-59 | execution starts at the code of the first instruction with a scratch register it does not use, goes through the code of all instructions of the sequence and ends with the tail |
| `Recording.RecordValid` | src/ExecBlock/ExecBlock.cpp:426-458 | registering a written patch keeps the page valid: slices tile the registries, hold what the patches have, and code is laid out in order |
| `Recording.RecordMarks` | src/ExecBlock/ExecBlock.cpp:426-458 | the slices of the new instruction hold the markers and shadows of its patch, behind the marker of a scratch register change; those of the others stay |
| `Recording.RestoredValid` | src/ExecBlock/ExecBlock.cpp:413-417 | a rolled-back page is valid |
| `Threading.WovenBehind` | src/ExecBlock/AARCH64/ExecBlock_AARCH64.cpp:99-139 | the code of an instruction follows that of the one before, behind a change from its scratch register to the new one exactly when that is busy |
| `Recording.AddedWoven` | src/ExecBlock/ExecBlock.cpp:460-474 | the tail makes the written patches a sequence that ends by setting the program counter, or with an instruction that does |
| `Threading.SequenceInPlace` | src/ExecBlock/AARCH64/ExecBlock_AARCH64.cpp:48-59 | the code of every sequence, split or not, stands in the page without a gap, from its first instruction to its tail |
| `ExecBlocks.MatchingOne` | src/ExecBlock/ExecBlock.cpp:676-688 | an entry is found once if it matches, else not |
| `Recording.CloseSequence` | src/ExecBlock/ExecBlock.cpp:481-484 | registering the sequence makes every instruction name one that has it |
| `Recording.SplitValid` | src/ExecBlock/ExecBlock.cpp:495-502 | a split keeps the page valid |
| `Recording.SliceIsFilter` | src/ExecBlock/ExecBlock.cpp:659-674 | the shadow slice of an instruction is the registry filtered by it |
| `ExecBlocks.ExecBlock.GetShadowByInst` | src/ExecBlock/ExecBlock.cpp:659-674 | returns the shadows of the instruction's patch, which are all the registry has for it |
| `ExecBlocks.ExecBlock.QueryShadowByInst` | src/ExecBlock/ExecBlock.cpp:676-688 | returns the matching entries in their order: for an instruction, those of its patch with the tag |
| `ExecBlocks.ExecBlock.GetTagByInst` | src/ExecBlock/ExecBlock.cpp:714-726 | returns the markers of the instruction's patch at the offsets they were written at, in order, behind the marker of a scratch register change if there was one |
| `ExecBlocks.ExecBlock.QueryTagByInst` | src/ExecBlock/ExecBlock.cpp:728-740 | returns those with the tag; the begin marker is where the instruction's code is, the end marker at its skip offset |
| `ExecBlocks.ExecBlock.GetPatchAddressOfJit` | src/ExecBlock/ExecBlock.cpp:751-778 | answers i if and only if the address is in the code interval of i, and nothing exactly outside all of them |
| `ExecBlocks.JitRoundTrip` | src/ExecBlock/ExecBlock.cpp:589-593 | the instrumented address of an instruction is in its own interval and no other |
| `Programs.ChainGrows` | src/Engine/Engine.cpp:271-317 | addresses grow along a basic block, in one mode |
| `Programs.BasicBlockEnd` | src/Engine/Engine.cpp:319-325 | all instructions of a basic block agree on its end |
| `Programs.BoundedIff` | src/Engine/Engine.cpp:258-284 | a decoding limit makes no difference to what is decoded if and only if that ends within it |
| `Programs.StaysInside` | src/Engine/Engine.cpp:258-284 | what is decoded from inside an instrumented range stays inside, with the same limit |
| `Programs.AlikeIff` | src/Engine/Engine.cpp:258-325 | all basic blocks with a common instruction end alike if and only if none that starts in no instrumented range crosses the end of one |
| `Programs.GoesIsContinues` | src/Engine/Engine.cpp:258-325 | then decoding up to the limit of the start goes on exactly where the range of the instruction itself lets it |
| `Witnesses.RangeBreaks` | src/Engine/Engine.cpp:258-265 | instrumented ranges with which two basic blocks that share an instruction end differently |
| `Witnesses.TrimMisses` | src/ExecBlock/ExecBlockManager.cpp:211-220 | a cache in order, with the shared instruction cached, in which the trim removes nothing |
| `Placements.LocatedFinds` | src/ExecBlock/ExecBlockManager.cpp:327-350 | the region searchRegion returns covers the address if and only if one does |
| `Placements.PlacedSorted` | src/ExecBlock/ExecBlockManager.cpp:388-502 | whatever the cost test answers, regions stay sorted and disjoint |
| `Placements.PlacedCovers` | src/ExecBlock/ExecBlockManager.cpp:388-502 | the returned region covers the start of the range, and nothing loses its cover |
| `Placements.PlacedCoversIff` | src/ExecBlock/ExecBlockManager.cpp:437-447 | it covers an address of the range if and only if the range is not overlong for it |
| `Placements.PlacedTwiceCoversIff` | src/ExecBlock/ExecBlockManager.cpp:199-246 | after two calls it does if and only if the range is not overlong by two regions |
| `Placements.SomePlacement` | src/ExecBlock/ExecBlockManager.cpp:388-502 | every range has a placement |
| `Coverage.NeverOverlong` | src/ExecBlock/ExecBlockManager.cpp:437-447 | no basic block is overlong if no two instructions share a byte |
| `Coverage.AlignedApart` | src/ExecBlock/ExecBlockManager.cpp:437-447 | aligned instructions of four bytes share no byte |
| `Witnesses.GapReached` | src/ExecBlock/ExecBlockManager.cpp:437-447 | a cache in order in which two calls of findRegion leave a basic block uncovered |
| `Witnesses.GapReachable` | src/ExecBlock/ExecBlockManager.cpp:465-501 | findRegion makes these regions if the cost test refuses the neighbours |
| `Witnesses.CostRefuses` | src/ExecBlock/ExecBlockManager.cpp:465-469 | when the cost test refuses |
| `Witnesses.GapByCost` | src/ExecBlock/ExecBlockManager.cpp:465-501 | the page space and expansion ratio with which it refuses these |
| `Caches.SplitIndexed` | src/ExecBlock/ExecBlockManager.cpp:143-157 | after a split every descriptor matches the registries, old and new |
| `Caches.OwnEntry` | src/ExecBlock/ExecBlockManager.cpp:146-150 | the descriptor of the sequence an instruction was written with is always there |
| `Caches.GrownInsts` | src/ExecBlock/ExecBlockManager.cpp:294-305 | after a write the instruction index lists every instruction at its number, once |
| `Caches.GrownSeqs` | src/ExecBlock/ExecBlockManager.cpp:283-293 | after a write the sequence index lists every sequence with its start, end and block end |
| `Caches.MergeMeaning` | src/ExecBlock/ExecBlockManager.cpp:368-374 | every key resolves to the same block and instruction after a merge; no index is truncated |
| `Caches.MergeSequences` | src/ExecBlock/ExecBlockManager.cpp:362-367 | every key resolves to the same block and sequence after a merge |
| `RegionLists.CachedWhere` | src/ExecBlock/ExecBlockManager.cpp:175-197 | an instruction is cached if and only if the region of its address lists it |
| `RegionLists.NoDuplicate` | src/ExecBlock/ExecBlockManager.cpp:238-253 | two places with the same instruction are the same place, across all regions |
| `RegionLists.PlaceRegionsOk` | src/ExecBlock/ExecBlockManager.cpp:352-502 | findRegion keeps every invariant of the cache, merges included |
| `RegionLists.FlushKept` | src/ExecBlock/ExecBlockManager.cpp:382-383 | findRegion loses no flush request: the blocks of a flagged region stay in one |
| `BlockWrites.TrimExact` | src/ExecBlock/ExecBlockManager.cpp:211-220 | the backward trim removes exactly the cached instructions of the basic block |
| `BlockWrites.ClosedAfterWrite` | src/ExecBlock/ExecBlockManager.cpp:263-320 | with an instruction, the rest of its basic block is cached |
| `BlockWrites.AdvancedMore` | src/ExecBlock/ExecBlockManager.cpp:280-317 | one more sequence: indexes stay right, no instruction moves, exactly its patches are new |
| `BlockWrites.PartitionMore` | src/ExecBlock/ExecBlockManager.cpp:280-317 | one more sequence: it is listed under its first instruction and its code is the next patches, and the sequences before keep their entries and code |
| `BlockWrites.PartitionTiles` | src/ExecBlock/ExecBlockManager.cpp:285-293 | each sequence ends where the next one starts |
| `BlockWrites.CoveredIff` | src/ExecBlock/ExecBlockManager.cpp:223-325 | all instructions of a written basic block are covered if and only if the last one is |
| `BlockWrites.SequenceCount` | src/ExecBlock/ExecBlock.cpp:353 | a block has no more sequences than instructions, so sequence numbers fit 16 bits |
| `BasicBlocks.WrittenCache` | src/ExecBlock/ExecBlockManager.cpp:223-325 | the cache is in order after the write if and only if the last instruction is covered |
| `BasicBlocks.HolderStays` | src/ExecBlock/ExecBlockManager.cpp:388-502 | a region that covers the start of the range is the one returned, with all it has |
| `BasicBlocks.PlacedHolds` | src/ExecBlock/ExecBlockManager.cpp:199-220 | whatever findRegion answers, its region has exactly the instructions of the first region that overlaps the range, or of that and the merged one |
| `BasicBlocks.SeparatesExactly` | src/ExecBlock/ExecBlockManager.cpp:211-220 | where the region covers the basic block, the whole cache has exactly the trimmed instructions of it |
| `BasicBlocks.Retrimmed` | src/ExecBlock/ExecBlockManager.cpp:248-253 | the second trim finds more than the first if and only if a third region in the way has the last instruction |
| `Witnesses.RetrimReached` | src/ExecBlock/ExecBlockManager.cpp:248-253 | a cache in which it does |
| `PageMaps.FlatPlace` | src/ExecBlock/ExecBlockManager.cpp:379-381 | findRegion moves no block |
| `PageMaps.ListPlaced` | src/ExecBlock/ExecBlockManager.cpp:385-501 | the eviction list names every region once; new ones last |
| `PageMaps.FlaggedOk` | src/ExecBlock/ExecBlockManager.cpp:550-551 | erasing flagged regions keeps the cache in order |
| `PageMaps.BookedFlushed` | src/ExecBlock/ExecBlockManager.cpp:535-554 | erased pages leave the page map, others stay; it is exact if it was |
| `Flushes.ClearedApart` | src/ExecBlock/ExecBlockManager.cpp:556-565 | a region left unflagged covers no address of the cleared ranges |
| `Flushes.ClearedExact` | src/ExecBlock/ExecBlockManager.cpp:556-565 | a region is flagged if and only if it was, or covers an address of the ranges |
| `Flushes.ClearedSpares` | src/ExecBlock/ExecBlockManager.cpp:525-533 | what may be executed afterwards is what was in the regions that overlap none of the ranges |
| `Flushes.EvictedOldest` | src/ExecBlock/ExecBlockManager.cpp:582-598 | a region is only evicted when all older ones are |
| `Flushes.EvictionBound` | src/ExecBlock/ExecBlockManager.cpp:582-598 | evicting the shortest oldest-first prefix and flushing leaves no more blocks than asked for |
| `Flushes.EvictionMinimal` | src/ExecBlock/ExecBlockManager.cpp:582-598 | with an exact page map, flushing after a shorter prefix leaves, with what was flagged before, more blocks than asked for |
| `Managers.ExecBlockManager.constructor` | src/ExecBlock/ExecBlockManager.cpp:50-64 | a new manager is valid whatever its flush flag is |
| `Managers.ExecBlockManager.GetProgrammedExecBlock` | src/ExecBlock/ExecBlockManager.cpp:114-173 | hits if and only if the instruction is cached; the selected sequence starts with it and ends where its original ended; a miss changes nothing, a hit at most adds one sequence |
| `Managers.ExecBlockManager.GetExecBlock` | src/ExecBlock/ExecBlockManager.cpp:175-197 | hits if and only if the instruction is cached, with its place |
| `Managers.ExecBlockManager.PreWriteBasicBlock` | src/ExecBlock/ExecBlockManager.cpp:199-221 | in the region that covers the start, and in the whole cache where that region covers the basic block, the result separates exactly the uncached from the cached instructions; no block changes; when the trim of writeBasicBlock will find more |
| `Managers.ExecBlockManager.WriteBasicBlock` | src/ExecBlock/ExecBlockManager.cpp:223-325 | the cache stays in order if and only if the basic block is not overlong; its instructions are cached; exactly the untrimmed patches are added, cut into listed sequences whose code they are, in order; it aborts on patchEnd if and only if patchEnd is too large or names an instruction that the region findRegion gives does not have; any other abort has a cause in the patches or the blocks |
| `Managers.ExecBlockManager.WriteSequences` | src/ExecBlock/ExecBlockManager.cpp:263-320 | terminates; fails only if a patch fits no new page or has no free register, or there are too many blocks or too few shadows |
| `Managers.ExecBlockManager.WriteNext` | src/ExecBlock/ExecBlockManager.cpp:265-319 | the first block with room takes a prefix, else a new page does; blocks before it had no room |
| `Managers.ExecBlockManager.SearchRegion` | src/ExecBlock/ExecBlockManager.cpp:327-350 | the binary search ends at the last region that starts at or before the address, or the first |
| `Managers.ExecBlockManager.MergeRegion` | src/ExecBlock/ExecBlockManager.cpp:352-386 | aborts if and only if the blocks do not fit 16 bits, else the successor is merged in and leaves vector and list |
| `Managers.ExecBlockManager.FindRegion` | src/ExecBlock/ExecBlockManager.cpp:388-502 | one of the possible placements; a range that overlaps no region extends the cheapest neighbour the cost test accepts to the least range over both, or makes a region; aborts if and only if two regions to be merged have too many blocks; the abort on region order is unreachable |
| `Managers.CostIsGrowth` | src/ExecBlock/ExecBlockManager.cpp:457-464 | the cost is the number of addresses the region would cover more, in 32 bits |
| `Managers.HullLeast` | src/ExecBlock/ExecBlockManager.cpp:476-488 | an extended region is the least range over both |
| `Managers.GrowsLeast` | src/ExecBlock/ExecBlockManager.cpp:465-475 | the extended region grows by no more addresses than the other neighbour would, if the cost test accepts that one too |
| `Managers.ExecBlockManager.FlushCommit` | src/ExecBlock/ExecBlockManager.cpp:535-554 | erases exactly the flagged regions from vector, list and page map and keeps validity |
| `Managers.ExecBlockManager.ClearCacheRange` | src/ExecBlock/ExecBlockManager.cpp:556-565 | flags exactly the regions that overlap the range |
| `Managers.ExecBlockManager.ClearCacheSet` | src/ExecBlock/ExecBlockManager.cpp:525-533 | flags exactly the regions that overlap one of the ranges |
| `Managers.ExecBlockManager.ClearCacheAll` | src/ExecBlock/ExecBlockManager.cpp:567-580 | drops or flags everything; when the page map is exact afterwards |
| `Managers.ExecBlockManager.ReduceCacheTo` | src/ExecBlock/ExecBlockManager.cpp:582-598 | flags the shortest oldest-first prefix that frees enough, never a region before an older one; no more than nb blocks are left unflagged |
| `Coherence.ApplyingIff` | src/Engine/Engine.cpp:336-346 | one rule more or less makes a difference to an instruction if and only if it applies to it |
| `Coherence.FreshIff` | src/Engine/Engine.cpp:328-349 | two lists of rules give the same code if and only if the same of them apply to each instruction |
| `Coherence.ApplyingExact` | src/Engine/Engine.cpp:336-346 | each rule that applies to an instruction instruments it once, in the order of the list, and no other rule |
| `Coherence.ClearedUnaffected` | src/Engine/Engine.cpp:750-755 | clearing the affected range of a rule leaves no patch the rule applies to |
| `Coherence.CoherentAdded` | src/Engine/Engine.cpp:580-598 | what is left is what instrumenting with the new rule gives |
| `Coherence.CoherentRemoved` | src/Engine/Engine.cpp:717-724 | what is left is what instrumenting without the old rule gives |
| `Coherence.CoherentCleared` | src/Engine/Engine.cpp:729-739 | what is left is what instrumenting without rules gives |
| `Coherence.SelectedFresh` | src/Engine/Engine.cpp:484-500 | the code of a selected sequence is what instrumenting the next instructions of the basic block now would give; its descriptor has the right ends |
| `Engines.Engine.AddInstrRule` | src/Engine/Engine.cpp:580-598 | enters the rule behind those of at least its priority and keeps the cache coherent; refuses when identifiers run out |
| `Engines.Engine.Invalidate` | src/Engine/Engine.cpp:750-755 | what may be executed afterwards is what was in the regions that overlap no address the rule declares |
| `Runs.AddDelete` | src/Engine/Engine.cpp:580-727 | a rule that is added and deleted by the identifier it was given leaves no trace |
| `Runs.IdsAlways` | src/Engine/Engine.cpp:580-598 | up to 2^32 requests no two rules have the same identifier |
| `Runs.DeletesExactly` | src/Engine/Engine.cpp:708-727 | deleting by identifier then removes the rule that has it and no other |
| `Engines.Engine.DeleteInstrumentation` | src/Engine/Engine.cpp:708-727 | removes the first rule with an identifier below the mask, or the first callback with one above, tells whether there was one and keeps the cache coherent |
| `Engines.Engine.DeleteAllInstrumentations` | src/Engine/Engine.cpp:729-739 | removes everything and keeps the cache coherent |
| `Engines.Engine.ClearCache` | src/Engine/Engine.cpp:743-748 | no instruction that starts in the range may be executed any more, and all in regions that do not overlap it may; the registers stay |
| `Engines.Engine.ClearAllCache` | src/Engine/Engine.cpp:741 | nothing cached may be executed any more |
| `Engines.Engine.ReduceCacheTo` | src/Engine/Engine.cpp:761-766 | a stopped engine has no more than nb blocks afterwards |
| `Engines.Engine.PatchBlock` | src/Engine/Engine.cpp:251-326 | decoding up to the limit of the start gives the basic block from the instruction on, on which all its instructions agree |
| `Engines.Engine.Instrument` | src/Engine/Engine.cpp:328-349 | each patch is what the generator makes with exactly the rules that apply, in order |
| `Engines.Engine.HandleNewBasicBlock` | src/Engine/Engine.cpp:351-360 | the cache is in order afterwards if and only if there is no gap; then the instruction is cached and everything stays valid; the abort on patchEnd is unreachable, any other has a cause in the basic block or the cache; the registers stay |
| `Engines.Engine.PrecacheBasicBlock` | src/Engine/Engine.cpp:362-383 | the instruction is cached afterwards; the answer tells whether it was not before |
| `Engines.Engine.CommitFlush` | src/Engine/Engine.cpp:473-482 | a flush in a run keeps the registers and leaves no pointer into an erased block |
| `Engines.Engine.SwitchTo` | src/Engine/Engine.cpp:508-515 | the block's context has and takes over the registers |
| `Engines.Engine.Locate` | src/Engine/Engine.cpp:484-500 | finds or makes a sequence: its region, descriptor, page and code, which is what instrumenting now would give; the abort on a second miss is unreachable |
| `Engines.Engine.OneTurn` | src/Engine/Engine.cpp:411-546 | from an instrumented address, or if execution cannot be transferred, registers, rules and action are those of executing at least one instruction as instrumented at the beginning of the turn; else those of the host; whatever the cost test answers |
| `Runs.InstrumentedStays` | src/Engine/Engine.cpp:414-416 | execution is transferred only from an address that is not instrumented |
| `Runs.TurnFlow` | src/Engine/Engine.cpp:411-546 | which events of a turn take place, what they do to the registers one after the other and to the rules all together, and which of them gives the action |
| `Engines.Engine.Run` | src/Engine/Engine.cpp:385-578 | ends at the same turn, with the same registers and rules, as the run without a cache, whose turns execute parts of basic blocks as instrumented at the beginning of the turn; code is executed unless the entry events prevent it; without a request to stop it ends at the given address and only there, and a stopping entry event ends it; pointers stay live; when it cannot decode, and why it gives up |
| `Runs.StaleAdd` | src/Engine/Engine.cpp:484-522 | the code of a turn is what the rules with one that its entry event adds give, if and only if that rule applies to none of its instructions |
| `Runs.StaleDelete` | src/Engine/Engine.cpp:484-522 | the same for a rule that the entry event deletes |
| `Runs.StaleEntry` | src/Engine/Engine.cpp:484-522 | an entry event that adds a rule for the instruction to be executed and continues is too late |
| `Interpreters.PieceWalks` | src/Engine/Engine.cpp:520-525 | executing a part of a basic block is executing its instructions one by one, each instrumented when it is reached, if what changes the rules breaks to the VM |
| `Interpreters.NeverStale` | docs/source/api_description.rst:132-137 | then a whole run, with its events and transfers, is the one that instruments every instruction when it is reached |
| `Interpreters.Transparent` | src/Engine/Engine.cpp:385-578 | without events and transfers that is the run instruction by instruction, however it is cut |
| `Engines.Engine.RunSteps` | src/Engine/Engine.cpp:385-578 | the engine leaves what these two runs leave |
| `Engines.Engine.History` | src/Engine/Engine.cpp:385-755 | any history leaves the registers and rules of the same history without a cache, requests alone those of the requests, and each cached patch is what its instruction would get now, cached once; why it gives up |

## Left out

- LLVM disassembly, assembly and relocation: a decoded instruction, the bytes of its patch and its registers are given.
- Engines whose instrumented ranges a basic block from outside crosses: see `AlikeIff` above. Changes of the ranges: they are fixed.
- The execution of JIT code, page protection and the host stack: what a piece of code does when it is executed is any function of that code and the registers, with requests and an action.
- ARM and Thumb mode switching in the run loop, pointer authentication and the alignment of the low address bit: the run is in one mode, though the cache is indexed by address and mode.
- The events BASIC_BLOCK_NEW, BASIC_BLOCK_ENTRY and BASIC_BLOCK_EXIT and the event mask: callbacks are part of the environment.
- The expansion ratio and the available and translated byte counts, which floating point numbers round: the cost test is any predicate of a region and a 32-bit cost, another one in every turn and translation.
- userInstCB ownership, execute flags, options, instruction analysis and the broker block.
- Patches that cover several instructions, and the early end of a basic block that rolls such patches back (AArch64 has neither).
- The priority order of the code inside a patch and the allocation of temporaries.
- Addresses of pages: a new page has any address that no live block has, so codeBlockMap is the set of its keys.
- Self move assignment of a list node, which the code does not protect against.
- Other targets than AArch64 for the code page: their scratch registers and tail sizes differ.
