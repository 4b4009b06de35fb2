# Verified model of carmor

This project models the parts of carmor where a fast or rewritten form has to agree with a simple one, and
proves that it does. Four components are modelled.

**Rewriting SSA functions** (`Ssa`, `SsaForm`, `BodyForm`, `Duplication*`, `Riv`, `IrFunction`, `DuplicateBB`, `Mba`). A small
SSA language has PHIs, pure operations, operations with effects, branches and returns. Its interpreter is given
the meaning of all opcodes that the passes do not look at as an arbitrary function (`World`), so every theorem
holds for all of them; reading an undefined register, or taking an edge a PHI does not know, gets stuck.
`Duplicated` is the closed form of one block duplication; the pass methods reach it by the same steps as the
source (split, clone, remap, PHI, replace all uses, purge). The main result says that for any list of distinct
blocks, each with any value that the reachability analysis reports, old and new function have the same traces
and results: within `n` steps of one, what the other does within `3n`. Random choices are arbitrary functions.
A value that a PHI replaces gets a fresh name, as in the source, where replaced instructions are destroyed; that
is why the table threaded through successive duplications is needed, and what it has to satisfy is proved.

**Counting calls** (`CallModel`, `CallSim`, `CallCounter`). A machine with a call stack, direct and indirect
calls, functions without bodies that may call back, and a table of 64-bit counters runs the original and the
instrumented module side by side.

**The intrusive hash table** (`HashElems`, `HashTable`, `ListSort`, `MergeSort`, `OrderedInsert`, `TableRuns`,
`Bloom`, `FilteredTable`). Elements are objects that carry both linked structures; buckets are an array. Ghost
sequences give the application order and the chains. The hash function is an arbitrary function of the key. While
the user's pointer is null there is no table, and the table object's other fields mean nothing.

**The paged memory runtime** (`ByteSeqs`, `Addresses`, `Tags`, `PageCache`, `Tlb`, `Links`, `Store`, `CrossPage`,
`FlatOps`, `Process`, `MemWrappers`, `MemFunctions`, `Iterations`, `LoopLinks`). A store is a five-entry translation
buffer over a page cache over a backing storage; `Mem()` is the flat memory it stands for. The source only declares
the page cache's side (`mem/armor_runtime.cpp:180-184`), so it is given this contract: a fault makes the page
resident in any frame without a pinned page and writes a dirty page back when it evicts it; "cached" pins a page,
"dropped" unpins it and passes the dirty flag on. Four facts are assumed: every store has a translation buffer of
its own; the storage offset of a pointer is its distance from the storage's start; a page index is taken in 32 bits
there too, as in the runtime itself; and a cache has at least six frames, one more than the translation buffer can
pin, and at most 65536. Everything else is proved, also where the source leaves it open: a linked address stays good
while it is used, because its page was pinned when the next page was made resident, or no frame had to be taken for
that page. Only the first chunk of a two-range function can break this, and exactly when it does is proved
(`Links.StaysExactly`).

Where properties fail, a failing input and the exact condition are proved:

- A two-range function whose ranges lie in one store can lose its left link in the first chunk, exactly when the
  left page is the oldest one in the buffer, the right range starts in a page outside the buffer and goes on to a
  page outside it, and one of these two is not resident (`MemWrappers.Steady`, `MemWrappers.SteadyExactly`). Then
  some choice of frames sends the next bytes to the wrong page (`Links.UnsteadyWrites`; `Links.CopyFailsFrom` is a
  copy of two bytes).
- The address reported for a dropped page lies in that page exactly when the new page is not below it
  (`Addresses.DropInPage`; `Store.OldestAbove` is a run that leads there). Its 32-bit page index is right all the same.
- Forward moves by chunks equal one move exactly when the destination does not start inside the source range behind
  its start, or one chunk is enough (`FlatOps.ForwardExact`).
- Batches of loop iterations stay in the page, at every offset, exactly under the condition of
  `Iterations.StepSafe`. The step is cut to an int for the batch size only, so a 64-bit step that does not fit an int
  is safe only where the batch is one iteration (`Iterations.WideStepFails`, `Iterations.IterationsSafeExactly`).
- Call counts are exact unless the module declares the runtime's counter function itself: then every function entry
  is counted for that function too (`CallSim.DeclaredCounter`).

`dafny verify dfyconfig.toml` checks the whole project.

## Model

| member | source | states |
|---|---|---|
| SsaForm.DominatingDefinition | passes/lib/RIV.cpp:83-102 | a value defined in a strict dominator is available on every path to a block |
| SsaForm.AvailableIsDominated | passes/lib/RIV.cpp:83-102 | conversely, an available value that is no argument has its definition in a strict dominator |
| SsaForm.AvailDown | passes/lib/RIV.cpp:96-100 | what is available at a block is available at every block it dominates |
| SsaForm.AvailableIsDefined | passes/lib/DuplicateBB.cpp:112-125 | in any run, every value available at the current block is already computed |
| Riv.VisibleIsAncestors | passes/lib/RIV.cpp:83-102 | the sets handed down the dominator tree are the inherited values plus the definitions of all strict ancestors, and nothing else |
| Riv.VisibleIsDominators | passes/lib/RIV.cpp:69-102 | from the root: the arguments plus the integer definitions of all strict dominators, both directions |
| Riv.ReportedIsAvailable | passes/lib/RIV.cpp:58-102 | every value the analysis reports for a block is available on entry to it |
| Riv.SeenValue | passes/lib/RIV.cpp:60-102 | what the analysis hands to the pass, value by value, in terms of PHIs and instructions |
| Riv.Analysis.DefinedValues | passes/lib/RIV.cpp:60-67 | each block is mapped to the registers of its integer PHIs and of its integer instructions, and to nothing else |
| Riv.Analysis.RunOnFunction | passes/lib/RIV.cpp:52-106 | the worklist ends with a register reported for a block if and only if it is an argument, or an integer PHI or instruction of a strict dominator defines it |
| IrFunction.Function.NewReg | passes/lib/DuplicateBB.cpp:194-215 | new instructions get a register that nothing in the function defines or reads |
| IrFunction.Function.SplitBlockAndInsertIfThenElse | passes/lib/DuplicateBB.cpp:157-165 | the block is split, both arms lead to the tail, PHIs of the successors name the tail |
| IrFunction.Function.EraseFrom | passes/lib/DuplicateBB.cpp:228-230 | erasing the collected instructions one by one empties the block |
| DuplicationForm.UniqueAfter | passes/lib/DuplicateBB.cpp:147-231 | after a duplication every register still has one definition |
| DuplicationForm.ReplacedIsErased | passes/lib/DuplicateBB.cpp:220-230 | no block of the result defines a replaced value any more, which is why later context values need the table |
| DuplicationForm.BoundedAfter | passes/lib/DuplicateBB.cpp:147-231 | all names of the result are below the new bounds |
| DuplicationForm.PredsAfter | passes/lib/DuplicateBB.cpp:157-165 | the predecessors of an old block are the old ones, with the tail instead of the duplicated block |
| DuplicationForm.PhisMatchAfter | passes/lib/DuplicateBB.cpp:157-226 | incoming labels of all PHIs equal the predecessors |
| DuplicationForm.ClosedAfter | passes/lib/DuplicateBB.cpp:157-165 | all edges lead to blocks, none to the entry |
| DuplicationDominance.CollapsePath | passes/lib/DuplicateBB.cpp:157-226 | a path of the new function collapses to one of the old that makes every definition the new one makes, under the renaming |
| DuplicationDominance.AvailAfter | passes/lib/DuplicateBB.cpp:134-141 | what was available at a block is available, under its new name, at every block it became |
| DuplicationDominance.UsesAfter | passes/lib/DuplicateBB.cpp:178-226 | every use in the result is dominated by its definition |
| DuplicationDominance.WellFormedAfter | passes/lib/DuplicateBB.cpp:147-231 | duplicating a block with an available context value keeps SSA well-formedness |
| DuplicationSim.OtherBlockStep | passes/lib/DuplicateBB.cpp:220-224 | a block that is not duplicated takes one step to a related state |
| DuplicationSim.DuplicatedBlockSteps | passes/lib/DuplicateBB.cpp:147-231 | the duplicated block takes exactly three: head, one arm, tail |
| DuplicationSim.DuplicateStep | passes/lib/DuplicateBB.cpp:147-231 | one old step is matched by one or three new ones, with the same events and related registers |
| DuplicationRuns.ContextDefined | passes/lib/DuplicateBB.cpp:97-101 | the value of the new condition is always computed when it is tested |
| DuplicationRuns.DuplicateRun | passes/lib/DuplicateBB.cpp:147-231 | after any number of steps the runs of old and new function are related |
| DuplicationRuns.CostBounds | passes/lib/DuplicateBB.cpp:157-226 | `n` old steps cost between `n` and `3n` new ones |
| DuplicationRuns.RemapCompose | passes/lib/DuplicateBB.cpp:152-155 | looking a value up in the extended table is looking it up and then taking the new replacement |
| DuplicationRuns.ThreadedStep | passes/lib/DuplicateBB.cpp:134-141 | between duplications: the context value after lookup is available at its block, so the next one keeps everything |
| DuplicationRuns.DuplicateAllThreaded | passes/lib/DuplicateBB.cpp:134-141 | for any selected list: well-formedness, untouched blocks, origin of table entries and availability hold after every target |
| DuplicationRuns.DuplicateAllMatched | passes/lib/DuplicateBB.cpp:134-141 | all duplications together match every run; the table leads from each old register to its value |
| DuplicationRuns.DuplicateAllSameRun | passes/lib/DuplicateBB.cpp:90-145 | for one input and run length: traces are prefixes of each other within the cost bound, and results are equal |
| DuplicationRuns.DuplicateAllPreserves | passes/lib/DuplicateBB.cpp:90-145 | duplicating any selected list preserves the meaning for all worlds, inputs and run lengths |
| DuplicationRuns.RunLater | passes/lib/DuplicateBB.cpp:90-145 | longer runs only extend the trace, and a finished run stays finished |
| DuplicationLooks.AllSplit | passes/lib/DuplicateBB.cpp:147-231 | after all duplications, each target is a head that branches on a value, two arms with its code and a tail of PHIs; other blocks have the code they had |
| DuplicateBB.RemapFindsClone | passes/lib/DuplicateBB.cpp:196-206 | remapping a clone while uses are being replaced by PHIs still finds the clone of each operand |
| DuplicateBB.ValueIteration | passes/lib/DuplicateBB.cpp:212-225 | one iteration on an instruction with a value reaches the next intermediate form |
| DuplicateBB.VoidIteration | passes/lib/DuplicateBB.cpp:209-210 | one iteration on an instruction without a value does, and leaves it for the purge |
| DuplicateBB.TailMapIdentity | passes/lib/DuplicateBB.cpp:182-187 | remapping the terminator through the tail's own table changes nothing |
| DuplicateBB.CloneTail | passes/lib/DuplicateBB.cpp:174-226 | the loop over the tail clones every instruction into both arms, merges values and extends the table |
| DuplicateBB.Duplicate | passes/lib/DuplicateBB.cpp:147-231 | the pass's steps give the closed form, and the table gets the PHI of every value |
| DuplicateBB.SelectTargets | passes/lib/DuplicateBB.cpp:103-132 | exactly the blocks that are chosen and see a value become targets, each once, with one of its values |
| DuplicateBB.RunOnFunction | passes/lib/DuplicateBB.cpp:90-145 | the pass preserves well-formedness and meaning, splits every target in four, keeps the code of every other block, and reports whether it changed anything |
| DuplicateBB.AnalyseAndRun | passes/lib/DuplicateBB.cpp:90-145 | analysis and pass together do, for any choice of blocks; exactly the chosen blocks with a value that is an argument or defined in a strict dominator are split |
| Mba.AddIdentity | passes/lib/MBAAdd.cpp:105-132 | the expression built for an 8-bit add has its value, for all operands |
| Mba.AffineCancels | passes/lib/MBAAdd.cpp:98-132 | times 39 plus 23 times 151 plus 111 is the identity modulo 256 |
| Bits.XorPlusTwiceAnd | passes/lib/MBAAdd.cpp:121-128 | `(a ^ b) + 2 * (a & b) == a + b` for all natural numbers |
| Bits.BitAt | mem/uthash.h:441-444 | each bit of a conjunction, a disjunction and an exclusive or comes from that bit of both operands |
| Mba.SubIdentity | passes/lib/MBASub.cpp:72-76 | `(a + ~b) + 1` is `a - b` modulo `2^w`, for every width |
| Mba.AddMeaning | passes/lib/MBAAdd.cpp:107-140 | the inserted instructions leave the sum modulo 256 in the old register and change no other old register |
| Mba.SubMeaning | passes/lib/MBASub.cpp:72-84 | the same for a subtraction, modulo `2^w` at its own width `w` |
| Mba.RewritePreserves | passes/lib/MBAAdd.cpp:74-145 | for any block and any selection, every original register, the trace and failures are preserved |
| Mba.RewrittenExtends | passes/lib/MBAAdd.cpp:58-147 | a rewritten block defines each old register once and otherwise fresh ones, and reads nothing that the old block could not read |
| Mba.RewrittenIs | passes/lib/MBAAdd.cpp:58-147 | which instructions are replaced, and by what: eight instructions for an 8-bit addition, three for a subtraction of any width; all others are kept as they are, in order |
| Mba.NoSubtraction | passes/lib/MBASub.cpp:54-89 | after the subtraction pass no integer subtraction is left |
| BodyForm.NewBodyWellFormed | passes/lib/MBASub.cpp:49-91 | a function stays well-formed when a body is extended in that way |
| Mba.PreservesCompose | passes/lib/MBASub.cpp:54-89 | rewriting what a pass has rewritten preserves the original registers too |
| Mba.RunOnBasicBlock | passes/lib/MBAAdd.cpp:58-147 | the iterator loop ends and never revisits what it inserted; the new block is the old one with exactly the selected additions, or all integer subtractions, replaced by their sequences, and "changed" is reported exactly if there were any |
| Mba.RunOnFunction | passes/lib/MBAAdd.cpp:58-147 | over all blocks, with the same exact replacements: the function means the same, and stays well-formed if it was |
| Mba.RunPasses | passes/lib/MBASub.cpp:49-91 | any sequence of both passes, with any selections for the additions, preserves the meaning and well-formedness, so the result can be analysed and duplicated next; each pass does its exact replacements |
| Mba.SubstitutedMeansSame | passes/lib/MBASub.cpp:49-91 | preserving every block's registers preserves all runs |
| CallSim.StepErases | passes/lib/DynamicCallCounter.cpp:156-177 | one original instruction is matched by one or two instrumented ones that differ in the counter only |
| CallSim.InstrumentedRun | passes/lib/DynamicCallCounter.cpp:156-177 | dropping the increments from the instrumented run gives the original run |
| CallSim.ExactCounts | passes/lib/DynamicCallCounter.cpp:160-174 | each counter equals, modulo 2^64, the entries into its function, callbacks included, or the executed direct call sites if it is only declared; its index is in range |
| CallSim.EveryPoint | passes/lib/DynamicCallCounter.cpp:156-177 | at every moment the instrumented run shows the view of some original moment, and its table is exact for it, or ahead by the direct call that comes next, or behind by the function just entered |
| CallSim.DeclaredCounter | passes/lib/DynamicCallCounter.cpp:208-217 | if the module declares the counter function itself, that function's own entry is wrong as soon as `main` is entered |
| CallCounter.StaticCount | passes/lib/StaticCallCounter.cpp:33-67 | the three nested loops count exactly the direct call sites of every function, and list no function without one |
| CallCounter.OccursAtPlaces | passes/lib/StaticCallCounter.cpp:38-64 | these counts are numbers of places: function, block and position of the instruction |
| CallCounter.StaticMatchesDynamic | passes/lib/DynamicCallCounter.cpp:156-223 | the instrumentation inserts one increment for each defined function and one per direct call site for each declared one |
| CallCounter.DynamicCallCounter.ComputeFunctionIDs | passes/lib/DynamicCallCounter.cpp:47-58 | ids are positions in the module |
| CallCounter.DynamicCallCounter.ComputeInternalFuncs | passes/lib/DynamicCallCounter.cpp:62-72 | exactly the functions with a body |
| CallCounter.DynamicCallCounter.CreateGlobalFunctionTable | passes/lib/DynamicCallCounter.cpp:94-118 | entry `i` has the name of function `i` and count zero |
| CallCounter.DynamicCallCounter.InstallIncrCC | passes/lib/DynamicCallCounter.cpp:182-192 | one increment is put first in the entry block |
| CallCounter.DynamicCallCounter.InstallCCInstruction | passes/lib/DynamicCallCounter.cpp:194-223 | an increment is put before direct calls of declared functions with an id, and nowhere else |
| CallCounter.DynamicCallCounter.InstrumentBlock | passes/lib/DynamicCallCounter.cpp:169-176 | the loop visits every original instruction of the block once |
| CallCounter.DynamicCallCounter.RunOnModule | passes/lib/DynamicCallCounter.cpp:122-180 | every module becomes its instrumented form, and each id leads to the table entry with the function's name |
| HashElems.ToBktIsMod | mem/uthash.h:441-444 | masking with a power of two minus one is the remainder |
| HashTable.Table.Find | mem/uthash.h:164-174 | an element with the key is found if and only if there is one |
| HashTable.Table.PushFront | mem/uthash.h:860-869 | adding to a bucket keeps all chains linked, counted, disjoint and placed by hash value |
| HashTable.Table.AddToBkt | mem/uthash.h:860-879 | the element joins its bucket only; the buckets are doubled exactly when its chain reaches ten times one more than the bucket's multiple and expansion is not inhibited, with all that an expansion does |
| HashTable.Table.MakeTable | mem/uthash.h:223-253 | a new table has 32 empty buckets |
| HashTable.Table.AppendList | mem/uthash.h:289-295 | the element becomes the last, in both link directions |
| HashTable.Table.Add | mem/uthash.h:407-426 | the table holds its elements in order and then the new one, and stays valid; a new table has 32 buckets, and any other doubles them exactly if the chain reaches its threshold and expansion is not inhibited |
| HashTable.Table.FirstGreater | mem/uthash.h:297-304 | the first element that compares greater |
| HashTable.Table.AddInorder | mem/uthash.h:361-392 | the new element is put before the first greater one; buckets grow as with `Add` |
| OrderedInsert.InsertIsOrdered | mem/uthash.h:361-392 | a sorted list stays sorted, the new item is last among its equals, the others keep their order |
| HashTable.Table.Replace | mem/uthash.h:265-273 | the element with the key, if there is one, leaves and is returned; the new one is appended; buckets grow from what is left as with `Add` |
| HashTable.Table.ReplaceInorder | mem/uthash.h:255-263 | the same with ordered insertion |
| HashTable.Table.RemoveFromList | mem/uthash.h:472-482 | unlinking keeps the others in order, with head and tail right |
| HashTable.Table.DelInBkt | mem/uthash.h:882-895 | unlinking from a chain keeps all chains right |
| HashTable.Table.Delete | mem/uthash.h:461-488 | the element leaves the list and its bucket, the rest keeps its order and nothing else of the table changes; with the last element the table goes |
| HashElems.RemovedAt | mem/uthash.h:461-488 | deleting an element leaves exactly what was before and behind it |
| HashTable.Table.CountItem | mem/uthash.h:949-954 | counting one more item keeps the excess over the ideal length, and as multiple the exact one for the chain's length |
| HashTable.Table.MoveTo | mem/uthash.h:946-961 | an element moves to the front of its new bucket; counters and chains stay right |
| HashTable.Table.Redistribute | mem/uthash.h:943-963 | all elements are moved, chain by chain, each next pointer read before it changes |
| HashElems.DoubleMask | mem/uthash.h:947 | bucket `j` of the doubled table draws from bucket `j` modulo the old number only |
| HashElems.SplitChains | mem/uthash.h:943-963 | each new chain is the part of one old chain that belongs to it, reversed |
| HashElems.Regrouped | mem/uthash.h:943-963 | no element is lost |
| HashElems.IdealIsCeil | mem/uthash.h:939-941 | the shift-and-mask form is the rounded-up quotient of items and buckets |
| HashElems.ExcessCounts | mem/uthash.h:949-954 | the excess counter is the number of items that have the ideal number or more before them in their chain |
| HashTable.Table.ExpandBuckets | mem/uthash.h:926-976 | expansion keeps the elements, sends chain `i` to `i` and `i + n` only, counts the items beyond the ideal length and sets each bucket's multiple; two ineffective expansions in a row inhibit further ones |
| MergeSort.SortIsStable | mem/uthash.h:983-1065 | the sort is a permutation, sorted, with equal items in their old order, for every total preorder |
| MergeSort.MergesIsCeil | mem/uthash.h:997-1052 | a pass makes as many merges as the list has blocks of two runs, rounded up |
| ListSort.Take | mem/uthash.h:1011-1038 | the next element is taken from the first run on ties, and from the other run when one is used up |
| ListSort.MergeRuns | mem/uthash.h:1009-1050 | two runs are merged by relinking; what is not consumed is untouched |
| ListSort.OnePass | mem/uthash.h:993-1055 | one pass merges neighbouring runs, relinks the whole list in both directions and counts its merges |
| ListSort.Sort | mem/uthash.h:983-1065 | the in-place sort ends and leaves the list linked in the order of the sort function |
| HashTable.Table.Sort | mem/uthash.h:983-1065 | the table stays valid; only `next`, `prev`, head and tail change, so chains are untouched |
| HashTable.Table.IterDelete | mem/uthash.h:1153-1155 | iteration visits every element present at the start once, in order, though the body deletes current ones; exactly the others remain, in order |
| HashElems.KeptOrder | mem/uthash.h:1153-1155 | what remains is a subsequence of the old elements that misses none that was not deleted |
| HashTable.Table.Clear | mem/uthash.h:1130-1139 | the table is gone, elements are not touched |
| HashTable.Table.Count | mem/uthash.h:1160 | the number of elements |
| HashTable.Table.CheckBucket | mem/uthash.h:533-551 | for any chain that can be walked, the check passes if and only if the bucket's count and all back links are right |
| HashTable.Table.Fsck | mem/uthash.h:526-573 | for any table that can be walked, the integrity check passes if and only if all counts and all back links are right |
| HashTable.Table.ValidIsSound | mem/uthash.h:526-573 | a valid table passes the check |
| HashTable.Table.AllCounted | mem/uthash.h:552-555 | the chains together hold as many elements as the list |
| TableRuns.LookupFinds | mem/uthash.h:164-174 | in the simple model, lookup finds an item exactly when its key is present |
| TableRuns.StepMeans | mem/uthash.h:265-273 | what every operation of the model does, element by element: what joins, what leaves, what is returned |
| TableRuns.StepUnique | mem/uthash.h:265-273 | every operation keeps keys distinct, given that keys are added once |
| TableRuns.Apply | mem/uthash.h:164-174 | each operation on the table does what the model does |
| TableRuns.Execute | mem/uthash.h:407-426 | every run of operations keeps the table valid and refines the model: same sequence, same results |
| Bloom.SetBit | mem/uthash.h:206-207 | setting a bit changes that bit only |
| Bloom.Filter.Add | mem/uthash.h:209-210 | the value joins the added ones: a bit is set if and only if it is the low bits of one of them |
| Bloom.Filter.Test | mem/uthash.h:212-213 | a test succeeds exactly if a value with the same low bits was added |
| FilteredTable.FilteredTable.Find | mem/uthash.h:164-174 | with the filter, lookup finds exactly what it finds without |
| FilteredTable.FilteredTable.MakeFilter | mem/uthash.h:188-199 | a new table gets an empty filter |
| FilteredTable.FilteredTable.Add | mem/uthash.h:348-355 | adding keeps the filter covering the table; its bits are those of a new or the old filter and the element's |
| FilteredTable.FilteredTable.AddInorder | mem/uthash.h:361-392 | the same for ordered insertion |
| FilteredTable.FilteredTable.Replace | mem/uthash.h:265-273 | replacing keeps it covering, also when the table goes away in between |
| FilteredTable.FilteredTable.ReplaceInorder | mem/uthash.h:255-263 | the same for ordered insertion |
| FilteredTable.FilteredTable.Delete | mem/uthash.h:461-488 | deleting leaves the filter alone, and with the last element it goes |
| FilteredTable.FilteredTable.Clear | mem/uthash.h:1130-1139 | the filter goes with the table |
| Tags.TagRoundTrip | mem/common.h:144-170 | the tags are 12, 10, 9 and 11 in the four top bits; tagging loses neither address nor store, tagged pointers are recognised and plain ones are not |
| Addresses.PageParts | mem/armor_runtime.cpp:452-454 | shift and mask give page index and offset, exactly, in 32 bits |
| Addresses.DropInPage | mem/armor_runtime.cpp:481-486 | the reported address is the faulting offset in the removed page if and only if the new page is not below it |
| Addresses.DropIndex | mem/armor_runtime.cpp:481-486 | its page index in 32 bits is the removed page's in every case |
| Store.OldestAbove | mem/armor_runtime.cpp:481-495 | a run of five misses leaves a buffer from which a page above the missing one is dropped, with an address outside it |
| PageCache.EvictKeeps | mem/armor_runtime.cpp:180-184 | evicting an unpinned page, with write-back, changes neither the flat memory nor other pages |
| PageCache.LoadKeeps | mem/armor_runtime.cpp:180-184 | neither does reading a page in |
| PageCache.Room | mem/armor_runtime.cpp:105 | five pinned pages always leave a frame to take |
| PageCache.OnlyPinsProtect | mem/armor_runtime.cpp:180-184 | a fault may take a resident page's frame exactly if the page is not pinned |
| PageCache.FaultKeeps | mem/armor_runtime.cpp:474-475 | whatever frame a fault takes, the cache stays in order, the flat memory the same, and pinned pages in place |
| PageCache.LostWrite | mem/armor_runtime.cpp:474-475 | a write through the address of a page that lost its frame lands in the page that took it |
| Links.LinkKeeps | mem/armor_runtime.cpp:456-497 | every possible outcome of a link keeps buffer and cache in order, the flat memory, and the buffer's pages; all pages if the linked one was resident |
| Links.SteadyKeeps | mem/armor_runtime.cpp:911-970 | in a steady state, an address outlives linking a page, any writes, and linking the page behind it |
| Links.StaysExactly | mem/armor_runtime.cpp:911-970 | over all choices of frames, it does exactly in a steady state |
| Links.UnsteadyWrites | mem/armor_runtime.cpp:911-970 | in any other state, for some choice of frames the second chunk's bytes land in the wrong page |
| Links.CopyFailsFrom | mem/armor_runtime.cpp:911-970 | such a state, and a copy of two bytes that goes wrong from there |
| Tlb.LastMisses | mem/armor_runtime.cpp:488-495 | the buffer holds the last five misses in order, all distinct |
| Tlb.SurvivesFourMisses | mem/armor_runtime.cpp:478-495 | a missed page stays through exactly the next four misses |
| Tlb.TouchKeeps | mem/armor_runtime.cpp:461-471 | a hit keeps all entries right and records a dirty access |
| Tlb.MissKeeps | mem/armor_runtime.cpp:478-497 | after a miss, entries are distinct, resident and pinned once; a dirty page that leaves is reported dirty |
| Tlb.StaysForTwo | mem/armor_runtime.cpp:456-497 | a page is pinned through the next two accesses except when it was the oldest and the next one misses |
| Store.Store.constructor | mem/armor_runtime.cpp:228-248 | a store starts with an empty buffer and the storage as its flat memory |
| Store.Store.Fault | mem/armor_runtime.cpp:474-475 | pages come and go without changing the flat memory, and pinned pages stay |
| Store.Store.FindEntry | mem/armor_runtime.cpp:459-471 | the lookup, comparing unsigned, finds the page exactly if it is in the buffer |
| Store.Store.Hit | mem/armor_runtime.cpp:462-469 | a hit gives the address that the page cache would give |
| Store.Store.DropOldest | mem/armor_runtime.cpp:481-486 | the oldest page is the one reported as dropped, with its dirty flag |
| Store.Store.FrameOfPointer | mem/armor_runtime.cpp:494 | the frame number kept in 16 bits is the frame of the address |
| Store.Store.Miss | mem/armor_runtime.cpp:474-501 | fault, drop, shift and pin, in this order, keep the store valid and every page of the buffer in place |
| Store.Store.Link | mem/armor_runtime.cpp:441-502 | linking gives the address of the byte, never changes the flat memory, and follows the first-in first-out history |
| Store.Store.Write | mem/armor_runtime.cpp:441-502 | writing where a dirty link points is writing to the flat memory |
| Store.Store.Read | mem/armor_runtime.cpp:441-502 | reading where a link points reads the flat memory |
| Store.Store.PageFault | mem/armor_runtime.cpp:504-528 | a further link leaves an address good whose page is in the buffer, and every address if it links a resident page |
| Store.Store.LinkAll | mem/armor_runtime.cpp:441-502 | over any run of links the buffer is the history of the pages accessed, and the flat memory never changes |
| CrossPage.NextPage | mem/armor_runtime.cpp:590-592 | the second part of a crossing access starts the next page |
| CrossPage.BounceBuffer.LinkBoth | mem/armor_runtime.cpp:590-592 | both pages of a crossing access are linked, and the first address is still good |
| CrossPage.BounceBuffer.LinkCrossPage | mem/armor_runtime.cpp:573-651 | a crossing access gets a copy of its bytes; any other gets its address; nothing changes |
| CrossPage.BounceBuffer.Writeback | mem/armor_runtime.cpp:530-556 | the buffer is written back to both pages as one flat write, and nothing else changes |
| CrossPage.BounceBuffer.StoreBytes | mem/armor_runtime.cpp:530-601 | link, update and write-back equal one flat write |
| CrossPage.BounceBuffer.LoadBytes | mem/armor_runtime.cpp:573-601 | a load returns the flat bytes and changes nothing |
| CrossPage.BounceBuffer.Execute | mem/armor_runtime.cpp:441-651 | every run of loads and stores refines a flat memory |
| FlatOps.ForwardIsMove | mem/armor_runtime.cpp:920-995 | chunks are as good as one move under the stated condition |
| FlatOps.ForwardExact | mem/armor_runtime.cpp:920-995 | and only then: otherwise some memory shows a difference |
| FlatOps.CompareMeans | mem/armor_runtime.cpp:1091-1094 | a comparison is decided by the first position where the ranges differ |
| Process.Process.Resolve | mem/armor_runtime.cpp:912-913 | linking one pointer leaves another good if it is in another area, its page is pinned, or the page linked was resident |
| MemWrappers.SteadyExactly | mem/armor_runtime.cpp:911-970 | the left link stays good to the end of the first chunk, whatever frames are taken, if and only if the start is steady |
| MemWrappers.LinkRanges | mem/armor_runtime.cpp:911-915 | from a steady start, both ranges are linked and stay good over the next link |
| MemWrappers.LeftInPage | mem/armor_runtime.cpp:921-924 | what is left in the page of a linked pointer, or the limit for native memory |
| MemWrappers.NextChunk | mem/armor_runtime.cpp:949-970 | relinking only at page ends keeps both pointers good, by alternation |
| MemWrappers.MemWrapper | mem/armor_runtime.cpp:876-998 | the chunk loop copies or compares like the flat function and touches nothing else |
| MemFunctions.Memcpy | mem/armor_runtime.cpp:1113-1118 | exactly the flat copy, byte by byte, for any page sizes, offsets and lengths |
| MemFunctions.Memmove | mem/armor_runtime.cpp:1106-1111 | the flat move, byte by byte, when chunks suffice; in one store always the forward move by chunks |
| MemFunctions.Memcmp | mem/armor_runtime.cpp:1120-1125 | zero if the ranges are equal; otherwise its sign is decided by the first position where they differ |
| MemFunctions.MemWrapperSingle | mem/armor_runtime.cpp:1000-1077 | the single-range loop fills or searches like the flat function |
| MemFunctions.ByteIs | mem/armor_runtime.cpp:1127-1139 | the byte is the one congruent to the argument modulo 256 |
| MemFunctions.Memset | mem/armor_runtime.cpp:1134-1139 | every byte of the range becomes the argument modulo 256, and no other byte changes |
| MemFunctions.Memchr | mem/armor_runtime.cpp:1127-1132 | a result is returned if and only if the argument modulo 256 occurs in the range, and it leads to the first occurrence |
| Iterations.NativeIterations | mem/armor_runtime.cpp:408-413 | a native pointer never has to be linked again: 2^30 |
| Iterations.BufferIterations | mem/armor_runtime.cpp:415-418 | in the bounce buffer, exactly the iterations that stay inside its copy are allowed: one |
| Iterations.BatchIs | mem/armor_runtime.cpp:420-438 | the exact batch: the quotient of what is left and the step, less one if the last access leaves the page, and at least one |
| Iterations.BatchIsSafe | mem/armor_runtime.cpp:420-438 | all iterations of a batch stay inside the page, at either sign of the step |
| Iterations.BatchSafeExactly | mem/armor_runtime.cpp:420-438 | batches are safe at every offset exactly if steps go down, an access is at most two steps long, or a page is shorter than three steps |
| Iterations.BatchAlmostMaximal | mem/armor_runtime.cpp:420-438 | a batch is at most one iteration short of the maximum, at every access size |
| Iterations.WideStepSafe | mem/armor_runtime.cpp:406-439 | with a step that does not fit an int, the iterations for a linked pointer are safe exactly if they are one |
| Iterations.WideStepFails | mem/armor_runtime.cpp:406-439 | a step of 2^32 + 1 gives 4096 iterations of which the second leaves the page |
| Iterations.IterationsAreSafe | mem/armor_runtime.cpp:406-439 | the iterations for a linked pointer stay in its page, for every safe 64-bit step |
| Iterations.IterationsSafeExactly | mem/armor_runtime.cpp:406-439 | at every linked pointer they do, exactly for the safe steps |
| LoopLinks.LinkLoop | mem/armor_runtime.cpp:406-601 | a loop's access is linked: one iteration exactly in the bounce buffer if it crosses a page, otherwise every allowed iteration finds its bytes at the linked address moved along |

## Left out

- Landing pads, exceptional edges, poison and undefined values: not part of the SSA language.
- Builder constant folding: new instructions are always inserted as instructions.
- Random numbers and ratios (`passes/lib/Ratio.cpp`): any choice is allowed instead.
- Globals as reachable values: the source mentions them in a comment and collects arguments only; the model follows the code.
- Pass registration, printing, statistics, `HelloWorld`, the command-line tools and `CommentTool`.
- CallSim.ExactCounts: a module that already declares or calls the runtime's counter function is not covered; `CallSim.DeclaredCounter` says what happens when it declares it.
- HashTable.Table: counts are unbounded numbers, so the wrap-around of 32-bit counters is not modelled; element and handle are one object; allocation never fails.
- `HASH_SELECT` (`mem/uthash.h:1072-1128`): it needs a second handle in each element, and never updates the destination's tail.
- The hash functions themselves, key emission and the out-of-memory branches of `mem/uthash.h`.
- Direct (uncached) stores, allocation, `realloc`, global initialisation and threads in `mem/armor_runtime.cpp`.
- Store 3: its cases fall through to `abort` (`mem/armor_runtime.cpp:710-713`, `868-872`), so processes have stores 0 to 2.
- Store.Store.Link: the tag is stripped before; tagged pointers are pairs of store and offset here, and `Tags` treats the encoding by itself.
- MemFunctions.Memcpy: for two ranges of one store it starts in a state that is `MemWrappers.Steady`, like the other two-range functions; from any other state the code can go wrong (`Links.UnsteadyWrites`).
- MemFunctions.Memset: a length that does not fit an int is worked off as the source's `int` counter does (`MemWrappers.EffLen`): lengths below 2^31 exactly.
- Iterations.ValidIterations: a step whose low 32 bits are zero divides by zero in the source (`mem/armor_runtime.cpp:421-423`), so it is not covered.
- `mem/memory.c`: its handles are not unique, since the counter is never incremented.
