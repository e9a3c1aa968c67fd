# Verification of TAS-OPT

TAS-OPT rewrites packet-processing code: it turns acyclic control flow into a straight chain of
predicated blocks, wraps a per-packet function in a loop over argument arrays, and splits that loop
at prefetch points. The code it is written for, the TCP fast path of TAS, travels with it. This
project models these four cores in Dafny and proves what they are for.

**Control-flow linearization** (`IR`, `DepthFirst`, `PathAnalysis`, `ExitUnification`, `LinearForm`,
`Preservation`, `PhiPlacement`, `BlockPredication`). One intermediate representation and one interpreter serve both
sides. A block is a phi, an effect on memory, a store to the mask cell and a terminator; effects are
functions of memory, so the mask cell, which is not part of it, is fresh. The classes
`PacketPathAnalysis` and `BlockPredication` and the method `UnifyFunctionExitNodes` rewrite a
function in place, step by step as the passes do; each is tied to a function of the code it is given.
The main theorem, `LinearizationComputesAsMoved`, holds of every program the pass takes: the chain computes it
with its phis as moved. Mask ids are not unique (`StraightTailSharesId`), so it rests on
`IdsDoNotMisfire`: between a block and any of its successors, in reverse post-order, no block answers to
the id of that successor. That in turn rests on what depth-first order does to neighbours
(`TailChildFollows`). Moving a phi is not always right. `PhisPlacedIff` says exactly when it is, and
`LinearizationPreservesMeaning` follows. What depth-first order does to the two sides of a branch
(`FalseSideFirst`) decides which programs those are: the phis of `&&` and `||` move right as compilers
write them (`ShortCircuitPhi`), and that of `c ? a : b` gets its two values exchanged (`ConditionalPhi`,
`ChoiceIsSwapped`).

**Batching** (`LoopLang`, `Expansion`, `Batching`, `OriginalCalls`, `BatchMaking`). Loop bodies are
statements over scalars and arrays, run for one index. `Batching` takes the part of a function after its
batch marker; the reference is that part called once per element with arbitrary garbage in its locals.
The batched loop is always iteration with locals carried over and parameters left in the argument
arrays. All that callers see is what the calls leave if and only if a call does not depend on what its
locals start with and keeps its parameters (`BatchingIsIterationIff`), which defining locals before use
(`WellFormedIgnoresLocals`) and not assigning parameters (`UnwrittenParamsKept`) guarantee.
`OriginalCalls` compares with calls of the whole function, the code before the marker included, which a
batch runs once (`BatchIsOriginalCalls`).

**Loop splitting** (`Expansion`, `LoopFission`, `LoopGraph`, `LoopSplitting`, `LoopTraversal`). Loop
fission by commutation over the grid of segments and indices, with variables that cross a split
expanded to arrays of 32 elements; bodies cut right after each prefetch block and nowhere else; the loops themselves as blocks of a control-flow graph with one
shared index, where an access to an element that does not exist is a fault; the class `LoopSplitter`
that rewires them; and the pipeline of both passes, end to end, on graphs. Split code is right for
trip counts up to 32 and, when every iteration uses an expanded variable, for no others.

**TCP fast path** (`Ring`, `FastPath`, `FlowLaws`, `StreamTransfer`, `FlowRuns`, `FlowControl`, `FastFlows`), in
the build that keeps one out-of-order interval. `FastPath` follows the code of each entry point, in
32-bit arithmetic that wraps; `FlowLaws` states what each does to a flow, field by field, without
mentioning how. `StreamTransfer` keeps unbounded counters beside the flow; `FlowRuns` proves, over
every run of packets, application bumps, writes, sends and timeouts (sequence numbers as in section
3.4 of RFC 9293), that bytes received are the peer's bytes in place and that bytes sent again are the
bytes first sent. `FlowState` in `FastFlows` is the flow-state record with its two ring buffers as
arrays, one method per entry point, each proved equal to its function.

Conditions under which the code does not meet a property are stated exactly: `AllHaveIdsIff` and
`LookupsSucceedIff` (when branch targets have ids), `MovedPhiRightIff`, `PhisPlacedIff` and
`LinearizationRightIff` (when relocated phis are right), `BatchingIsIterationIff` (when a batch is its
calls), `SplittingIsSound`, `PipelineIsIteration` and `BatchAndSplit` (trip counts the expansion arrays can
serve), `BumpCheckRightIff` (ring lengths the check on receive bumps is made for), `ForwardBumpsTakenIff` and
`OldBumpsRefusedIff` (which bump numbers the ordering check takes). `ChoiceIsSwapped` shows a program whose
linearization returns the wrong value; `LeakyLocalDiffers`, `CountingDiffers`, `TallyingDiffers` and
`ClearedArgumentDiffers` functions whose batch differs from their calls; `DroppedSetIsNeeded` how the split loses blocks.

`dafny verify dfyconfig.toml` checks everything.

## Model

| member | source | states |
|---|---|---|
| DepthFirst.OrderIsTopological | src/PacketPathAnalysis.cpp:26-27 | on an acyclic graph without dead blocks, reverse post-order starts at the entry, lists every block exactly once, and every edge goes forward in it |
| DepthFirst.TailChildFollows | src/PacketPathAnalysis.cpp:26-50 | a block whose only way in is the only or last way out of another comes immediately after it in the order |
| DepthFirst.VisitTails | src/PacketPathAnalysis.cpp:26-27 | the depth-first search keeps that adjacency at every step |
| DepthFirst.JoinFollowsPred | src/BlockPredication.cpp:42-48 | what comes right before a join in the order is one of its predecessors, if no branch tries the join before a block that does anything but go there |
| DepthFirst.FalseSideFirst | src/BlockPredication.cpp:42-48 | every block of the false side of a branch, sides of any shape, comes before every block of its true side |
| PathAnalysis.PacketPathAnalysis.constructor | src/PacketPathAnalysis.h:16-24 | building the analysis object computes its ids from a counter that starts at 0 |
| PathAnalysis.PacketPathAnalysis.Calculate | src/PacketPathAnalysis.cpp:21-53 | the loop over the order leaves counter and map as the numbering defines them, and none for functions of up to two blocks |
| PathAnalysis.PacketPathAnalysis.Number | src/PacketPathAnalysis.cpp:28-51 | one iteration overwrites the ids of a join and of successors and nothing else |
| PathAnalysis.DecidingStep | src/PacketPathAnalysis.cpp:28-51 | the final id of a block comes from its own step if it is a join and else from the step of its only predecessor, and lies between the counters around that step |
| PathAnalysis.JoinIdIsFresh | src/PacketPathAnalysis.cpp:30-33 | a join gets a larger id than every block before it |
| PathAnalysis.FirstChildIdIsUnique | src/PacketPathAnalysis.cpp:46-51 | the first target of a branch, entered from there only, shares its id with no later block |
| PathAnalysis.StraightTailSharesId | src/PacketPathAnalysis.cpp:35-42 | ids are not unique: a straight block that is the last way out of a branch has the id of its successor |
| PathAnalysis.IdsDoNotMisfire | src/PacketPathAnalysis.cpp:26-52 | for every edge, no block strictly between its ends in the order has the id of its target, although ids are shared |
| PathAnalysis.AllHaveIdsIff | src/PacketPathAnalysis.cpp:22-43 | every block but the entry has an id if and only if there are more than two blocks and the entry branches two ways |
| PathAnalysis.OnlyChildHasNoId | src/PacketPathAnalysis.cpp:35-42 | the target of a straight entry gets no id, then or later |
| PathAnalysis.IdLaw | src/PacketPathAnalysis.cpp:28-51 | every id in closed form, from how many numbers the blocks before hand out: a join has the next number, the targets of a branch the next two, the only target of a join the next one, the only target of a straight block the last one handed out, and the only target of the entry none |
| ExitUnification.UnifyFunctionExitNodes | src/Util.cpp:390-455 | the in-place rewriting leaves the unified function and returns its only return block and its only unreachable block, if there are any |
| ExitUnification.UnifiedHasOneExit | src/Util.cpp:399-454 | one return block if there was any, one unreachable block if there was any, same entry |
| ExitUnification.UnifiedBlocks | src/Util.cpp:390-455 | block by block: several unreachable blocks get one new block to jump to, several return blocks another, whose phi takes in layout order the value of each; a single exit and every other block stay as they are |
| ExitUnification.UnificationKeepsMeaning | src/Util.cpp:416-454 | every run, however long, goes on, is undefined, or returns the same value and memory, at most two steps later |
| ExitUnification.PickReturn | src/Util.cpp:434-448 | the new phi yields for each old return block the value that block returned |
| LinearForm.ChainOf | src/BlockPredication.cpp:42-51 | the action blocks are all blocks but entry and unreachable, in an order where edges go forward, the return is last and every edge is clear of its target's id |
| LinearForm.LastReturns | src/BlockPredication.cpp:145-146 | the last action is the return block, so the last predicate may run it without a test |
| BlockPredication.LookupsSucceedIff | src/BlockPredication.cpp:31-40 | every id lookup of the pass succeeds if and only if the entry branches two ways among more than two blocks and there is at most one return and one unreachable block, as ids are computed before exits are unified |
| BlockPredication.BlockPredication.constructor | src/BlockPredication.h:37-39 | ids are those of the function before anything is rewritten |
| BlockPredication.BlockPredication.Run | src/BlockPredication.cpp:19-22 | the code left behind is the linearized code of the function found; in the layout every predicate stands immediately before its action and the program's blocks keep their order |
| BlockPredication.BlockPredication.LinearizeControlFlow | src/BlockPredication.cpp:24-65 | all steps together leave the linearized code, the list of actions, and one predicate each |
| BlockPredication.BlockPredication.FindActionBlocks | src/BlockPredication.cpp:25-51 | ids are stored in every branching block, and the action list is the order without the entry and the unreachable block, ending in the return block |
| BlockPredication.BlockPredication.SetPathIds | src/BlockPredication.cpp:33-40 | exactly the branching blocks get a store of the id of their target |
| BlockPredication.BlockPredication.SetPathIdCondition | src/BlockPredication.cpp:88-108 | a branch stores the id of its target, a conditional branch selects between two |
| BlockPredication.BlockPredication.CollectActionBlocks | src/BlockPredication.cpp:42-48 | the list holds the order, entry first, without the unreachable block |
| BlockPredication.BlockPredication.InsertPredicateBlocks | src/BlockPredication.cpp:122-128 | one empty predicate per action, inserted into the layout before it |
| BlockPredication.PredicatesLaidOut | src/BlockPredication.cpp:124-125 | insertion one after the other leaves every predicate immediately before its own action and the order of the program's blocks as it was |
| BlockPredication.BlockPredication.SetActionBlocksSuccessors | src/BlockPredication.cpp:110-120 | entry and actions fall through to the next predicate, the last action keeps its return |
| BlockPredication.BlockPredication.SetPredBlockSuccessors | src/BlockPredication.cpp:132-147 | each predicate tests for the id of its own action and else goes to the next, the last one goes to the return block |
| BlockPredication.BlockPredication.MovePhiNodeToPredicateBlock | src/BlockPredication.cpp:68-85 | the first incoming value moves to the edge from the predicate before, the second to the edge from the action before, and the action reads the moved phi |
| BlockPredication.StepsBuildChain | src/BlockPredication.cpp:53-64 | the steps, each stated by itself, add up to the chain the preservation proof runs |
| Preservation.FallTo | src/BlockPredication.cpp:135-143 | with the id of an action in the mask cell and a clear path, control falls through to its predicate and changes nothing |
| Preservation.MovedPhiAgrees | src/BlockPredication.cpp:68-85 | on every edge a run takes, the moved phi yields what the phi yields in the program with phis as moved |
| Preservation.Simulate | src/BlockPredication.cpp:110-147 | from matching states the chain runs the same actions as the program with phis as moved, to the same result, within two visits per block left |
| Preservation.LinearizationComputesAsMoved | src/BlockPredication.cpp:24-85 | for every program, memory and content of the mask cell, the chain visits the blocks of the program with phis as moved in the same order and returns the same value and memory, within two visits per block |
| Preservation.LinearizationPreservesMeaning | src/BlockPredication.cpp:24-65 | the same of the program itself, if every phi has the action just before as its second incoming block |
| Preservation.LinearizationRightIff | src/BlockPredication.cpp:24-85 | without that condition, for each memory: the chain is right if and only if the program with phis as moved ends as the program does |
| Preservation.ProgramLogIsWhole | src/BlockPredication.cpp:24-65 | a run of the program visits program blocks only, so comparing those loses nothing |
| Preservation.LinearGoesForward | src/BlockPredication.cpp:110-147 | every edge of the generated code goes forward |
| Preservation.LinearizedBlocks | src/BlockPredication.cpp:33-147 | the generated code block by block: every branch stores the id of the target it takes, every predicate compares with the id of its own action, actions fall through, phis are split between predicate and action, and nothing else changes |
| Preservation.NoBlockRunsTwice | src/BlockPredication.cpp:110-147 | the log of every run of the generated code, finished or not, lists no block twice |
| PhiPlacement.MovedPhiRightIff | src/BlockPredication.cpp:68-85 | a moved phi picks the right value on every edge into its block if and only if its second incoming block is the action just before in the chain |
| PhiPlacement.PhisPlacedIff | src/BlockPredication.cpp:68-85 | a function meets the condition of the preservation theorem if and only if each of its phis moves right |
| PhiPlacement.ShortCircuitPhi | src/BlockPredication.cpp:67-85 | the phi of a short-circuit expression moves right if and only if its second pair is that of the right operand |
| PhiPlacement.ConditionalPhi | src/BlockPredication.cpp:67-85 | the phi of a conditional expression, sides of any shape, moves right if and only if its second pair is that of the true side; with the true side first its two values are exchanged |
| PhiPlacement.ChoiceIsSwapped | src/BlockPredication.cpp:67-85 | a program the pass accepts: `asked ? yes : no` returns one value, its linearization the other, for every memory |
| LoopLang.ExecFrame | src/LoopSplitter.cpp:93-126 | a statement changes only cells of its write footprint |
| LoopLang.ExecAgree | src/LoopSplitter.cpp:93-126 | what a statement does depends only on its read footprint |
| LoopLang.SafeEndsAlike | src/BatchMaker.cpp:81-137 | a body that defines variables before use does the same whatever they held |
| Expansion.SubExec | src/BatchMaker.cpp:110-135 | with every use of a variable replaced by an array element, a statement does to the elements what it did to the variables |
| Expansion.ExpandLoop | src/LoopSplitter.cpp:22-41 | a loop whose body defines the expanded variables before use runs alike on variables and on elements, for every trip count, and makes no access outside the arrays for trip counts up to 32 |
| Expansion.InBoundsIff | src/LoopSplitter.cpp:26 | the footprint of a loop that uses an expanded variable stays inside the 32-slot array if and only if its trip count is at most 32 |
| Expansion.ExpandedLoopServes | src/LoopSplitter.cpp:26-36 | the expanded loop is defined for trip counts up to 32, and runs into an access that does not exist for every larger one if each iteration uses an expanded variable |
| LoopFission.Commute | src/LoopSplitter.cpp:117-126 | statements on disjoint data commute |
| LoopFission.SplitTwo | src/LoopSplitter.cpp:117-126 | all iterations of a first segment may run before all of a second, if different iterations do not interfere |
| LoopFission.SplitAll | src/LoopSplitter.cpp:93-126 | any number of segments: one loop equals one loop per segment, for every trip count |
| LoopFission.SplitServes | src/LoopSplitter.cpp:22-126 | the split loops together are defined for trip counts up to 32, and run into an access that does not exist for every larger one if each iteration uses an expanded variable |
| LoopFission.SplittingIsSound | src/LoopSplitter.cpp:22-126 | expansion and fission together finish with the memory of the original loop, but for the expanded variables and their arrays, for trip counts up to 32; if each iteration uses an expanded variable, if and only if the trip count is at most 32 |
| LoopFission.TextApartIsApart | src/LoopSplitter.cpp:93-126 | segments that touch data at the loop index and share only expanded scalars do not interfere once expanded |
| LoopFission.SplittingFromText | src/LoopSplitter.cpp:22-126 | splitting is sound under conditions read off the text of the original segments |
| LoopFission.IndexDataIsApart | src/LoopSplitter.cpp:93-126 | segments that touch data at the loop index and share no scalar either writes do not interfere |
| Batching.BatchingIsIterationIff | src/BatchMaker.cpp:81-206 | for every function after its marker, the batched loop leaves everything callers see, shared data, results and argument arrays, as calling it on each element in turn does, for every batch and whatever its locals start with, if and only if what a call leaves does not depend on its locals and no call changes its parameters |
| Batching.SharingIsIterationIff | src/BatchMaker.cpp:139-206 | shared data and results alone, if and only if what a call leaves there does not depend on its locals |
| Batching.ArgumentAfterBatch | src/BatchMaker.cpp:129-132 | element j of an argument array holds after the batch the value with which iteration j leaves the parameter; all others are untouched |
| Batching.UnwrittenParamsKept | src/BatchMaker.cpp:129-132 | a function that assigns no parameter, which can be checked before batching, keeps them |
| Batching.BatchIsLeftByCalls | src/BatchMaker.cpp:81-206 | for every function that sets its locals before use the batch leaves what calls leave: in shared data and results, in the arguments as if passed by reference, and in the arguments as passed by value if parameters are kept |
| Batching.ClearedArgumentDiffers | test/unittests/inputs/batchmaker_test5.c:5-17 | where a call sets its own copy of an argument to 0, the batch sets the caller's array element |
| Batching.WellFormedIgnoresLocals | src/BatchMaker.cpp:178-206 | a function that sets its locals before use, which can be checked before batching, does not depend on them |
| Batching.BatchingIsIteration | src/BatchMaker.cpp:81-206 | the same from any two memories that agree on shared data and on the arguments from some element on |
| Batching.BatchingCarriesLocals | src/BatchMaker.cpp:81-206 | without any condition on locals, batching is iteration of the body with locals carried over from the element before and parameters left in the argument arrays |
| Batching.LeakyLocalDiffers | src/BatchMaker.cpp:178-206 | a function that uses a local before setting it returns 1 when called and 2 as second element of a batch |
| Batching.LeakyUsesLocal | src/BatchMaker.cpp:178-206 | that function depends on its local |
| Batching.OutsideBatchUntouched | src/BatchMaker.cpp:159-165 | results and arguments at the batch size and beyond, or below 0, are unchanged |
| Batching.BatchingIsMap | src/BatchMaker.cpp:230-254 | the part after the marker, if it changes no shared data, is mapped: result i is its value on argument i |
| Batching.PipelineIsIteration | tools/tasopt.cpp:101-110 | batched and then split on any of its locals, the part after the marker finishes with all that its calls leave, arguments included, for batches up to 32; if each iteration uses an expanded variable, if and only if the batch size is at most 32 |
| Batching.PipelineIsMap | tools/tasopt.cpp:101-110 | the part after the marker, if it changes no shared data, is mapped by the pipeline: result i is its value on argument i |
| Batching.PipelineFromText | tools/tasopt.cpp:101-110 | the pipeline is right under conditions read off the text of the part after the marker |
| OriginalCalls.BatchIsOriginalCalls | src/BatchMaker.cpp:178-254 | running the code before the marker once and the batch after it leaves everything that calling the whole function on each element in turn leaves, for every batch, memory and garbage, if that code changes locals only and the part after sets what it uses of them, or reads what every call computes alike |
| OriginalCalls.BatchIsOriginalMap | src/BatchMaker.cpp:178-254 | result i of the batched function is the value of the whole original function on argument i, if it changes no shared data |
| OriginalCalls.PipelineIsOriginal | tools/tasopt.cpp:101-110 | batched and then split, everything is left as calls of the whole function leave it, for batches up to 32; if each iteration uses an expanded variable, if and only if the batch size is at most 32 |
| OriginalCalls.PipelineIsOriginalMap | tools/tasopt.cpp:101-110 | result i of the pipeline is the value of the whole original function on argument i |
| OriginalCalls.CountingDiffers | test/unittests/inputs/batchmaker_test3.c:13-20 | a function that sets its counter to 0 before the marker and counts after it sets its locals before use and returns 1 from every call, yet result j of every batch is j + 1 |
| OriginalCalls.TallyingDiffers | src/BatchMaker.cpp:178-206 | code before the marker that changes shared data takes effect once per batch and once per call, so batch and calls agree on it for one element only |
| BatchMaking.LoopFunction.SetSuccessor | src/Util.cpp:303-306 | one successor of one block changes |
| BatchMaking.TASForLoop.constructor | src/ForLoop.cpp:11-49 | preheader, header and latch are added between two blocks, entered on the false side of a conditional branch |
| BatchMaking.TASForLoop.SetLoopBody | src/ForLoop.cpp:57-63 | header and exiting block are rewired around a body |
| BatchMaking.ReplaceUses | src/BatchMaker.cpp:94-136 | replacing variables one after the other replaces them all, in every block but those kept |
| BatchMaking.SubTwice | src/BatchMaker.cpp:94-136 | replacing some variables and then others is replacing both |
| BatchMaking.BatchMaker.StoreRetValInPtrArg | src/BatchMaker.cpp:139-176 | the return becomes a store of its value to the result array and a jump to a new exit block |
| BatchMaking.BatchMaker.AddBatchLoop | src/BatchMaker.cpp:178-206 | the part after the marker becomes the body of a loop that leaves for the exit block, with statements unchanged |
| BatchMaking.BatchMaker.DoBatchTransform | src/BatchMaker.cpp:230-254 | the rewritten function is a loop whose body is the batched body, segment by segment |
| LoopGraph.LoopRuns | src/IRLoop.cpp:27-58 | preheader, header, body chain and latch run the body for the indices from 0 to the trip count, whatever the shared index held, up to the first access that does not exist |
| LoopGraph.StitchedRuns | src/LoopSplitter.cpp:110-115 | loops stitched exit to preheader run one after the other over all indices, up to the first access that does not exist |
| LoopGraph.OneEnd | src/LoopSplitter.cpp:110-115 | a run comes to rest in one state only, so a run that faults does not reach the exit |
| LoopGraph.PartsPartition | src/LoopSplitter.cpp:131-143 | cutting a chain loses and repeats nothing, leaves no part empty and yields as many parts as ends |
| LoopGraph.PartsCutAtEnds | src/LoopSplitter.cpp:131-143 | the parts in sequence are the chain, and each ends with an end block and contains no earlier one |
| LoopGraph.CutIsUnique | src/LoopSplitter.cpp:131-143 | there is only one such way to cut a chain |
| LoopGraph.PartsRunAsWhole | src/LoopSplitter.cpp:117-126 | the parts in sequence do what the whole body does |
| LoopSplitting.IRLoop.ConstructEmptyLoop | src/IRLoop.cpp:27-58 | a skeleton around an empty block, both header targets that block |
| LoopSplitting.IRLoop.SetExitBlock | src/IRLoop.h:51-53 | the false target of the header |
| LoopSplitting.IRLoop.SetLoopBlocks | src/IRLoop.cpp:60-66 | header to first block, last block to latch |
| LoopSplitting.LoopSplitter.TraverseLoopBody | src/LoopSplitter.cpp:131-143 | the walk collects the body in order, cut right after each end block and nowhere else |
| LoopSplitting.LoopSplitter.BuildLoops | src/LoopSplitter.cpp:101-108 | one new skeleton per annotated variable, the original loop last, nothing else changed |
| LoopSplitting.LoopSplitter.Stitch | src/LoopSplitter.cpp:110-115 | the entry goes to the first loop, every loop leaves for the next and the last for the old exit |
| LoopSplitting.LoopSplitter.DealOut | src/LoopSplitter.cpp:124-126 | every skeleton becomes a loop over its own part, statements unchanged |
| LoopSplitting.LoopSplitter.Run | src/LoopSplitter.cpp:68-129 | without a split point nothing changes; else there is one loop per part of the body, the parts being cut right after each end block and nowhere else, the entry block goes to the first loop and the last loop to the old exit, annotated variables are expanded, and all other blocks are as before |
| LoopSplitting.DealOne | src/IRLoop.cpp:60-66 | completing one loop leaves finished loops and waiting parts as they are |
| LoopSplitting.DroppedSetIsNeeded | src/LoopSplitter.cpp:121-122 | on a body that is a chain, taking off the last set leaves fewer sets than loops and loses the end of the body |
| LoopSplitting.SplitGraphIsSound | src/LoopSplitter.cpp:68-129 | the original graph reaches the exit; the split graph, run from the same memory, reaches it with the same memory but for the expanded variables for trip counts up to 32, and faults beyond if each iteration uses one |
| LoopSplitting.SplitRunIsCalls | tools/tasopt.cpp:101-110 | the split graph of a batched function reaches the exit with all that one call of the part after the marker per element leaves, arguments included, for batches up to 32, and faults beyond if each iteration uses an expanded variable |
| LoopSplitting.TextPartsAreApart | src/LoopSplitter.cpp:117-126 | parts of the original function that touch data at the index and share only parameters and expanded variables do not interfere after both passes |
| LoopSplitting.PipelineFromOriginal | tools/tasopt.cpp:101-110 | what both passes make of a function runs as the calls of the part after the marker, under conditions on the original function, up to 32 elements if it was split and, if each iteration uses an expanded variable, no further |
| LoopSplitting.EntryRunIsOriginal | tools/tasopt.cpp:101-110 | a run from the entry that computes the calls of the part after the marker computes the calls of the whole original function |
| LoopSplitting.OriginalOfGraph | src/BatchMaker.cpp:178-184 | cut at the marker and put together again, the function is the original one from its entry block on |
| LoopSplitting.CallIsRun | src/BatchMaker.cpp:178-184 | the reference is what the program does: a run of the original graph, its parameters set and anything in its locals, gets to the return block, which leaves the memory of the call and returns its value |
| LoopSplitting.BatchAndSplit | tools/tasopt.cpp:101-110 | running both passes in place leaves a function that, run from its entry, computes what calling the whole original function on each element in turn computes, arguments included: for every batch size and memory if it was not split, for batches up to 32 if it was, and it faults for every larger one if each iteration uses an expanded variable; whatever the code before the marker does, the loops compute the calls of the part after it |
| LoopTraversal.LoopBodyTraverser.Traverse | src/IRLoop.cpp:68-78 | on every graph, cyclic or not, the walk ends, lists no block twice, and lists exactly the blocks reachable from the start on paths that avoid the end and, after the start, the exit blocks; each block listed is the first successor still open of the latest block that has one |
| LoopTraversal.AllReached | src/IRLoop.cpp:68-78 | a list whose blocks are all explored holds everything reachable |
| LoopTraversal.DepthFirstIsUnique | src/IRLoop.cpp:68-78 | that order leaves no choice |
| Ring.SlotIsMod | test/unittests/inputs/fast_flows.c:180-183 | positions kept by conditional subtraction are positions modulo the ring length |
| Ring.WriteAt | test/unittests/inputs/fast_flows.c:823-836 | the split write puts byte j at pos + j modulo the length and changes nothing else |
| Ring.RoundTrip | test/unittests/inputs/fast_flows.c:807-836 | what is written at a position is read back from it |
| Ring.ByteAfterWrite | test/unittests/inputs/fast_flows.c:823-836 | within one window of a stream a write changes exactly the bytes it covers |
| FastPath.SeqPositionInside | test/unittests/inputs/fast_flows.c:839-848 | the position asserted at line 846 is inside the ring for every segment that fits the window |
| StreamTransfer.OutOfOrderKeepsRx | test/unittests/inputs/fast_flows.c:425-460 | starting the out-of-order interval, extending it at its front or its back, or dropping a segment keeps received bytes and interval in place |
| StreamTransfer.InOrderKeepsRx | test/unittests/inputs/fast_flows.c:504-557 | delivering in-order bytes, trimming the interval and absorbing it when caught up keeps everything in place |
| StreamTransfer.ReceiveKeepsRx | test/unittests/inputs/fast_flows.c:412-571 | so does every genuine segment, FIN included |
| FlowRuns.StepKeepsInv | test/unittests/inputs/fast_flows.c:104-848 | every event, packet, bump, write, send or timeout, keeps the whole invariant of both rings |
| FlowRuns.FreshIsInv | test/unittests/inputs/fast_flows.c:104-848 | a flow as set up satisfies it, for rings of any lengths |
| FlowRuns.ReassemblyIsCorrect | test/unittests/inputs/fast_flows.c:412-557 | after every run, each byte announced and not yet taken over, and each byte of the out-of-order interval before the FIN, is in its slot with the stream's value, and the interval lies in the window |
| FlowRuns.SegmentsAgree | test/unittests/inputs/fast_flows.c:170-197 | over every run, two segments that cover a sequence number carry the same byte there, through acks, resets and sending again |
| FlowRuns.FinByteStaysHidden | test/unittests/inputs/fast_flows.c:187-198 | the dummy byte of a FIN is never payload, and a send covers its sequence number if and only if it carries FIN |
| FlowRuns.ResetRewinds | test/unittests/inputs/fast_flows.c:1006-1022 | a reset goes back to the first unacknowledged byte, in sequence number and position, with all unacknowledged and unsent bytes available |
| FlowLaws.TimeoutLaw | test/unittests/inputs/fast_flows.c:758-783 | a timeout changes nothing if nothing is in flight, and else takes back sequence number, position and counts, remote window included, and forgets duplicates |
| FlowLaws.TimeoutStartsOver | test/unittests/inputs/fast_flows.c:758-783 | in every reachable state a timeout goes back to the first unacknowledged byte, with everything from there on waiting to be sent |
| FlowLaws.TransmitLaw | test/unittests/inputs/fast_flows.c:142-198 | a segment goes out if and only if the helper allows more than 0; payload and FIN together take exactly the smaller of that and one MSS, the payload is what waits in the ring, and sequence number, position, counts and log move by that number |
| FlowLaws.RunKeepsSized | test/unittests/inputs/fast_flows.c:166-170 | over every run each segment takes between one sequence number and one MSS of them |
| FlowLaws.AckLaw | test/unittests/inputs/fast_flows.c:373-410 | an ack of n bytes releases exactly n and forgets duplicates, a duplicate is counted, the third one rewinds and its packet is not looked at further |
| FlowLaws.SlowPathLaw | test/unittests/inputs/fast_flows.c:336-356 | the slow path is set for good exactly by odd flags without SYN, a packet for it changes nothing else, and the answer is -1 exactly for those packets |
| FlowLaws.AcceptedIff | test/unittests/inputs/fast_flows.c:676-716 | a bump is accepted if and only if its number is in order, a close has its dummy byte, and what it hands over and frees fits, in unbounded arithmetic |
| FlowLaws.BumpLaw | test/unittests/inputs/fast_flows.c:686-742 | an accepted bump adds exactly the bytes it says, none on a closed flow, and frees exactly the space it says; a refused one leaves its number unless stale |
| FlowLaws.StaleIff | test/unittests/inputs/fast_flows.c:676-686 | exactly which bump numbers are stale |
| FlowLaws.WindowUpdateLaw | test/unittests/inputs/fast_flows.c:744-752 | a window update goes out if and only if an accepted bump opens a closed window and nothing may be sent, and announces the space freed |
| FlowLaws.HandedLaw | test/unittests/inputs/fast_flows.c:686-740 | the data to send grows by exactly the number in an accepted bump on an open flow, and by nothing else; a close makes its last byte the dummy byte |
| FlowLaws.FillLaw | test/unittests/inputs/fast_flows.c:807-820 | what the application writes lies at its offset from the end of what it handed over, where the split read finds it, and nothing else changes |
| FlowLaws.WrittenIsHanded | test/unittests/inputs/fast_flows.c:703-740 | bytes written and then handed over are what the data to send grows by |
| FlowLaws.DroppedLaw | test/unittests/inputs/fast_flows.c:412-417 | a segment that trimming rejects changes nothing, and is acknowledged if it carries payload |
| FlowLaws.OutOfOrderLaw | test/unittests/inputs/fast_flows.c:425-460 | the rest of a segment that is not next in line becomes the out-of-order interval if there is none, the union with it if it touches either end, and is dropped else, with its bytes in their slots; nothing is announced, and it is acknowledged |
| FlowLaws.InOrderLaw | test/unittests/inputs/fast_flows.c:494-571 | the rest of a segment next in line is received, and the trimmed interval with it if and only if that starts at the new next byte; sequence number, position and window move by what is announced, the remote window becomes the one of the packet, and a FIN counts if and only if nothing is missing before it |
| FlowLaws.AfterFinLaw | test/unittests/inputs/fast_flows.c:494-502 | after the FIN a segment next in line brings a new remote window and nothing else |
| FlowLaws.InOrderRunDelivers | test/unittests/inputs/fast_flows.c:412-519 | over every run in which segments arrive in order, with anything else in between, the bytes announced grow by exactly their lengths |
| FlowLaws.ReorderedPairDelivers | test/unittests/inputs/fast_flows.c:425-553 | two adjacent segments that arrive in the wrong order are received whole all the same |
| FlowRuns.TransmitConserves | test/unittests/inputs/fast_flows.c:170-185 | bytes in flight or waiting change by what was handed over, which is the number in an accepted bump on an open flow and else nothing, less what was acknowledged, and always fit the ring |
| StreamTransfer.BumpKeepsTxInv | test/unittests/inputs/fast_flows.c:688-742 | an accepted bump hands over as many of the bytes the application wrote as it says, none on a closed flow, and a closing one makes the last of them the dummy byte |
| StreamTransfer.AckKeepsTxInv | test/unittests/inputs/fast_flows.c:377-410 | an ack releases exactly the bytes it acknowledges, and the third duplicate rewinds |
| StreamTransfer.SendIsOk | test/unittests/inputs/fast_flows.c:170-198 | a segment carries the data of its offsets and FIN exactly with the dummy byte |
| FlowRuns.UnreadBytesUntouched | test/unittests/inputs/fast_flows.c:412-557 | no packet at all, genuine or not, changes a byte the application has yet to read |
| FlowRuns.ReceiveBumpBoundIff | test/unittests/inputs/fast_flows.c:712-716 | the check against the transmit length keeps free receive space within the receive ring for every bump, with or without transmit bytes or a close, if and only if the transmit ring is no longer or nothing is free |
| FlowRuns.RoomierReceiveRefusesAll | test/unittests/inputs/fast_flows.c:712-716 | with more free receive space than the transmit ring is long every bump is refused, pure transmit bumps included, and leaves nothing but its number |
| FlowRuns.BumpCheckRightIff | test/unittests/inputs/fast_flows.c:712-716 | every legitimate bump is accepted if and only if the transmit ring is no shorter than the receive ring, no bump exceeds the receive ring if and only if it is no longer, and so the check is right if and only if both have one length |
| FlowControl.WindowConserved | test/unittests/inputs/fast_flows.c:504-557 | the window shrinks by exactly the bytes announced, for any packet, and acks never exceed what was sent |
| FlowControl.AcknowledgesReceived | test/unittests/inputs/fast_flows.c:172-198 | a segment acknowledges exactly the bytes received, plus the FIN, and advertises no more than is free |
| FlowControl.FinMeansAllReceived | test/unittests/inputs/fast_flows.c:559-571 | a FIN is announced only when every byte up to the end of its segment has been |
| FlowControl.DuplicateCounted | test/unittests/inputs/fast_flows.c:402-405 | a duplicate ack is counted and, unless it is the third, changes neither ring but for a FIN it carries, announces no bytes, and leaves other duplicates duplicates |
| FlowControl.ThirdDuplicateRewinds | test/unittests/inputs/fast_flows.c:402-409 | any three duplicate acks in a row, and no fewer, make everything unacknowledged available again and restart the count |
| FlowControl.ForwardBumpsTakenIff | test/unittests/inputs/fast_flows.c:676-686 | a bump number some distance ahead is taken from everywhere if and only if the distance is at most a quarter of the 16-bit space |
| FlowControl.OldBumpsRefusedIff | test/unittests/inputs/fast_flows.c:676-686 | a bump number some distance behind is refused from everywhere if and only if the distance is 1 to 32765 |
| FastFlows.FlowState.FlowTxRead | test/unittests/inputs/fast_flows.c:807-820 | the two copies yield the split read |
| FastFlows.FlowState.FlowRxWrite | test/unittests/inputs/fast_flows.c:822-836 | the two copies leave the split write |
| FastFlows.FlowState.FlowRxSeqWrite | test/unittests/inputs/fast_flows.c:839-848 | bytes land at the window offset of their sequence number, and the position assert holds |
| FastFlows.FlowState.FlowResetRetransmit | test/unittests/inputs/fast_flows.c:1006-1022 | the fields end as the reset defines them |
| FastFlows.FlowState.FastFlowsRetransmit | test/unittests/inputs/fast_flows.c:758-805 | nothing changes when nothing is in flight, else a reset |
| FastFlows.FlowState.FastFlowsQman | test/unittests/inputs/fast_flows.c:142-201 | state and segment are those of the send, the length asserted before a FIN is positive |
| FastFlows.FlowState.AcceptAck | test/unittests/inputs/fast_flows.c:377-410 | acks, duplicate acks and the early stop |
| FastFlows.FlowState.StoreOutOfOrder | test/unittests/inputs/fast_flows.c:425-460 | the out-of-order branch |
| FastFlows.FlowState.AcceptInOrder | test/unittests/inputs/fast_flows.c:504-557 | the in-order branch, both position asserts hold |
| FastFlows.FlowState.AcceptFin | test/unittests/inputs/fast_flows.c:559-571 | the FIN branch |
| FastFlows.FlowState.FastFlowsPacket | test/unittests/inputs/fast_flows.c:275-636 | flow, bumps and return value are those of packet processing, on every path |
| FastFlows.FlowState.CheckBump | test/unittests/inputs/fast_flows.c:676-716 | a bump is accepted exactly if it passes all checks, and its number stays behind unless it is stale |
| FastFlows.FlowState.FastFlowsBump | test/unittests/inputs/fast_flows.c:639-755 | flow and window update are those of the bump, for rings of any lengths; all bounds are kept unless the transmit ring is longer and receive space was free |

## Left out

- LoopSplitting.LoopSplitter.Run: does not take off the last set of blocks as lines 121-122 do; on a body that is a chain there is no extra set (`LoopGraph.PartsPartition`) and taking one off loses blocks (`LoopSplitting.DroppedSetIsNeeded`), so the intended partition is modelled.
- LoopSplitting.LoopSplitter.Stitch: the function's entry block is rewired as line 111 does, whether or not it led to the loop; blocks that stood between the two are then never reached, so the theorems about the whole pipeline take a batch marker in the entry block.
- LoopSplitting.LoopSplitter.SplitExpanded: one annotated variable per split is required of the caller, as the code makes one loop per variable and deals out one part per loop.
- LoopSplitting.LoopSplitter.TraverseLoopBody: bodies that branch between blocks, where the walk visits blocks more than once; branching inside a block is part of its statement.
- OriginalCalls.BatchIsOriginalCalls: code before the marker that changes shared data or parameters, which a batch does once and the calls do every time (`OriginalCalls.TallyingDiffers`).
- BatchMaking.BatchMaker.DoBatchTransform: one return at the end of a chain that starts at the batch marker; void functions and double-pointer arguments are not modelled.
- BatchMaking.BatchMaker.StoreRetValInPtrArg: several returns, where the code does not attach its new return instruction to the exit block.
- BatchMaking.BatchMaker.AddBatchLoop: several exiting blocks, which the code joins in one more block.
- Preservation.LinearizationComputesAsMoved: says nothing of runs that reach the unreachable block, which are undefined in the program too.
- LinearForm.ChainOf: cyclic control flow, switch terminators, phis of more than two values and several phis in one block; each block has a way on to the return; reachability of every block is stated as having a predecessor, on graphs without cycles.
- BlockPredication.BlockPredication.MovePhiNodeToPredicateBlock: one phi per block, where the code loops over several; the order of a predicate's predecessors is taken from the use list, latest edge first.
- ExitUnification.UnifyFunctionExitNodes: functions that return nothing, which get no phi, are those whose value is ignored.
- PathAnalysis.PacketPathAnalysis.Calculate: overflow of the 32-bit counter.
- LoopGraph.LoopRuns: overflow of the 32-bit loop index.
- FastPath.AckContract: `tcp_txavail`, `tcp_valid_rxack` and `tcp_trim_rxbuf` come from headers that are not part of this model and are known by contract: at most what is available, at most what is in flight, an interval inside the window.
- FlowRuns.StepKeepsInv: assumes that no byte of an arriving segment is a whole sequence space away from a place in the receive window, and, where the transmit ring is the longer one, that the application frees no more than it was given, which the check at line 713 then does not enforce (`FlowRuns.BumpCheckRightIff`).
- FlowRuns.ReassemblyIsCorrect: says nothing of out-of-order bytes stored after the FIN.
- The branch for acks of data not yet sent, locks, tracing, headers, checksums, timestamps, round-trip estimates, congestion counters, queue-manager calls and forwarding between cores.
- Decoding of annotations and detection of parameters, variables and use points; their results are inputs.
- Prefetch instructions, debug information, `CacheUsageInfo.cpp`, `ToolUtil.cpp`, the pass wrappers, and input and output: they do not change what the transformed code computes.
- `LoopBodyTraverser::traverseReverse`, which continues with the forward walk.
