# ExecuTorch: planning, layout, delegation, rewriting and tracing, verified

A Dafny model of the parts of ExecuTorch where a wrong step silently corrupts a program:

* the static memory planner (`exir/memory_planning.py`): lifetimes, the `greedy` and `naive`
  algorithms, the independent verifier, calls to free, and the recursion into control-flow
  submodules. The main result is a refinement: running on the packed buffers reads the same
  values as running with private storage for every tensor;
* tensor layout arithmetic (`exir/tensor.py`): strides, dim orders, aligned sizes;
* delegate extraction (`exir/lowered_backend_module.py`): signature, tables, outputs and
  getitem indices of a program that loses a partition to a delegate;
* two graph rewrites (`backends/transforms/`), over a small SSA graph with an evaluator and
  operators of arbitrary meaning;
* the ETDump runtime (`devtools/etdump/`): its allocator, its call protocol, and the debug
  buffer with its Python reader;
* the TOSA rescale arithmetic (`backends/arm/tosa_quant_utils.py`), over the reals.

Objects the source updates in place are classes (`SharedObject`, `TensorSpec`,
`ExportedProgram`, `IoVec`, `StaticAllocator`, `Generator`, `DebugLog`), its loops are
methods with loops, and each such method is proved against a specification function or
relation whose properties are the lemmas of the same component. `dafny verify dfyconfig.toml`
checks everything.

Some promises turn out to hold only under a condition. Each is stated as an if-and-only-if
over something a caller can look at beforehand, together with a concrete failing input:

* the scan for a shared object does not always return the closest size, although its
  documentation says so (`PickIsClosestIff`, `PickNeedNotBeClosest`);
* `greedy` rebuilds its totals only from the memories it sees, so a submodule that plans
  nothing in a memory in use lets a later one overlap an earlier one (`GreedyTreeIsSoundIff`,
  `EmptyBranchOverlapsParent`);
* merging view chains moves a computed shape to the head of the chain, which may come
  before the shape (`MergeViewCopyChains`, `SymbolicShapeOutOfReach`);
* a second getitem node on a consumed buffer mutation is renumbered onto another output
  (`SurvivorSelectsSameIff`, `SharedMutationIsMisread`);
* a consumed non-persistent buffer whose name is in both tables loses its constant
  (`ExtractionConservesIff`, `MisfiledBufferExample`);
* the plan verifier also looks at out-variant nodes, so it rejects a plan when such a node
  carries a spec of its own (`PlanAndVerify`, `UnlistedOutVariantFails`);
* the rescale arithmetic halves with a float division and cannot shift the result when the
  shift must also be clamped (`ComputeMultiplierAndShift`, `UnshiftableExample`).

## Model

| member | source | states |
|---|---|---|
| `SharedObjects.PickSharedObj` | exir/memory_planning.py:495-518 | one scan in place ends with exactly the segments and index of the closed form `Pick`: every record up to the pick is marked used until the tensor dies, only the pick grows, nothing else changes, a new object is appended only when none is free |
| `SharedObjects.PickIsUnique` | exir/memory_planning.py:495-518 | the closed form has one solution, so it fixes the outcome of the scan |
| `SharedObjects.PickInSizes` | exir/memory_planning.py:487-511 | the pick said in sizes and last uses only: free, every free segment before it farther from the wanted size, no free segment closer if it is larger than wanted, and no smaller free one before it that was the closest so far |
| `SharedObjects.PickMarks` | exir/memory_planning.py:495-518 | what the scan does to every segment, in sizes and last uses only: who grows, by how much, and who is in use until when |
| `SharedObjects.PickIsClosestIff` | exir/memory_planning.py:487-511 | the documented "closest size" holds if and only if no free segment behind the one that stops the scan is strictly closer |
| `SharedObjects.PickNeedNotBeClosest` | exir/memory_planning.py:487-511 | a concrete scan that does not return the closest segment |
| `GreedyPlan.PickKeeps` | exir/memory_planning.py:495-518 | no segment shrinks or is released early, the one picked was free for the whole lifetime and holds the tensor, and the total grows by at most the tensor |
| `GreedyPlan.SlotHolds` | exir/memory_planning.py:548-574 | after any number of later requests, in any order, every tensor still sits in a segment large enough and taken until its end |
| `GreedyPlan.SharersAreDisjointInTime` | exir/memory_planning.py:495-518 | tensors given the same segment never live at the same time, whatever order they came in |
| `GreedyPlan.GreedyInBounds` | exir/memory_planning.py:472-484 | every range lies between the starting size and the reported size of its memory |
| `GreedyPlan.DifferentSlotsAreApart` | exir/memory_planning.py:472-484 | different segments of a memory get disjoint byte ranges |
| `GreedyPlan.GreedyIsSafe` | exir/memory_planning.py:548-598 | for every request sequence, two tensors live at the same time in one memory get disjoint byte ranges |
| `GreedyPlan.SegmentsWithinDemand` | exir/memory_planning.py:495-518 | the segments of a memory add up to at most the bytes asked for |
| `GreedyPlan.PeakWithinSegments` | exir/memory_planning.py:548-598 | peak lower bound: at every index the bytes live together fit in what greedy adds to that memory |
| `NaivePlan.NaiveIsSafe` | exir/memory_planning.py:601-638 | naive ranges are pairwise disjoint and inside the reported sizes |
| `NaivePlan.GreedyAtMostNaive` | exir/memory_planning.py:548-638 | for the same requests and starting sizes greedy never reports more than naive, for any memory |
| `TensorSpecs.CalculateAlignedNumBytes` | exir/tensor.py:104-105 | the least multiple of the alignment that holds the bytes |
| `MemoryPlanning.MaterializeBuffer` | exir/memory_planning.py:472-484 | objects are laid out one after the other from the starting size on; the total is their sum |
| `MemoryPlanning.PlanObjects` | exir/memory_planning.py:555-574 | the first loop of greedy leaves the objects of the closed-form plan and the object of every spec |
| `MemoryPlanning.Materialize` | exir/memory_planning.py:575-588 | the totals per memory, zero for memories no spec uses |
| `MemoryPlanning.GreedyAlgo` | exir/memory_planning.py:548-598 | the whole algorithm on spec objects: every spec ends with the memory, object and offset of the plan, and the sizes reported are the plan's |
| `MemoryPlanning.AllocateBuf` | exir/memory_planning.py:611-620 | grows the size list to the memory id and bumps that memory |
| `MemoryPlanning.NaiveAlgo` | exir/memory_planning.py:601-638 | the whole naive algorithm on spec objects: offsets and sizes of the naive plan |
| `PlanVerifier.HasOverlap` | exir/memory_planning.py:71-83 | true if and only if the closed intervals share a point |
| `PlanVerifier.VerifyStorageReuse` | exir/memory_planning.py:120-174 | raises exactly when some pair is objectionable: only one of them has an object, one in the same memory has no offset, or they share a byte while live at once (unless allowed) or in different objects; otherwise counts the pairs that share a byte |
| `PlanVerifier.CheckPairIs` | exir/memory_planning.py:146-170 | the check of one pair raises, or counts it, exactly as the bytes, nodes and objects of the two say |
| `PlanVerifier.UnsafePairIsRefused` | exir/memory_planning.py:158-163 | two specs on the same bytes of one object, both live at node 1: refused, and counted when that is allowed |
| `PlanVerifier.GreedyIsAccepted` | exir/memory_planning.py:146-174 | the pairwise check raises on no pair of specs that greedy placed, and counts only pairs in the same shared object |
| `PlanVerifier.NaiveIsAccepted` | exir/memory_planning.py:146-174 | nor on a pair that naive placed, and it counts none |
| `PlanCheck.CollectionsAgreeIff` | exir/memory_planning.py:133-144 | the verifier collects its specs anew: it sees everything that was planned, and nothing else if and only if every spec an out-variant node carries is listed by another node too |
| `PlanCheck.VerdictIff` | exir/memory_planning.py:146-174 | the verdict on a list with specs that were never placed: accepted if and only if each of those has a memory id to itself, and greedy placed nothing |
| `PlanCheck.PlanAndVerify` | exir/passes/memory_planning_pass.py:98-125 | planning a fresh graph and then verifying it with the verifier's own collection passes exactly on the graphs of `Verifiable`, read off before planning; so it always passes when the specs of out-variant nodes are listed by their allocation nodes; the count is that of the reusing pairs of that collection |
| `PlanCheck.UnlistedOutVariantFails` | exir/memory_planning.py:133-150 | an out-variant node whose spec no other node carries: after greedy the check fails |
| `Execution.PlannedRunRefines` | exir/memory_planning.py:548-598 | every node run on flat buffers reads exactly what it reads when each tensor has its own storage, for any kernel, any initial contents and any safe plan |
| `Execution.GreedyRunRefines` | exir/memory_planning.py:548-598 | that refinement for the offsets greedy assigns, for tensors served in any order |
| `Execution.NaiveRunRefines` | exir/memory_planning.py:601-638 | that refinement for naive |
| `PlannedExecution.PlanGraph` | exir/memory_planning.py:548-638 | lifetimes, collection and either algorithm on one graph of fresh specs: every lifetime is the hull of the referring nodes, exactly the specs of the planning filter are served, each at the range of the plan, and no other spec is placed; fails exactly at an unexpected node |
| `PlannedExecution.CollectedIsToPlace` | exir/memory_planning.py:336-425 | what the planners' filter collects, said node by node without the filter |
| `PlannedExecution.UnexpectedIsOther` | exir/memory_planning.py:380-396 | the assertion fails exactly when it is on and some node with specs calls an operator of no known kind |
| `PlannedExecution.PlannedGraphRefines` | exir/memory_planning.py:428-638 | end to end, for either algorithm: on a graph that writes each tensor before reading it, run on buffers of the sizes reported, with the lifetimes and offsets so computed, every node reads the values of private storage |
| `Lifetimes.CollectSpecsFromNodes` | exir/memory_planning.py:336-425 | yields each spec once, exactly those some node contributes under the filters; fails exactly at an unexpected node when assertions are on |
| `Lifetimes.UpdateTensorLifetime` | exir/memory_planning.py:271-284 | the new lifetime is the least one that covers the old one, if any, and the node |
| `Lifetimes.UpdateAllTensorsLifetime` | exir/memory_planning.py:428-449 | each lifetime becomes the hull of the old one and of the indices of all nodes that refer to the spec: that hold it themselves, or take a node that holds it as an argument |
| `Lifetimes.AroundIsReferred` | exir/memory_planning.py:437-447 | a node and its arguments contribute exactly what the node refers to: specs of nodes that are neither get_attr nor in-place, a view standing for its base |
| `Lifetimes.ArgumentsAreCovered` | exir/memory_planning.py:437-448 | every node that takes a holder of a spec as an argument is inside the lifetime of the spec |
| `Lifetimes.PlannedSpecsAreCovered` | exir/memory_planning.py:336-449 | every spec the planner serves is referred to by a node, so its lifetime covers its uses |
| `FreeInsertion.InsertCallsToFree` | exir/memory_planning.py:679-717 | original nodes stay in order; exactly the dynamic-unbound specs that are neither inputs nor returned get one free, between their last node and the next original node |
| `FreeInsertion.FreeUnbound` | exir/memory_planning.py:742-746 | lifetimes and frees together on fresh specs, said by references alone: exactly the freeable specs some node refers to get one free each, and it stands behind a node if and only if that node or a later one refers to the spec |
| `FreeInsertion.LayoutKeepsNodes` | exir/memory_planning.py:679-717 | the original order is kept |
| `FreeInsertion.LayoutFreesDead` | exir/memory_planning.py:659-717 | a spec is freed if and only if it is freeable and its lifetime ends inside |
| `FreeInsertion.LayoutFreesInPlace` | exir/memory_planning.py:679-717 | each free comes once and directly behind its node |
| `FreeInsertion.NoUseAfterFree` | exir/memory_planning.py:428-449 | no node after a free lies within the lifetime of the freed spec |
| `ModulePlan.ApplyIsFold` | exir/memory_planning.py:720-783 | the recursion over submodules is planning the modules one after the other in preorder |
| `ModulePlan.SizesProtect` | exir/memory_planning.py:720-783 | ranges of different modules are disjoint and contained in the final sizes, when sizes never shrink |
| `ModulePlan.NaiveTreeIsSound` | exir/memory_planning.py:611-638 | so for naive on every module tree |
| `ModulePlan.GreedyTreeIsSoundIff` | exir/memory_planning.py:575-588 | for greedy if and only if every module plans something in each memory an earlier module put bytes into |
| `ModulePlan.ForgottenMemoryIsReused` | exir/memory_planning.py:575-588 | otherwise two modules overlap or a range is outside the sizes |
| `ModulePlan.EmptyBranchOverlapsParent` | exir/memory_planning.py:720-783 | a conditional with an empty branch for which that happens |
| `ModulePlan.TreeIsAligned` | exir/tensor.py:104-157 | every size in the recursion is a multiple of the alignment |
| `ModulePlan.OwnPlanIsAligned` | exir/tensor.py:104-157 | every offset of a module is a multiple of the alignment |
| `ApplyAlgo.Apply` | exir/memory_planning.py:720-783 | on trees of spec objects: the sizes of the fold, and every spec of every submodule at its range, untouched by later submodules |
| `ApplySoundness.PlacedCarries` | exir/memory_planning.py:720-783 | what the recursion leaves on the specs of a tree are the ranges of the modules in planning order |
| `ApplySoundness.SpecsShowThePlan` | exir/memory_planning.py:720-783 | specs of different modules share no byte, and lie inside the sizes, exactly when the plan's ranges do |
| `ApplySoundness.SpecsAreAligned` | exir/tensor.py:104-157 | every spec of the tree ends at an offset that is a multiple of the alignment |
| `ApplySoundness.TreeIsWellAsked` | exir/tensor.py:104-157 | what the specs of a tree ask for after realignment is a multiple of the alignment in every module |
| `ApplySoundness.ApplyToTree` | exir/memory_planning.py:720-783 | a whole program: every spec placed and aligned, specs of a module that live together disjoint; specs of different modules disjoint and inside the reported sizes, always for naive, and for greedy if and only if every module plans something in each memory an earlier one put bytes into |
| `TensorLayout.StrideFromDimOrder` | exir/tensor.py:79-101 | each dimension steps over the volume of those inside it, empty dimensions counting as one |
| `TensorLayout.ContiguousStrideFromShape` | exir/tensor.py:37-50 | the strides of the identity order |
| `TensorLayout.LayoutIsDense` | exir/tensor.py:79-101 | the strides of any permutation map in-range index vectors one-to-one onto 0 .. number of elements - 1 |
| `TensorLayout.ElementsFitInBytes` | exir/tensor.py:29-34 | every element lies inside the byte count of the shape |
| `DimOrder.DimOrderIsSorted` | exir/tensor.py:53-76 | a stable sort by descending stride; fails exactly on a zero stride |
| `DimOrder.DimOrderIsUnique` | exir/tensor.py:53-76 | there is only one such order |
| `DimOrder.RoundTripAddresses` | exir/tensor.py:53-101 | strides, to order, to strides again give every index vector the same address |
| `DimOrder.RoundTripOrderIff` | exir/tensor.py:53-101 | the order itself comes back if and only if each dimension of size one or zero comes directly after a dimension of smaller number |
| `DimOrder.ContiguousIsIdentity` | exir/tensor.py:37-76 | contiguous strides, empty dimensions included, give the identity order |
| `DimOrder.StridesAreUnique` | exir/tensor.py:79-101 | an order has one stride vector, so contiguous strides are reproduced exactly |
| `DelegateInputs.GetNewInputs` | exir/lowered_backend_module.py:497-556 | one spec per placeholder in order; the delegate's tables hold exactly what the consumed specs name, unchanged; fails exactly when a consumed spec is not stored where its kind says |
| `DelegateInputs.ArrangePlaceholders` | exir/lowered_backend_module.py:390-413 | three lists filled in one pass and joined: the placeholders of parameters, of buffers, and all others |
| `DelegateInputs.ArrangedIsStable` | exir/lowered_backend_module.py:390-413 | the same placeholders once each, sorted by kind, each kind in the order it had |
| `DelegateOutputs.GetNewOutputs` | exir/lowered_backend_module.py:492-640 | one output spec per delegate output, a mutation exactly where a consumed buffer is mutated; exactly those outputs are to be deleted; fails exactly on the asserted cases |
| `DelegateOutputs.Renumber` | exir/lowered_backend_module.py:935-943 | the loop subtracts the number of deleted indices below the index |
| `DelegateOutputs.DeletionsAgree` | exir/lowered_backend_module.py:919-930 | the getitem nodes deleted from the program sit at exactly the mutations the delegate consumes, one at each |
| `DelegateOutputs.RenumberSelectsSame` | exir/lowered_backend_module.py:932-943 | a renumbered index selects the same output among those still returned, if and only if that output was not consumed |
| `DelegateOutputs.SurvivorSelectsSameIff` | exir/lowered_backend_module.py:558-640 | across both functions: a getitem node that stays, of positive or negative index, selects the value it selected before: from the front if and only if its item is not a consumed mutation, from the end, where nothing is renumbered, if and only if no output from its item on is |
| `DelegateOutputs.FromTheEnd` | exir/lowered_backend_module.py:932-943 | the j-th returned output from the end is the j-th output from the end, if and only if the last j outputs are all returned |
| `DelegateOutputs.SharedMutationIsMisread` | exir/lowered_backend_module.py:919-943 | a program with two getitem nodes on one consumed mutation: it is accepted, and the second node then reads another output |
| `DelegateExtraction.DropConsumed` | exir/lowered_backend_module.py:881-898 | deletes exactly the entries of consumed specs no remaining spec names; fails exactly on a missing entry, a repeated one, or a kind without a table |
| `DelegateExtraction.ExtractionConservesIff` | exir/lowered_backend_module.py:853-898 | every parameter, buffer and constant is held with its value by the delegate or the program, if and only if no consumed non-persistent buffer is also named in the state table |
| `DelegateExtraction.MisfiledBufferExample` | exir/lowered_backend_module.py:890-894 | a program for which a constant is lost |
| `DelegateExtraction.RemainingSpecsResolve` | exir/lowered_backend_module.py:859-886 | input specs that stay find their entries unchanged |
| `DelegateExtraction.ConsumedSpecsResolve` | exir/lowered_backend_module.py:521-547 | input specs the delegate took find their entries, with the original value, in its tables |
| `DelegateExtraction.InputsStayAligned` | exir/lowered_backend_module.py:853-879 | placeholders and input specs stay in one-to-one order |
| `DelegateExtraction.OutputsStayAligned` | exir/lowered_backend_module.py:865-917 | output arguments and output specs stay in one-to-one order |
| `DelegateExtraction.MutationsDoFollow` | exir/lowered_backend_module.py:577-621 | mutations go with their buffers: an output leaves the program exactly when it mutates a buffer in the delegate's state through one of its items |
| `DelegateExtraction.ExportedProgram.RemoveInputs` | exir/lowered_backend_module.py:853-898 | the program object afterwards, and exactly when it raises |
| `DelegateExtraction.ExportedProgram.RemoveOutputs` | exir/lowered_backend_module.py:865-943 | the program object afterwards, and exactly when it raises |
| `DelegateExtraction.ExportedProgram.Extract` | exir/lowered_backend_module.py:843-943 | one whole extraction: both halves agree, inputs and outputs stay aligned, state is conserved under the exact condition; all fields afterwards; the program keeps every output but the mutations of buffers the delegate took, loses those it returned through an item of the delegate, and the delegate mutates nothing else; it fails if and only if a consumed spec is in the wrong table, an output assertion fails, or something cannot be removed |
| `FxGraph.ResultIsUnique` | backends/transforms/fuse_view_copy.py:14-40 | the run of an ordered graph is its only consistent valuation: what the rewrites are compared by |
| `FxGraph.EliminateDeadCode` | backends/transforms/fuse_view_copy.py:39-39 | what is left keeps its definition and order, every placeholder and output stays, and every other node left is an argument of some node |
| `FxGraph.LiveIsKept` | backends/transforms/fuse_view_copy.py:39-39 | dead code elimination keeps whatever an effect depends on |
| `FuseViewCopy.FindEnd` | backends/transforms/fuse_view_copy.py:24-31 | the walk stops at the end of the chain, because each step goes forward in the list |
| `FuseViewCopy.MergeIsConsistent` | backends/transforms/fuse_view_copy.py:33-37 | merging one chain keeps every node but the end consistent, with the end's value now at the head |
| `FuseViewCopy.MergeChains` | backends/transforms/fuse_view_copy.py:21-37 | mutating arguments and uses while iterating gives, for every meaning of the operators, each argument the value it had |
| `FuseViewCopy.MergedIsOrderedIff` | backends/transforms/fuse_view_copy.py:33-39 | the list stays topologically ordered if and only if each merged shape is computed before the head of its chain |
| `FuseViewCopy.MergeViewCopyChains` | backends/transforms/fuse_view_copy.py:14-40 | the pass succeeds exactly under that condition, and then every graph output keeps its values, every view that only continued a chain is gone, and the views left have the shape of the end of their chain |
| `FuseViewCopy.TailIsDropped` | backends/transforms/fuse_view_copy.py:33-39 | after merging, the views behind the head of a chain are used by each other only, so none survives dead code elimination |
| `FuseViewCopy.SymbolicShapeOutOfReach` | backends/transforms/fuse_view_copy.py:33-39 | a graph with a computed shape for which it does not |
| `Duplication.FoldKeepsOutputs` | backends/transforms/duplicate_dynamic_quant_chain.py:39-49 | a graph that folds back onto the original returns the same outputs, whatever the operators compute |
| `Duplication.CopyIsSound` | backends/transforms/duplicate_dynamic_quant_chain.py:80-84 | a copied node keeps the fold and the order |
| `Duplication.ReplaceIsSound` | backends/transforms/duplicate_dynamic_quant_chain.py:39-49 | so does redirecting one user to a copy |
| `Duplication.LateCopyBreaksOrder` | backends/transforms/duplicate_dynamic_quant_chain.py:80-84 | a copy placed before one of its inputs leaves the list out of order |
| `DuplicateQuantChain.CopyForUsers` | backends/transforms/duplicate_dynamic_quant_chain.py:109-136 | copies for the users one by one until one is not annotated; every user served has a copy of its own |
| `DuplicateQuantChain.ClonesAreOwn` | backends/transforms/duplicate_dynamic_quant_chain.py:109-114 | a copy is read by its own user and nobody else |
| `DuplicateQuantChain.QParamsAreSound` | backends/transforms/duplicate_dynamic_quant_chain.py:80-103 | copying items and parameters for a pair keeps the fold and the order |
| `DuplicateQuantChain.ServedIsOwn` | backends/transforms/duplicate_dynamic_quant_chain.py:80-103 | the pair just served has items and parameters of its own: quantize and dequantize node read the copies exactly where they read the items, and the items no longer |
| `DuplicateQuantChain.ServedKeepsOwn` | backends/transforms/duplicate_dynamic_quant_chain.py:80-103 | pairs served before keep theirs, and still read no original item |
| `QuantChainPairs.CollectPairs` | backends/transforms/duplicate_dynamic_quant_chain.py:67-78 | collects exactly the quantize users with their one dequantize user; fails exactly when one has not exactly one, or another kind |
| `QuantChainPairs.ServePairs` | backends/transforms/duplicate_dynamic_quant_chain.py:80-103 | all pairs served, one after the other, none disturbing another: every pair reads its own copies only, and copies and pairs are defined as the originals were, with each read redirected |
| `QuantChainPairs.RedefinedPairs` | backends/transforms/duplicate_dynamic_quant_chain.py:80-103 | how the items, the parameters, the quantize and the dequantize node of every pair served so far are defined, in terms of the graph before the loop |
| `DuplicateQuantChain.FirstCopiesStay` | backends/transforms/duplicate_dynamic_quant_chain.py:92-103 | a dequantize node that belongs to two pairs keeps reading the copies of the pair served first |
| `QuantChainCounts.AfterReplication` | backends/transforms/duplicate_dynamic_quant_chain.py:109-117 | a node copied for all its users goes, its copies take its place, and no other node gains or loses a user |
| `QuantChainCounts.CopiesReplace` | backends/transforms/duplicate_dynamic_quant_chain.py:109-117 | one phase on a graph without dead code: the copies stand where the node stood, one for each user, and everything else keeps its operator, its users and its order |
| `QuantChainCounts.FirstCountIff` | backends/transforms/duplicate_dynamic_quant_chain.py:128-143 | after the first phase the quantize node has one user per user of the dequantize node, if and only if the dequantize node was its only user |
| `QuantChainCounts.SecondCountIff` | backends/transforms/duplicate_dynamic_quant_chain.py:144-155 | after the second phase an item has twice that many users, if and only if it was read by the pair, or by as many others as make up for it |
| `QuantChainCounts.AllAcceptableIff` | backends/transforms/duplicate_dynamic_quant_chain.py:67-78 | after both phases every quantize user of the first item has one dequantize user, if and only if the other quantize users had |
| `QuantChainPass.ThirdIff` | backends/transforms/duplicate_dynamic_quant_chain.py:50-106 | the third phase succeeds on the graph the first two leave, if and only if a condition on the original graph holds |
| `QuantChainPass.UsersStay` | backends/transforms/duplicate_dynamic_quant_chain.py:105-106 | the last dead code elimination removes none of the users |
| `QuantChainPass.OwnReads` | backends/transforms/duplicate_dynamic_quant_chain.py:87-103 | what such a chain reads: its dequantize node has the copied items exactly where the original had the items, and no node of the original chain |
| `QuantChainPass.UnsharedCompletes` | backends/transforms/duplicate_dynamic_quant_chain.py:120-157 | a chain that nothing else uses meets the condition for completing |
| `QuantChainPass.MaybeDuplicateChain` | backends/transforms/duplicate_dynamic_quant_chain.py:120-157 | the three phases: topologically ordered and every output kept however it ends without an error; stops exactly at a user without annotation; on completion the old quantize and dequantize nodes are gone and each remaining user of the dequantize node reads through new copies of choose_qparams, both items, quantize and dequantize node that nobody else reads, that are defined as the originals with every read of the chain redirected, and that read no original item; with all users annotated, and no dead code to begin with, it completes exactly on the chains of `Completes`, read off the original graph, keeps every user, and the dequantize node reads no second quantize node on the first item |
| `EtdumpAllocator.ChunkSize` | devtools/etdump/emitter.cpp:75-77 | the first doubling that holds the request; less than twice the request if it doubled |
| `EtdumpAllocator.ChunkIsUnique` | devtools/etdump/emitter.cpp:48-77 | that size is determined by hint and request |
| `EtdumpAllocator.StaticAllocator.Allocate` | devtools/etdump/emitter.cpp:27-121 | live buffers stay disjoint and inside the allocated part; a grow keeps the contents, in place for the buffer that ends at the top and at the top for any other, and no byte in use changes; how far the top moves; a failing call changes nothing and fails only for lack of room; new bytes are zeroed on request |
| `EtdumpAllocator.StaticAllocator.LiveAreDisjoint` | devtools/etdump/emitter.cpp:79-121 | no byte belongs to two live buffers, and each is below the top |
| `EtdumpAllocator.StaticAllocator.Serve` | devtools/etdump/emitter.cpp:27-121 | over every run of requests; a buffer no request names keeps its place and bytes |
| `EtdumpGen.AllocatorsOnceAndFirst` | devtools/etdump/etdump_flatcc.cpp:172-183 | in any accepted sequence of builder actions a block lists allocators at most once, before its events |
| `EtdumpGen.ElementsAreInside` | devtools/etdump/etdump_flatcc.cpp:172-198 | in any accepted sequence events and allocators are only added to, and only close, a vector of theirs that was opened with nothing else in between |
| `EtdumpGen.Generator.DoReset` | devtools/etdump/etdump_flatcc.cpp:141-150 | reset opens the four frames of the initial state |
| `EtdumpGen.Generator.CreateEventBlock` | devtools/etdump/etdump_flatcc.cpp:152-167 | frames stay balanced unless the allocators vector is still open; then the builder breaks |
| `EtdumpGen.Generator.CheckReadyToAddEvents` | devtools/etdump/etdump_flatcc.cpp:187-198 | closes the allocators before opening the events; aborts exactly outside a block |
| `EtdumpGen.Generator.TrackOneAllocator` | devtools/etdump/etdump_flatcc.cpp:445-456 | opens the allocators once; aborts exactly when events were added or there is no block |
| `EtdumpGen.Generator.GetEtdumpData` | devtools/etdump/etdump_flatcc.cpp:468-496 | closes everything; the file holds one run-data table per block; a second call in a row breaks the builder |
| `EtdumpGen.Generator.Serve` | devtools/etdump/etdump_flatcc.cpp:141-496 | over every run of calls, starts of delegate events included: balanced after each call, and broken exactly at the first unguarded one |
| `DebugBuffer.AlignPointer` | devtools/etdump/etdump_flatcc.cpp:95-103 | the next multiple of 64 |
| `DebugBuffer.BitsAlign` | devtools/etdump/etdump_flatcc.cpp:95-103 | the bit operations compute that multiple on 64-bit words |
| `DebugBuffer.ProductSplits` | devtools/inspector/_inspector_utils.py:129-149 | the number of elements is multiplicative over the dimensions |
| `DebugBuffer.LogGrows` | devtools/etdump/etdump_flatcc.cpp:502-514 | logging one more tensor disturbs none logged before; offsets are aligned and never overlap |
| `DebugBuffer.ParseRecovers` | devtools/inspector/_inspector_utils.py:129-149 | the reader's slice recovers exactly the bytes logged |
| `DebugBuffer.DebugLog.CopyTensor` | devtools/etdump/etdump_flatcc.cpp:502-514 | one tensor; aborts exactly when it does not fit |
| `DebugBuffer.DebugLog.LogAll` | devtools/etdump/etdump_flatcc.cpp:502-514 | after any sequence of tensors the reader recovers every one, earlier ones included |
| `TosaRescale.RoundHalfEven` | backends/arm/tosa_quant_utils.py:147-147 | nearest integer, ties to even |
| `TosaRescale.Frexp` | backends/arm/tosa_quant_utils.py:143-143 | mantissa and exponent, for scales of any sign |
| `TosaRescale.Round` | backends/arm/tosa_quant_utils.py:143-159 | the multiplier is within half a unit of scale * 2^shift and in range, carry included |
| `TosaRescale.Clamped` | backends/arm/tosa_quant_utils.py:163-165 | where the shift exceeds 62 the multiplier is within one unit of scale * 2^62, and is the rounded one divided by the bits cut off, rounded down |
| `TosaRescale.ComputeMultiplierAndShift` | backends/arm/tosa_quant_utils.py:133-166 | 15 fraction bits and a 16-bit multiplier at width 16, 31 and 32 bits at width 32; shift at most 62; exact to half a unit with the top fraction bit set for positive scales, or clamped and off by less than one; rejects exactly the other widths, and cannot shift exactly when rounding carries and the shift exceeds 62 |
| `TosaRescale.CutIsFloor` | backends/arm/tosa_quant_utils.py:163-165 | cutting at most 31 bits gives the quotient by all the bits to cut, rounded down |
| `TosaRescale.RescaleUnshiftable` | backends/arm/tosa_quant_utils.py:133-166 | the call itself on (1 - 2^-40) * 2^-33 at width 32 cannot shift |
| `TosaRescale.UnshiftableIff` | backends/arm/tosa_quant_utils.py:151-165 | rounding carries and the shift then exceeds 62, if and only if the scale lies in the last half unit below some 2^e with e at most offset - 64 |
| `TosaRescale.UnshiftableExample` | backends/arm/tosa_quant_utils.py:151-165 | such a scale for 31 fraction bits: (1 - 2^-40) * 2^-33 |

## Left out

- FX, pytree, torch.export and flatcc internals: graphs are lists of nodes with ids and definitions, builder calls are abstract frames. Graphs of the two rewrites are values that a method reassigns, not linked node objects, so aliasing between node objects is not captured.
- In-place operators and mutable buffers kept across executions: the planner skips in-place nodes, and persistence across runs is decided elsewhere.
- SharedObjects.PickSharedObj: requests are taken in any order, so the order in which nodes yield specs does not matter to what is proved.
- ApplyAlgo.Apply: lifetimes and frees of each module are computed by `Lifetimes` and `FreeInsertion`, not inside the recursion; the order of submodules is a parameter. What the specs then show is in `ApplySoundness`.
- PlannedExecution.PlannedGraphRefines: straight-line graphs whose nodes touch only tensors they refer to; submodules and calls to free are covered by `ModulePlan` and `FreeInsertion`, not by the run.
- MemoryPlanning.NaiveAlgo: the size list is a value handed back, where the source extends the list object the enclosing module also holds; the sizes are the same.
- TensorSpecs.CalculateAlignedNumBytes: exact integer division instead of a floating-point quotient rounded up.
- 64-bit offsets in two halves (`make_allocation_info`), dtype tables, symbolic shapes: thin, easy members.
- FuseViewCopy.MergeViewCopyChains: a view keeps the data of its input and its shape depends on the number of elements and the requested shape only.
- QuantChainPass.MaybeDuplicateChain: one dequantize node at a time; the outer loop over the nodes and the annotation check itself are not modelled. On graphs with dead code the condition for completing is not stated, since the first elimination may then change any count. The own-chain clause asks that scale and zero point are two different items of the same parameters; the definition of the dequantize copy is stated where the dequantize node reads no second quantize node on the first item, which holds whenever the pass completes on a graph without dead code (otherwise see `FirstCopiesStay`). The order check at the start of dead code elimination is made before the copies are placed, which gives the same answer.
- DelegateExtraction.ExportedProgram.Extract: after an error the program may be half adjusted, as in the source, and nothing is said about it; erasing the placeholders and getitem nodes is on lists of names. `_validate` is not modelled.
- DelegateOutputs.GetNewOutputs: names of the delegate's users are distinct, as FX guarantees.
- EtdumpAllocator.StaticAllocator.Allocate: sizes are unbounded; a request above half the address space would make the doubling loop wrap around. `emitter_fn` is not modelled.
- EtdumpGen.Generator.Serve: contents of events and strings are not modelled; every event is one entry.
- DebugBuffer.ParseRecovers: bytes, not element values; an entry without an offset stands for the -1 recorded for an empty tensor.
- TosaRescale.ComputeMultiplierAndShift: real arithmetic instead of binary floating point, so a scale is any real number; the failing shift of a float is the outcome `CannotShift`.
- PlanCheck.PlanAndVerify: one graph, whose specs have no place yet; `verify_graph_input_output` is not modelled, and the alloc node specs of `_set_alloc_node_spec` are part of the graph given.
- Other transforms, partitioners, backends, inspector tables, code generation: plumbing, or dependent on code that is not visible.
