# Verification of the command-graph planner, the pool allocator and the tensor compiler

This project models the parts of the accel library where a mistake is silent, and proves what they
promise. It has five subjects.

**The command-graph planner.** A recorder collects nodes that declare byte-range accesses. Building turns
them into dependency edges (with pruning of covered spans), the packed transitive closure, a queue-wide
barrier plan, an aliased layout of the transients, and extra barriers where transients hand memory over.
The model keeps that pipeline step for step (`Pending`, `Inference`, `Bitsets`, `Coverage`, `Barriers`,
`Ranges`, `Packing`, `Graph`), the recorder that feeds it (`Recorder`, `Recording`) and the binding of slots
afterwards (`Binding`, `Resolution`). A node is an arbitrary deterministic function from the bytes of its read ranges
to the bytes of all its write ranges (`Execution`). The central results are in `Agreement` and `Comparison`: every execution the
plan permits, over overlapping memory with arbitrary initial contents, gives every node the bytes it reads in
record order over private memory, and leaves every caller byte as record order leaves it; the optimized and the
conservative plan therefore agree; and no set of barrier positions that orders the same hazards is smaller.

**The general allocator.** Two-level segregated fit as classes on the heap: the physical block list, the
segregated free lists and the two bitmap levels (`Cells`, `PhysLists`, `FreeLists`, `ClassIndex`, `Openings`, `Looks`,
`Tlsf`), over the size-class arithmetic (`SizeClasses`). `Pool.Valid` says that the blocks tile the usable bytes
with no two adjacent free ones, that the lists hold exactly the free blocks, each in its class, that both bitmaps
mirror which lists are empty, and that the counters and the allocations handed out describe the live blocks.

**The tensor compiler.** Views (`Shapes`, `Views`), broadcasts that copies can materialize (`Broadcasts`), state
versions and the stale check (`Versions`, `StaleReads`), resolving outputs (`Outputs`), and lowering a recorded graph to
dispatches and copies (`TensorGraphs`, `Meanings`, `Machine`, `Lowering`, `LoweringSteps`, `TensorPlans`): a graph lowers
exactly when a stated condition holds, and running what was recorded leaves each tensor's value in each port that names
it and each state's last version in its port. Kernels are arbitrary functions.

**The protocols.** The lifecycle of graphs sharing a transient pool (`TransientPools`) and the chained serial
stream of a queue with cross-queue waits and staged host writes (`Streams`, `Staging`), as step systems in which a step is
one critical section.

**Two arithmetic cores.** Asymmetric 4-bit quantization over the reals, with its error bound and its packing
(`Nibbles`, `Int4`, `DotProducts`), and the mip and layer layout of a texture (`Mips`).

Where code and documentation differ the model follows the code. `covers` treats an empty range as covered
by anything around it while `overlaps` can fire for one (infer.go:123-140), so exact equalities about
ordering ask that no range be empty. Four promises are false as stated, and are proved with their exact condition:

- `LargestFree` is documented as the biggest allocation a pool can still serve (memory.go:120-125). Requests are
  rounded up a class, so a request for it is placed if and only if its unit count has no bit below its leading five
  (`Tlsf.AllocLargest`, from `Tlsf.Pool.LargestServed`). A new pool of 33 units refuses it (`Tlsf.LargestRefused`).
- The 4-bit error is documented as half a step (quant/int4.go:177-194). It is, if and only if the code was not clamped
  by more than half a step (`Int4.HalfStepExactly`). Weights 1000 and 1001 with a scale stored as 1092/16384 and a zero
  point stored as -15000 exceed it (`Int4.HalfStepExceeded`, `Int4.QuantizeFar`).
- Units are documented to run in the order Submit and Flush were called (transfer.go:213-251). A call takes its batch
  and joins the stream in two critical sections, so calls of different threads can cross (`Staging.CrossedCallers`). Batches
  run in the order they were taken if and only if none did (`Staging.OrderExactly`).
- An older state version is documented as what was there before the write, and refused when it is not
  (tensor/state.go:36-95). The refusal is made when the state is read, not when what was read is used, so every operand
  finds its version if and only if nothing overlapping was written between the version and the operator using it
  (`StaleReads.VersionsReadExactly`). Reading a state, writing it, and then using what was read fails
  (`StaleReads.OverwrittenRead`), and the builder records it (`StaleReads.ReadThenWrite`).

## Model

| member | source | states |
|---|---|---|
| `Recorders.Recorder.Slot` | record.go:389-406 | A slot is appended with its limit and mode unless the recording is already built; a built recording, a negative minimum count (kept as zero) and an element type of no size are each counted as an error. |
| `Recorders.Recorder.NewTransient` | record.go:409-431 | A transient with a positive byte count joins the recording; any other count, or a built recording, is an error and changes nothing else. |
| `Recorders.Recorder.SlotAccess` | record.go:352-371 | Accepted exactly when the range fits the slot's declared extent and the declared mode covers the use. |
| `Recorders.Recorder.DeclareTransient` | record.go:291-316 | Accepted exactly when the range lies inside the transient. |
| `Recorders.Recorder.Record` | record.go:247-272 | Appends one node; every transient's users, first writer, first and last use keep describing the recording exactly. |
| `Recorders.Recorder.Touch` | record.go:449-467 | One more declared access updates only the transient it names, and the bookkeeping of all of them describes the longer recording. |
| `Recording.UsersOfExact` | record.go:449-467 | A transient's user list holds exactly the nodes touching it, once each, in record order. |
| `Recording.FirstWriterExact` | record.go:449-467 | The writer kept for a transient is the first node that writes it, or none. |
| `Recorders.TieExactly` | alias.go:231-242 | The packing tie break is the first node to write the transient, or else the first to use it. |
| `Accesses.HazardRelations` | infer.go:123-132 | Sharing a byte always trips the interval test, and without empty ranges the two relations are equal. |
| `Accesses.HazardsExactly` | infer.go:123-140 | Which pairs are hazards, from declared modes, offsets and sizes alone; the interval test adds exactly the empty ranges strictly inside another. |
| `Pending.KeepUncovered` | infer.go:257-265 | Keeps, in order, exactly the spans the new one does not cover. |
| `Pending.Commit` | infer.go:236-255 | The pending state after an access: covered spans go, the access joins the readers or writers of its own resource. |
| `Pending.CommittedExactly` | infer.go:236-255 | A write leaves pending only what does not lie within it, and itself; a read leaves everything and joins the readers. |
| `Pending.CommitStep` | infer.go:236-255 | Committing an access after its node is linked keeps every earlier access represented: each byte is still pending under its node or one ordered after it. |
| `Pending.LinkedOrders` | infer.go:180-221 | A node linked against represented state is ordered after every earlier node it shares a written byte with. |
| `Inference.AddEdge` | infer.go:272-284 | Adds one edge to both adjacency lists, never twice and never from a node to itself, and nothing else. |
| `Inference.InferEdges` | infer.go:180-221 | Edges run forward and only between nodes whose ranges meet with a writer; every two nodes sharing a written byte are connected by a path. |
| `Inference.InferredClosure` | infer.go:180-265 | With no empty ranges, reachability over the pruned edges is exactly the transitive closure of byte conflicts between earlier and later nodes. |
| `Inference.AssertAcyclic` | infer.go:310-321 | The check against a builder defect cannot fail on inferred edges. |
| `Bitsets.AbsorbRow` | infer.go:334-353 | One row update sets the successor's bit, ors the successor's row in, and changes no other row. |
| `Bitsets.Reachability` | infer.go:334-353 | After the backward pass bit b of row a is set exactly when b is strictly reachable from a. |
| `Bitsets.FewestWords` | infer.go:334-340 | A row is the fewest 64-bit words that hold a bit per node. |
| `Bitsets.Reaches` | infer.go:356-362 | The word and shift lookup reads that bit. |
| `Ranges.SortByLo` | alias.go:150-229 | The ranges in order of their lower bounds, the same ones as often. |
| `Ranges.FirstGap` | alias.go:150-166 | Succeeds exactly when every byte of the wanted range is covered; otherwise the gap starts at the first byte that is not. |
| `Coverage.UncoveredRead` | alias.go:124-147 | Succeeds exactly when every byte read is written by a node ordered before the reader; otherwise names an unwritten byte that is read. |
| `Coverage.CheckTransientsAreWritten` | alias.go:89-107 | Accepts exactly the graphs in which every transient byte a node reads was written by a node ordered before it. |
| `Coverage.CoverageIsRecordOrder` | alias.go:89-147 | For inferred edges, written by an ordered node is the same as written by an earlier one. |
| `Barriers.RangeState.Update` | barrier.go:180-195 | The fields of one range keep saying whether it was written, and whether it was read since, since the last barrier. |
| `Barriers.ClearPending` | barrier.go:155-163 | After a barrier no range has anything pending. |
| `Barriers.CommitRange` | barrier.go:165-178 | Files an access under its exact range, so the states remember exactly what was accessed since the last barrier. |
| `Barriers.WalkNode` | barrier.go:83-145 | A node needs a barrier exactly when it conflicts with some node since the last one; the state afterwards starts at that barrier. |
| `Barriers.Plan` | barrier.go:67-153 | A barrier stands before the head and before exactly the nodes with a conflict still pending. |
| `Barriers.PlanSerial` | barrier.go:219-228 | A barrier before every node, which separates every hazard. |
| `Barriers.GreedySeparates` | barrier.go:67-153 | The plan puts a barrier between every two conflicting nodes. |
| `Barriers.Forced` | barrier.go:83-145 | The hazard behind each planned barrier puts a position of any separating plan after the previous barrier and no later than this one. |
| `Barriers.GreedyOptimal` | barrier.go:83-145 | Leaving the head aside, no separating set of positions is smaller than the plan. |
| `Packing.CompatibleApart` | alias.go:56-71 | Transients that may share bytes are never both in use at one record-order position. |
| `Packing.TestIsCompatible` | alias.go:56-71 | The test read from the packed closure is "all users of one precede all users of the other", one way or the other. |
| `Packing.PackingOrder` | alias.go:186-206 | The placing order is the transients, each once, larger first, earlier first writer among equals, and in recording order where both agree. |
| `Packing.RankExactly` | alias.go:186-206 | Any two transients in the order: larger first, then the earlier tie break, then recording order. |
| `Ranges.LowestFree` | alias.go:210-229 | The lowest aligned offset that meets no occupied range: every lower aligned one meets some. |
| `Packing.LowestFreeOffset` | alias.go:210-229 | The offset is aligned, disjoint from every incompatible placed transient, and no lower aligned offset is. |
| `Packing.PackTransients` | alias.go:186-206 | Incompatible transients get disjoint aligned ranges inside the pool, each the lowest the earlier ones leave, in rank order, in a pool no larger than the unaliased sum. |
| `Packing.PlaceConsecutively` | build.go:163-175 | Without aliasing each transient starts where the one before it ends. |
| `Packing.PeakBytes` | build.go:233-248 | The largest sum of aligned sizes in use at any one position. |
| `Packing.PeakWithinPool` | build.go:233-248 | The transients in use at one position occupy disjoint pool bytes, so the peak never exceeds the pool. |
| `Packing.PlanHandovers` | alias.go:254-279 | A barrier is added before exactly the later first user of every two transients sharing bytes; planned barriers stay. |
| `Packing.HandoverOrdered` | alias.go:254-285 | Transients sharing bytes are used strictly one after the other. |
| `Arith.AlignUpLeast` | build.go:369-374 | Rounding up gives the least multiple at or above a number. |
| `Arith.AlignUpFormula` | build.go:369-374 | Rounding up by counting is the quotient form the code computes. |
| `Arith.PowerIsDoubled` | internal/alloc/alloc.go:129-138 | The powers of two accepted as granularity or alignment are what doubling one gives. |
| `Graphs.PlacePacked` | build.go:157-179 | The packed memory plan, with peak at most transient bytes at most unaliased bytes. |
| `Graphs.Graph.Infer` | build.go:99-103 | Edges inferred and closed: ordering facts hold of the graph's own fields. |
| `Graphs.Graph.InferAndCheck` | build.go:99-106 | Succeeds exactly when no node reads a transient byte that no earlier node wrote. |
| `Graphs.Graph.PlanMemory` | build.go:107-121 | Barriers and memory planned one way or the other, in the order the build takes. |
| `Graphs.Graph.Prepare` | build.go:99-135 | The whole pass order: false exactly for an unwritten read, otherwise everything a built graph guarantees, with every slot unbound. |
| `Graphs.Build` | build.go:62-148 | Which of the five outcomes a recording gets; a plan made is the recording's, built and bindable, and is refused with its memory figures exactly when its pool exceeds the budget. |
| `Binding.ConcreteSpans` | submit.go:258-274 | Lists exactly the buffer ranges the nodes name directly, each with whether that access writes. |
| `Binding.CheckOverlaps` | submit.go:160-200 | Accepts exactly the binding sets in which no bound slot overlaps another, or a range named directly, with a writer among the two. |
| `Binding.SafeExactly` | submit.go:160-250 | What it accepts, from the bound views and declared accesses alone: views of one buffer written through, or written beside, lie apart. |
| `Binding.AppliedRebinds` | submit.go:138-171 | After a batch a slot has the view of the last binding naming it, or what it had when none does. |
| `Binding.AppliedWide` | submit.go:21-73 | Batches of acceptable bindings keep every bound view at least as large as its slot declares. |
| `Graphs.Graph.Bind` | submit.go:101-141 | Each refusal exactly, in order; an accepted batch leaves every slot with the last view given for it, or what it had, and the bindings free of conflicts; a refused one changes nothing. |
| `Graphs.Graph.CallEach` | submit.go:101-141 | After any sequence of batches and runs, accepted or refused, the bindings are free of conflicts and every slot has the last view an accepted batch gave it. |
| `Graphs.LastCallsBind` | submit.go:101-141 | The accepted batches, folded in order, come to the last accepted view of each slot. |
| `Resolution.BoundConflictsOrdered` | submit.go:160-235 | After placement and binding, two nodes meeting at a physical byte that one of them writes are ordered by the inferred edges; a caller's byte they name the same way. |
| `Resolution.ResolvedSharingSafe` | submit.go:160-235 | Placement and binding together never let two names of one address interfere. |
| `Execution.InputAgrees` | alias.go:56-229 | In any permitted order over shared memory every node reads exactly the bytes it reads in record order. |
| `Execution.ReachExactly` | record.go:75-97 | The bytes a node reads and writes, from its declarations alone. |
| `Execution.PlannedRunAgrees` | build.go:62-130 | Whole-plan agreement for any safe addressing: inputs, final caller bytes, and untouched addresses. |
| `Schedules.PathCrosses` | barrier.go:67-153 | Every dependency path crosses a barrier. |
| `Schedules.BarriersImplyOrder` | barrier.go:67-153 | An execution that only permutes nodes between two consecutive barriers keeps every dependency. |
| `Schedules.SerialIsRecordOrder` | barrier.go:219-228 | A barrier before every node leaves record order as the only execution. |
| `Schedules.HandoverAlreadySeparated` | alias.go:254-304 | Where two transients share bytes, the hazard barriers alone already separate the last user of one from the first user of the other. |
| `Agreement.BuiltIsSafe` | build.go:62-148 | A built and bound graph meets every condition the execution theorem asks. |
| `Agreement.AnyPermittedOrderAgrees` | build.go:62-148 | Any linear extension of the inferred edges, over the placed pool with any contents, agrees with record order over private memory. |
| `Agreement.BitsAreClosure` | infer.go:180-362 | In a built graph with no empty range the packed bit of two nodes is set exactly when a chain of byte conflicts leads from one to the other. |
| `Agreement.PhysicalConflictsOrdered` | submit.go:101-200 | In a built and bound graph every two nodes sharing a physical byte, of the pool or of a caller, with a writer among them, are ordered by the packed bits. |
| `Agreement.AnyBarrierOrderAgrees` | barrier.go:67-153 | So does any order that only moves nodes between planned barriers. |
| `Agreement.TwinInputs` | build.go:41-130 | The optimized and the conservative graph of one recording give every node the same input bytes. |
| `Agreement.TwinMemory` | build.go:41-130 | And leave every byte outside the transient pool the same. |
| `Agreement.TwinsLeaveTheSame` | build.go:41-130 | For all computations, memories and permitted orders at once. |
| `Comparison.CallBoth` | submit.go:101-141 | Two such graphs put through the same rebinds and runs stay bound alike and interchangeable. |
| `Comparison.BuildBoth` | build.go:41-130 | One recording built by both plans and put through the same calls: both builds succeed together, exactly when every transient read is written, and leave every byte outside the pools the same. |
| `Agreement.NaiveRunsInRecordOrder` | build.go:107-121 | The conservative graph has record order as its only execution. |
| `Agreement.FewestBarriers` | barrier.go:83-145 | No plan that orders the hazards has fewer barriers than a built graph had before handovers. |
| `Agreement.HandoversRideOnBarriers` | alias.go:254-304 | In a built graph every handover is already separated, and a barrier stands immediately before it. |
| `SizeClasses.LeadRange` | internal/alloc/tlsf.go:105-114 | The leading five bits of a size give a second-level index below sixteen. |
| `SizeClasses.ClassMonotone` | internal/alloc/tlsf.go:105-114 | Classes are ordered as the sizes in them are. |
| `SizeClasses.HitIsEnough` | internal/alloc/tlsf.go:116-128 | Every block in the class a request starts at, or a higher one, is large enough. |
| `SizeClasses.MissIsClose` | internal/alloc/tlsf.go:116-128 | A block below that class is smaller than 17/16 of the request. |
| `SizeClasses.RoundingKeepsClass` | internal/alloc/tlsf.go:116-128 | Rounding a request up leaves it in the class of its own size exactly when that size has no bit below its leading five. |
| `SizeClasses.RoundedExponent` | internal/alloc/tlsf.go:122-128 | Rounding a request up moves its exponent by at most one. |
| `Cells.TilesApart` | internal/alloc/tlsf.go:20-60 | Blocks earlier in physical order end at or before the start of later ones. |
| `Cells.AllFreeIsOne` | internal/alloc/tlsf.go:260-295 | With no two adjacent free blocks and nothing live there is one free block. |
| `Cells.UsedAndFree` | internal/alloc/tlsf.go:307-329 | Live bytes and free bytes add to the bytes tiled. |
| `PhysLists.SplitFront` | internal/alloc/tlsf.go:186-228 | The head of a block becomes a free block before it, and the physical list is relinked. |
| `PhysLists.SplitBack` | internal/alloc/tlsf.go:186-228 | The tail of a block becomes a free block after it, and the physical list is relinked. |
| `PhysLists.Absorb` | internal/alloc/tlsf.go:260-295 | A block takes over its successor's bytes and the list is relinked without it. |
| `FreeLists.PushFront` | internal/alloc/tlsf.go:130-141 | A block linked in front of its class list, in both directions. |
| `FreeLists.Unlink` | internal/alloc/tlsf.go:143-161 | A block unlinked from anywhere in its list, with the new head returned. |
| `ClassIndex.FiledMirrors` | internal/alloc/tlsf.go:130-141 | After a push both bitmap levels still mirror which lists are empty. |
| `ClassIndex.UnfiledMirrors` | internal/alloc/tlsf.go:143-161 | After an unlink a bit goes exactly when its list, or its whole row, is empty. |
| `ClassIndex.SearchFinds` | internal/alloc/tlsf.go:164-179 | The two bitmap scans find the first non-empty class at or above the start, or there is none. |
| `Openings.JoinNextStep` | internal/alloc/tlsf.go:260-295 | Merging with a free successor removes exactly its listing and keeps the tiling and the live blocks. |
| `Openings.JoinPrevStep` | internal/alloc/tlsf.go:260-295 | Merging into a free predecessor likewise. |
| `Openings.FrontStep` | internal/alloc/tlsf.go:186-228 | Carving the head keeps the tiling, adds exactly the head's listing and leaves no two adjacent free blocks. |
| `Openings.BackStep` | internal/alloc/tlsf.go:186-228 | Carving the tail likewise. |
| `Tlsf.Pool.Insert` | internal/alloc/tlsf.go:130-141 | Adds exactly one listing, the block in its own class, and keeps links and bitmaps consistent. |
| `Tlsf.Pool.Remove` | internal/alloc/tlsf.go:143-161 | Removes exactly that listing. |
| `Tlsf.Pool.SearchFrom` | internal/alloc/tlsf.go:164-179 | Returns the head of the first non-empty class at or above a class, or nil when there is none. |
| `Tlsf.Pool.FindFit` | internal/alloc/tlsf.go:231-257 | A block found holds the request at the alignment, and one is found exactly when a free block reaches the padded request's start class or the second look has one that fits; otherwise every free block is smaller than 17/16 of the padded request. |
| `Tlsf.Pool.Alloc` | internal/alloc/tlsf.go:186-228 | The error cases exactly, running out of space included, at the alignment asked for or the granularity if that is larger; a placed range is aligned, of the rounded size, new, and the only change to the live ranges; a refusal changes nothing. |
| `Tlsf.Pool.ServedExactly` | internal/alloc/tlsf.go:231-240 | Without a stricter alignment a request is served exactly when its rounded class is no higher than the class of the largest free block. |
| `Tlsf.Pool.LargestServed` | internal/alloc/tlsf.go:231-320 | A request for exactly the largest free block is served if and only if its unit count has no bit below its leading five. |
| `Tlsf.AllocLargest` | memory.go:120-125 | Asking any pool for what it reports as its largest free block is placed exactly under that condition. |
| `Tlsf.LargestRefused` | memory.go:120-125 | An untouched pool of 33 units reports 33 and refuses 33. |
| `Tlsf.Pool.Free` | internal/alloc/tlsf.go:260-295 | The error cases exactly, a copy of an allocation already released among them; a release removes that one live range, keeps the structure and clears the allocation. |
| `Tlsf.Pool.Release` | internal/alloc/tlsf.go:260-295 | Making a block free and merging both ways changes the live ranges by that block only and keeps the whole structure. |
| `Tlsf.Pool.TopHoldsLargest` | internal/alloc/tlsf.go:307-320 | A free block outside the highest non-empty class is smaller than any in it. |
| `Tlsf.Pool.LargestFree` | internal/alloc/tlsf.go:307-320 | The true maximum over all free blocks, or zero when there is none. |
| `Tlsf.Pool.Report` | internal/alloc/tlsf.go:307-329 | Exact counts, the exact maximum, and conservation: used and free bytes add to the usable bytes, the reported free also counting the tail below one granule. |
| `Tlsf.Pool.AllocationsApart` | internal/alloc/tlsf.go:186-228 | Live allocations are on the grid, inside the pool and pairwise disjoint. |
| `Tlsf.Pool.NothingOut` | internal/alloc/tlsf.go:260-295 | With nothing out the pool is one free block over every usable byte. |
| `Tlsf.NewPool` | internal/alloc/tlsf.go:66-96 | The refusals exactly, and a valid pool of one free block otherwise. |
| `Tlsf.FreeEach` | internal/alloc/tlsf.go:260-302 | Freeing everything that is out, in any order, restores one free block. |
| `Shapes.PackedIsLinear` | tensor/tensor.go:97-105 | The packed strides address row-major order. |
| `Views.ContiguousLayout` | tensor/tensor.go:161-172 | True exactly for packed strides from the start. |
| `Views.NormalizeAxis` | tensor/views.go:32-40 | Accepts exactly the axes from minus the rank up to the rank, and maps them into range. |
| `Views.Reshape` | tensor/views.go:50-71 | Accepted exactly for positive extents of equal count on a contiguous view; elements at one row-major position are the same element. |
| `Views.Permute` | tensor/views.go:78-105 | Accepted exactly for a permutation of the axes; a coordinate reads the operand at the coordinate with its axes put back. |
| `Views.Transpose` | tensor/views.go:108-126 | Swaps two axes of the shape, and reads the operand at the swapped coordinate. |
| `Views.Slice` | tensor/views.go:132-150 | Accepted exactly for a range inside the axis; reads the operand shifted by the start. |
| `Views.Broadcast` | tensor/views.go:161-192 | Accepted exactly when each axis is equal, one or new; reads the operand with broadcast axes at zero. |
| `Views.ChainInBounds` | tensor/views.go:24-192 | No chain of view operators addresses outside the tensor it starts from. |
| `Broadcasts.BroadcastRepeats` | tensor/materialize.go:58-92 | For positive extents accepts exactly the operands whose broadcast reads "linear index modulo block" for some block, and returns such a block with its repeat count. |
| `Broadcasts.NotModular` | tensor/materialize.go:58-92 | At the axis where the walk refuses, no block explains the reads. |
| `Broadcasts.CopiesBroadcast` | tensor/materialize.go:95-143 | Copying the run that many times puts the broadcast value at every coordinate. |
| `Versions.StaleIsWrittenSince` | tensor/state.go:111-135 | The version comparison is exactly "something overlapping was written since this version was made". |
| `Versions.WrittenByElement` | tensor/state.go:114-140 | Overlapping windows are windows sharing an element. |
| `Versions.LayersApart` | tensor/state.go:114-140 | A write to one layer leaves the staleness of every other layer of the state as it was. |
| `Versions.WriteOtherLayer` | tensor/state.go:94-285 | After a write through one layer of a fresh state any other layer still reads, as its own elements. |
| `Versions.WriteStep` | tensor/state.go:251-285 | Writing through a version that is not stale keeps versions ascending wherever windows overlap. |
| `Versions.Builder.NewState` | tensor/state.go:70-79 | Positive shapes give a state of that shape at its initial version, over a port of its own from its first element. |
| `Versions.Builder.LayerState` | tensor/state.go:180-198 | A layer inherits its parent's version and producer over its own range inside the parent's. |
| `Versions.Builder.SupersededBy` | tensor/state.go:122-135 | The highest version over anything overlapping the state's range. |
| `Versions.Builder.Stale` | tensor/state.go:111-113 | True exactly when some element of the state, from its offset on, was written after the version was made. |
| `Versions.Builder.ReadState` | tensor/state.go:151-173 | Refused exactly when one of its elements was written since; otherwise the elements of its port from its offset on. |
| `Versions.Builder.Advance` | tensor/state.go:206-286 | A write is recorded exactly when admissible and not stale, over the elements from the state's offset on; the new version is fresh and the one it was made from is stale. |
| `StaleReads.VersionsReadExactly` | tensor/state.go:36-112 | A graph's operands all find the versions they name, for all kernels and contents, exactly when each is used before anything overlapping is written. |
| `StaleReads.ReadThenWrite` | tensor/state.go:94-285 | After a state is read the builder still records a write over it, and the version read is then gone. |
| `StaleReads.OverwrittenRead` | tensor/compile.go:594-612 | One state, one write and one use of what was read before it: the use does not find its version. |
| `TensorPlans.Plan.DeclareAll` | tensor/compile.go:207-290 | One slot per window that some operand, state write or output names, a layer's own or a whole port, before anything is lowered. |
| `TensorPlans.Plan.Declare` | tensor/compile.go:565-580 | One slot per window, allocated once. |
| `TensorPlans.Plan.Operand` | tensor/compile.go:594-633 | A port operand is bound to the layer it names, or to its whole port, and refused exactly when that is undeclared; otherwise the transient or the slot its producer wrote. |
| `Meanings.OperandElement` | tensor/compile.go:594-612 | Element x of an operand naming a layer is what its port's version holds x past the layer's start, and of one naming none, what it holds at x. |
| `Meanings.ResultElements` | tensor/compile.go:277-287 | A result going into a state leaves its element x at off + x of that port and changes no other element. |
| `Meanings.AdvancedElements` | tensor/compile.go:380-541 | An operator advancing a state rewrites exactly the elements its last operand names. |
| `TensorPlans.Plan.Materialize` | tensor/materialize.go:95-143 | The copies recorded leave the broadcast value in a transient; refused exactly when copies cannot express it. |
| `TensorPlans.Plan.PickResult` | tensor/compile.go:400-541 | A result goes to its state's window, to the one port naming it, or to a transient. |
| `TensorPlans.Plan.FanOut` | tensor/compile.go:526-541 | Every port naming the value holds it after the copies. |
| `TensorPlans.Plan.LowerInPlace` | tensor/compile.go:440-541 | A kernel that rewrites its operand runs on a copy, and the result reaches every port naming it. |
| `TensorPlans.Plan.LowerPlain` | tensor/compile.go:400-541 | A kernel with a result of its own leaves it where readers and ports will look. |
| `TensorPlans.Plan.LowerNode` | tensor/compile.go:357-541 | An operator lowers exactly when its operands do, and then every memory agrees with the graph's meaning up to and including it. |
| `TensorPlans.Plan.LowerInto` | tensor/compile.go:207-354 | A graph compiles exactly when every operator lowers and every output names a computed value; then the commands are correct from every memory. |
| `TensorPlans.PlanComputes` | tensor/compile.go:207-354 | Running the recorded commands leaves in each output port exactly its tensor's value, and in every other port its last version. |
| `Outputs.SourceOf` | tensor/builder.go:339-397 | A view of a result resolves to its producer exactly when it is contiguous over as many elements, and then reads the whole result in order. |
| `Outputs.InOrderExactly` | tensor/builder.go:339-397 | A view reads in order exactly when it starts at the first element with packed strides on every axis of more than one. |
| `Outputs.RefusedYetWhole` | tensor/builder.go:339-397 | A refused view of as many elements reads the whole result in order exactly when it differs from the packed strides on axes of one element only. |
| `Outputs.OutputHoldsTensor` | tensor/builder.go:339-397 | The port of a resolved view holds the view's own elements in its own row-major order. |
| `TransientPools.Interleave` | transientpool.go:122-220 | Any interleaving performed on a real pool ends, step for step, where the step system says: what the pool's own methods allow decides every outcome. |
| `TransientPools.RunKeeps` | transientpool.go:122-220 | The invariant holds after every interleaving of build, run, graph close and pool close steps. |
| `TransientPools.Safety` | submit.go:279-339 | At most one graph executes, over the block the pool holds, which is large enough for every holder and not freed; the count is the number of holders. |
| `TransientPools.BlockHeld` | transientpool.go:122-191 | No step of any thread swaps or frees the block under a running graph. |
| `TransientPools.ClaimExact` | transientpool.go:169-182 | A marked graph is granted the pool exactly when no graph is executing. |
| `TransientPools.BuildExact` | transientpool.go:122-155 | A graph is built into the pool exactly while it is open and none executes; the pool then holds the larger requirement, in a new block exactly when it grew. |
| `TransientPools.CloseExact` | graph.go:560-586 | An open pool closes exactly when no graph holds it, and keeps no memory once closed. |
| `Streams.RunKeeps` | transfer.go:230-251 | The invariant holds after every interleaving of staging, taking, enqueuing and stream steps. |
| `Streams.OneAtATime` | transfer.go:230-251 | A queue runs one unit at a time, in the order units were enqueued. |
| `Streams.FencePromise` | transfer.go:165-251 | A signalled fence means its unit and every earlier one of its queue finished; its writes were applied exactly when no fence it waited for failed, and each of those had signalled. |
| `Streams.ReleasedExactly` | graph.go:713-722 | A begun unit may work exactly when every fence it waits for has signalled, or a failed one has and those listed before it. |
| `Streams.FlushPromise` | transfer.go:158-184 | Flushing does nothing exactly when nothing is staged and every unit of the queue is done. |
| `Streams.OutcomeSaid` | transfer.go:230-251 | A unit ends as the step that worked it said, or failed because a fence it waited for had. |
| `Streams.WritesInOrder` | transfer.go:165-198 | The writes a queue applied are the delivered batches in queue order. |
| `Staging.Conserved` | transfer.go:109-184 | The batches taken, in the order taken, and then what is pending, are exactly what was staged; and they are exactly what callers hold and units carry, each with the fences its call named. |
| `Staging.WritesConserved` | transfer.go:109-184 | Every staged write is pending, held or carried, as often as it was staged. |
| `Staging.BatchIsStretch` | transfer.go:109-184 | Every batch was staged in one stretch, and what is pending was staged last. |
| `Staging.OrderExactly` | transfer.go:165-251 | Batches run in the order they were taken exactly when no caller overtook another between taking one and putting it on the stream. |
| `Staging.AppliedInOrder` | transfer.go:165-251 | Then, unless a unit gives up on a failed fence, writes are applied in the order they were staged. |
| `Staging.CrossedCallers` | transfer.go:165-251 | Two flushes that cross carry the write staged second first. |
| `Streams.NoDeadlock` | graph.go:695-732 | With waits between any queues, while some unit is not done some unit can move. |
| `Streams.MovesEnd` | graph.go:695-732 | Every move of a unit lowers by one the number of moves still to be made. |
| `Words.FieldWritten` | quant/int4.go:141-153 | Writing one 4-bit field leaves the new value in it and every other field as it was. |
| `Nibbles.SetNibble` | quant/int4.go:141-144 | The code written reads back at its index, and every other index reads as before. |
| `Int4.RoundToEven` | quant/int4.go:118-134 | The nearest integer, and the even one on a tie. |
| `Int4.Extremes` | quant/int4.go:82-90 | The least and the greatest weight of a group: bounds for all its weights, and themselves weights of it. |
| `Int4.GroupsOf128` | quant/int4.go:71-90 | Groups are 128 weights each, the last one whatever remains. |
| `Int4.Int4Quantize` | quant/int4.go:71-138 | Every group's scale and zero point, and every packed code, are those of its own weights; constant groups and the tail past the last weight hold zero codes. |
| `Int4.Int4Dequantize` | quant/int4.go:160-175 | Every weight read back from its code, scale and zero point. |
| `Int4.NearestCode` | quant/int4.go:118-134 | The clamped code is within half a step exactly when the scaled weight is within half a step of the sixteen codes. |
| `Int4.HalfStepExactly` | quant/int4.go:177-194 | The error is at most half the scale exactly when the code was not clamped by more than half a step. |
| `Int4.HalfStepExceeded` | quant/int4.go:177-194 | Weights 1000 and 1001, narrowed to a scale of 1092/16384 and a zero point of -15000, are off by more than half the scale. |
| `Int4.QuantizeFar` | quant/int4.go:71-138 | Quantizing those two weights gives such an array. |
| `Int4.WeightBound` | quant/int4.go:177-194 | For any stored scale above zero and any stored zero point, every weight of the range, clamped or not, is within the three-term bound. |
| `Int4.BoundReached` | quant/int4.go:177-194 | But for the half step the bound is reached: at the top of a range whose scale shrank, and at the bottom of one whose zero point fell. |
| `Int4.GroupBound` | quant/int4.go:71-175 | The bound for every weight of a quantized array as read back, and the zero point's own error for a constant group. |
| `DotProducts.Int4ErrorBound` | quant/int4.go:213-239 | Refused exactly when the counts differ; otherwise the weighted sum of the term bounds. |
| `DotProducts.TermIsWorst` | quant/int4.go:196-239 | A term is the weight bound at the furthest storing can have moved the scale and the zero point, and no stored pair within that does worse. |
| `DotProducts.DotProductBound` | quant/int4.go:177-239 | A dot product over weights read back is off by at most the bound, whichever weights its terms name. |
| `Mips.SubresourceOf` | textureview.go:185-204 | Offset, size, extent and both pitches of one level and layer, an undefined row pitch being four bytes a texel rounded up; a level past the chain is empty. |
| `Mips.ExtentHalves` | textureview.go:179-180 | The base level has the texture's extent, each level half of the one before, and none less than one. |
| `Mips.TextureBytes` | texturealloc.go:131-142 | The footprint is where the level after the last would begin. |
| `Mips.InOrder` | textureview.go:146-204 | Subresources end before later ones begin, and inside the texture. |
| `Mips.Disjoint` | textureview.go:146-204 | No two different subresources share a byte. |
| `Mips.Tiled` | texturealloc.go:131-142 | The bytes of the texture are exactly the bytes of its subresources. |
| `Mips.MipChainLength` | texturealloc.go:367-374 | The least level count whose last level is one by one. |

## Left out

- Barriers.Plan: models where barriers stand, not their stage masks, memory flags or reasons, because lowering consumes only that a barrier exists.
- Inference.InferEdges: does not model the hazard reasons kept beside each edge; the reachable order is what planning reads.
- Packing.PackingOrder: the library's stable sort is modelled as an insertion sort by the same comparison.
- Bitsets.Reachability: a 64-bit word is modelled as the set of its bit positions, and shifts and ors as set operations.
- Graphs.Graph.Bind: the refusals of a closed graph and a lost device are not modelled; the checks on a resource by itself (kind, element type, usage, device, being open) are one parameter per binding, and whether the backend accepts the rebind is a parameter.
- Graphs.Build: shared pools are modelled by their own protocol only, not as part of a build; device loss, lifecycle locks, the driver's compilation and the allocation of the pool's memory are not modelled; alignment and budget are parameters.
- Recorders.Recorder.Record: a node's accesses are complete when it is recorded; render passes, which add reads to an older node later, are not part of this model, and neither are present slots.
- Resolution.BoundConflictsOrdered: a slot resolves to a buffer range; slots bound to textures, which the overlap check does not compare, are not modelled.
- Tlsf.Pool.Free: an allocation naming this pool as its owner is out, or is a copy of one released whose block is free or gone; a copy whose block was placed again, or is still out, is not modelled.
- Tlsf.Pool.Alloc: the bitmaps are sets of bit positions and integers are unbounded; sizes and counters do not wrap.
- Broadcasts.BroadcastRepeats: extents are positive, as shapes accepted by the builder are.
- Versions.Builder.Advance: models the state handling shared by ScatterRows and LinearAttention; their checks on the other operands are one parameter, and the sampling penalty path, which skips the stale check, is not part of this model.
- TensorPlans.Plan.LowerInto: stops at the first operator that does not lower, where the code goes on to collect every diagnostic; a state read is consumed before the next overlapping write, which the code checks only when the read is taken (StaleReads.VersionsReadExactly); and operands have positive extents.
- Outputs.SourceOf: duplicate and empty output names are refused before this point and are not modelled.
- Streams.FencePromise: device writes are assumed to succeed; the code goes on past a failed one, keeps the first error and reports it on the fence.
- Int4.Int4Quantize: weights and stored numbers are reals and narrowing to half precision is an arbitrary function; single-precision rounding inside the divisions enters only through how far the stored numbers are from the ideal ones, and a group whose scale narrows to zero is stored but not bounded.
- DotProducts.DotProductBound: that storing moved the scale and zero point by no more than the bound charges is a hypothesis, since it is a property of floating-point arithmetic.
- TransientPools.Interleave: a failing device allocation, which changes nothing, is not modelled.
- Mips.SubresourceOf: the device's row pitch and stencil pitch are arbitrary functions of the width.
- Compile options, spare graph instances and the report of which kernel was selected for each operator.
- Operator argument validation (types, ranks, widths), kernel code generation and kernel numerics.
- Render-pass recording, attachments, surfaces, backends, adapter selection and capability queries.
- 8-bit quantization, half-float and colour codecs: their claims are about floating-point rounding.
- The bump, block-pool and bucket allocators, the plan cache and error formatting.
