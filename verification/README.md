# infinityOS: proofs about the runtime and kernel cores

A Dafny model of ten components of infinityOS, with proofs of what their documentation and tests promise;
`dafny verify dfyconfig.toml` verifies the whole project.

| component | files | what it is |
|---|---|---|
| flow graph | GraphSchema, GraphPatch, DiffOrder, Digraph, Kahn, KahnDepth, CycleSearching, FlowGraph, PlanVerdict | typed multigraph: edits, topological order, cycle search, patches and diffs |
| arena allocator | Bits, Arena | bump allocation over a growing chain of slabs |
| scheduler and timers | SchedulerProtocol, SchedulerLaws, Scheduler, Timers, TimerLaws | eight intrusive queues, dispatch with the lock released, cancellation, a sorted timer list |
| flow engine | FlowControl | bounded visits, conditional transitions, fallbacks |
| mesh store | MeshModel, MeshStore, MeshRevisions | artifacts with five indexes, garbage collection, optimistic revisions, replication |
| replica table | ReplicaProtocol, ReplicaLaws, Replicas | creation and destruction with the lock released midway |
| trace ring | TraceProtocol, Trace | a power-of-two ring and a lossy in-flight table |
| undo and redo | UndoHistory, NodeEditor | inverse-command stacks |
| conflict resolver | Collaboration, KeyReadings, Strings | last-write-wins edits |
| replica planner and pool | ReplicaPlanning, ReplicaPool | allocation arithmetic, two maps kept in step |

Each stateful component has two levels: values and functions on which whole runs and interleavings are proved, and a
class with the source's fields and loops whose methods are proved to compute exactly those functions. A component with
a lock is a transition system with one step per critical section; a thread's local variables that survive an unlock
are part of the state. Ids are natural numbers, clocks and callbacks' results are inputs, hash iteration is an
arbitrary order.

## What the code does that its documentation does not say

- `topological_order` is documented to sort nodes of the same depth by id; it sorts each batch of nodes made ready by one node. `KahnDepth.SameDepthNotSorted` is an input where they differ, and `KahnDepth.SortedWithinDepthsExactlyWhen` says for which graphs they agree. The model follows the code.
- The patch operation that adds a link does not check its ends. With a missing target an acyclic graph can be reported as cyclic (`FlowGraphRuntime.DanglingTargetLooksCyclic`), and a cyclic one can be accepted, with an order that omits a node and names the missing one (`PlanVerdict.MissingTargetHidesCycle`); a missing source also reads as a cycle. `PlanVerdict.PlanSucceedsExactlyWhen` says for all links when the order can be trusted.
- `ify_arena_alloc` adds up sizes in 64 bits without checking: a huge request can wrap around, pass the test and put the used mark below live blocks (`ArenaAllocator.WrappedRequestPasses`, `ArenaAllocator.NextBlockOverlaps`), and a slab's header can be written out of bounds. `ArenaAllocator.TestIsRightExactlyWhen` and `ArenaAllocator.GrowthSafeExactlyWhen` give the exact conditions.
- `compute_diff` is documented as the patch that turns one schema into another; applying it can fail, or give another schema, and `GraphPatching.DiffRoundTrip` says exactly when.
- `ReplicaDemand::max_replicas` is documented as a maximum; it is exceeded exactly when it is smaller than the number of modules chosen, which is two when the complexity reaches the threshold and both kinds are registered, and otherwise one.
- `ify_trace_end` is documented to store the span; it does so exactly when nothing evicted the span from its in-flight slot.
- The resolver is documented to keep one operation per node field; keys are plain strings, and different fields share one exactly when a key can be read in more than one way (`KeyReadings.KeyIsSafeExactlyWhen`); `Collaboration.ColonsCollide` and `Collaboration.ArrowsCollide` are examples.
- `ify_timer_once` is documented to call back after the delay; it does so exactly when clock and delay stay below 2^64 nanoseconds (`Timers.DeadlineWaitsExactlyWhen`, `Timers.WrappedDelayFiresAtOnce`).

## Model

| member | source | states |
|---|---|---|
| FlowGraphRuntime.PlanIsExecutionOrder | runtime-rust/crates/ify-controller/src/graph.rs:1464-1520 | on a graph without dangling links the order exists exactly when there is no directed cycle; it lists each node once with every link's source before its target; an error names a non-empty set of nodes each of which has a predecessor in that set |
| FlowGraphRuntime.PlanIgnoresLinkIdentity | runtime-rust/crates/ify-controller/src/graph.rs:1467-1505 | two graphs with the same node ids and the same multiset of (source, target) pairs get the identical order or the identical error, whatever the link ids and hash orders |
| FlowGraphRuntime.DanglingTargetLooksCyclic | runtime-rust/crates/ify-controller/src/graph.rs:1507-1517 | on an acyclic graph whose links have sources, a cycle is reported exactly when some link's target is missing |
| PlanVerdict.PlanSucceedsExactlyWhen | runtime-rust/crates/ify-controller/src/graph.rs:1464-1520 | for links with any endpoints, missing ones included: the order lists exactly the nodes if and only if no link enters a node from a missing one, the links into nodes are acyclic, and every missing target is also reached from a missing source |
| PlanVerdict.WithSourcesPlanSucceedsExactlyWhen | runtime-rust/crates/ify-controller/src/graph.rs:1464-1520 | when every link has its source: the order lists exactly the nodes if and only if the links are acyclic and every target exists |
| PlanVerdict.WithSourcesVerdictsDifferExactlyWhen | runtime-rust/crates/ify-controller/src/graph.rs:1405-1520 | when every link has its source: the cycle search fails exactly on cyclic graphs, and its verdict differs from the order's exactly on acyclic graphs with a missing target |
| PlanVerdict.MissingTargetHidesCycle | runtime-rust/crates/ify-controller/src/graph.rs:1507-1517 | nodes a and b with links a to a and b to a missing c: a cyclic graph accepted, with an order that omits a and names c, though the cycle search finds the cycle |
| PlanVerdict.MissingSourceLooksCyclic | runtime-rust/crates/ify-controller/src/graph.rs:1507-1517 | one node with a link from a missing node: an acyclic graph refused |
| KahnDepth.OrderIsRanked | runtime-rust/crates/ify-controller/src/graph.rs:1485-1505 | the order is sorted by the position of each node's last-listed predecessor, and by id among those released together |
| KahnDepth.OrderIsTheRankedListing | runtime-rust/crates/ify-controller/src/graph.rs:1485-1505 | it is the only listing of those nodes with predecessors first and that sorting |
| KahnDepth.SortedWithinDepthsExactlyWhen | runtime-rust/crates/ify-controller/src/graph.rs:1457-1505 | the order never goes down in depth, and nodes of the same depth are sorted by id, as documented, exactly when of any two of them the one with the smaller id does not have the greater of their greatest predecessors one level above |
| KahnDepth.SameDepthNotSorted | runtime-rust/crates/ify-controller/src/graph.rs:1457-1505 | with links 1 to 4 and 2 to 3, nodes 3 and 4 have the same depth and are not sorted |
| KahnDepth.DepthBoundsWalks | runtime-rust/crates/ify-controller/src/graph.rs:1457-1459 | no walk into a node has more links than the node's depth |
| KahnDepth.DepthIsReached | runtime-rust/crates/ify-controller/src/graph.rs:1457-1459 | and one has exactly that many |
| KahnDepth.DepthExists | runtime-rust/crates/ify-controller/src/graph.rs:1457-1459 | a graph that can be listed with predecessors first has such a depth |
| FlowGraphRuntime.FlowGraph.TopologicalOrder | runtime-rust/crates/ify-controller/src/graph.rs:1464-1520 | the in-degree and queue loops over a multigraph compute that order, which depends on node ids and edges alone |
| FlowGraphRuntime.ErrorNamesWhatCyclesReach | runtime-rust/crates/ify-controller/src/graph.rs:1507-1517 | on a graph without dangling links the reported cycle names exactly the nodes that some cycle reaches |
| FlowGraphRuntime.FlowGraph.DetectCycle | runtime-rust/crates/ify-controller/src/graph.rs:1405-1419 | on graphs without dangling links succeeds exactly when the graph is acyclic and exactly when an order exists; on all graphs, missing link ends included, it fails exactly when some node reaches a cycle; a reported cycle is a closed walk along links that repeats only its first node |
| CycleSearching.CycleSearch.Visit | runtime-rust/crates/ify-controller/src/graph.rs:1421-1450 | the recursive white, grey and black search ends, keeps the grey path a walk and the black vertices listed with successors first, or returns a simple cycle |
| FlowGraphRuntime.FlowGraph.AdjacencyList | runtime-rust/crates/ify-controller/src/graph.rs:1797-1808 | one row per node and per link source, holding the targets of its links in order, parallel links included |
| FlowGraphRuntime.SuccsAddUp | runtime-rust/crates/ify-controller/src/graph.rs:1804-1806 | the targets of two runs of links are those of the first followed by those of the second |
| FlowGraphRuntime.FlowGraph.RemoveNode | runtime-rust/crates/ify-controller/src/graph.rs:1106-1129 | removes the node, its links, its group memberships and its execution state, or reports that it is missing and changes nothing |
| FlowGraphRuntime.FlowGraph.AddLink | runtime-rust/crates/ify-controller/src/graph.rs:1155-1195 | refuses exactly missing nodes, missing ports and port types that differ with neither of them Any, the first of these that applies; otherwise the link is stored as given and nothing else changes |
| GraphSchema.CheckLinkMeans | runtime-rust/crates/ify-controller/src/graph.rs:1155-1184 | the exact links refused with each error, port types spelled out |
| GraphSchema.EditsChangeEdges | runtime-rust/crates/ify-controller/src/graph.rs:1085-1218 | what each accepted edit does to the nodes and edges that the order is computed from: a link with a new id adds its (source, target), a removed node takes its edges |
| GraphSchema.EditsKeepLinksWellFormed | runtime-rust/crates/ify-controller/src/graph.rs:1085-1218 | every run of node and link edits, refused ones included, leaves no dangling link |
| FlowGraphRuntime.FlowGraph.ApplyPatch | runtime-rust/crates/ify-controller/src/graph.rs:1701-1727 | all operations take effect in order, or the first failure leaves the schema unchanged |
| GraphPatching.ApplyOpMeans | runtime-rust/crates/ify-controller/src/graph.rs:1815-1914 | for each of the thirteen operations, when it fails with which error, and otherwise which entry changes to what |
| GraphPatching.PatchGoesInOrder | runtime-rust/crates/ify-controller/src/graph.rs:1701-1714 | a patch goes through a chain of schemas, one per operation in the patch's order; it fails with the error of the first operation that has none |
| GraphPatching.ComputeDiff | runtime-rust/crates/ify-controller/src/graph.rs:1735-1792 | the loops over both schemas produce exactly the specified operation list |
| DiffOrder.DiffIsTheListing | runtime-rust/crates/ify-controller/src/graph.rs:1735-1792 | that list is the only one with one operation for every entry that only one schema has: added then removed nodes, links, groups and subgraphs, each in the order of their ids |
| GraphPatching.DiffApplied | runtime-rust/crates/ify-controller/src/graph.rs:1735-1914 | applying a diff to its origin fails exactly when it drops a link that one of its own node removals already took, with that link named; otherwise the result is known field by field |
| GraphPatching.DiffRoundTrip | runtime-rust/crates/ify-controller/src/graph.rs:1735-1914 | the exact condition under which applying the diff of two schemas to the first yields the second |
| GraphPatching.DiffRoundTripOfCleanTarget | runtime-rust/crates/ify-controller/src/graph.rs:1735-1914 | with identical shared entries and nothing dangling in the target, application succeeds exactly when no dropped link touches a removed node, and then yields the target |
| GraphPatching.RemovingLinkedNodeFails | runtime-rust/crates/ify-controller/src/graph.rs:1735-1914 | two linked nodes diffed against the second alone: the patch fails on the link |
| Kahn.CompleteIffAcyclic | runtime-rust/crates/ify-controller/src/graph.rs:1485-1517 | every vertex is emitted exactly when there is no cycle |
| Bits.MaskHigh | kernel-c/src/memory.c:142 | clearing the low bits of a machine word with a complemented mask subtracts the remainder by the power of two |
| Bits.PowerOfTwoTest | kernel-c/src/memory.c:130 | `a & (a - 1)` is zero exactly for powers of two |
| ArenaAllocator.MaskUpIsRoundUp | kernel-c/src/memory.c:140-142 | the mask expression is the least multiple of the alignment at or above the address |
| ArenaAllocator.TestIsRightExactlyWhen | kernel-c/src/memory.c:144-146 | the 64-bit test decides whether a request fits a slab exactly when its sum does not wrap around into the capacity; when it does wrap so, the test passes and the used mark goes below the block's end |
| ArenaAllocator.WrappedRequestPasses | kernel-c/src/memory.c:144-147 | in a slab with used bytes, a request of 2^64 minus their number passes, does not fit, and sets the used mark to zero |
| ArenaAllocator.NextBlockOverlaps | kernel-c/src/memory.c:140-148 | the next block cut from such a slab overlaps a block still live at its start |
| ArenaAllocator.GrowthSafeExactlyWhen | kernel-c/src/memory.c:154-158 | a slab appended for a request is allocated whole and tested rightly at every address exactly when the request is at most the default capacity, or header, size and alignment stay below 2^64, or size and alignment are exactly 2^64 |
| ArenaAllocator.ProbeOutcome | kernel-c/src/memory.c:139-150 | one try at a slab: a passing test leaves sound blocks or, exactly on a wrapped sum, a block outside its slab's used bytes; a failing one means no room |
| ArenaAllocator.FreshSlabFits | kernel-c/src/memory.c:154-158 | a fresh slab of the growth size holds the request at every base address exactly when the request is larger than the default capacity or its worst padding still fits in it |
| ArenaAllocator.GrantedBlockIsGood | kernel-c/src/memory.c:122-167 | a returned block starts at the returned address, is aligned as asked, lies within one slab's capacity, is all zeros, and overlaps no other live block |
| ArenaAllocator.LiveBlocksDisjoint | kernel-c/src/memory.c:122-167 | live blocks never overlap in the address space, in whatever slabs they are |
| ArenaAllocator.SmallRequestsAreSafe | kernel-c/src/memory.c:122-167 | whatever the arena holds, a request whose size and alignment together are at most 2^63 is served properly |
| ArenaAllocator.HeaderFitsExactlyWhen | kernel-c/src/memory.c:68-79 | a slab's region has room for its header exactly when header and capacity together stay below 2^64 |
| ArenaAllocator.LargestCapacityOverruns | kernel-c/src/memory.c:68-79 | for the capacity 2^64 - 1 a region of 23 bytes is allocated for a header of 24 |
| ArenaAllocator.Arena.Create | kernel-c/src/memory.c:100-116 | null exactly when the platform refuses the record or the slab, and then nothing stays allocated; otherwise an empty arena with one slab of at least the default capacity, whose header is out of bounds exactly when header and capacity reach 2^64 |
| ArenaAllocator.Arena.Alloc | kernel-c/src/memory.c:122-167 | for every size and alignment: a request whose sums do not wrap gets its block from the first slab from the current one on that has room; null only for a refused request or when the platform refuses memory; at most one slab appended for a guaranteed fit; a chain that wraps leaves live blocks unsound |
| ArenaAllocator.Arena.Search | kernel-c/src/memory.c:136-166 | the endless loop ends, with the outcome above for every size |
| ArenaAllocator.AcceptsMeans | kernel-c/src/memory.c:122-132 | accepted are exactly sizes above zero with no alignment, or a power of two up to 4096 |
| ArenaAllocator.GrowthCapMeans | kernel-c/src/memory.c:154-158 | a new slab has 64 KiB, or size plus alignment for a larger request unless that sum reaches 2^64 |
| ArenaAllocator.Arena.ClientWrite | kernel-c/src/memory.c:53-64 | writing inside one's own live block keeps all of the above |
| ArenaAllocator.Arena.Reset | kernel-c/src/memory.c:173-185 | all slabs are kept, emptied and zero again, and no block is live |
| ArenaAllocator.Arena.Stats | kernel-c/src/memory.c:203-216 | bytes used and reserved are sums over the whole chain |
| ArenaAllocator.SumsAddUp | kernel-c/src/memory.c:207-212 | both sums over a chain are those of its two parts together |
| SchedulerProtocol.EveryRunIsSafe | kernel-c/src/scheduler.c:156-317 | in every interleaving of submit, return and cancel: the running count is the number of running tasks and within the limit, every task starts at most once and never after a cancellation, equally urgent tasks (equal priorities, 7 and above counting alike) start in submission order, and with nothing running all queues are empty and all tasks terminal |
| SchedulerProtocol.DrainStartsBest | kernel-c/src/scheduler.c:140-177 | one turn of the dispatch loop starts the oldest task of the highest non-empty level, or nothing, because the limit is reached or no task is queued; DispatchStartsMostUrgent says it in raw priorities |
| SchedulerLaws.DispatchStartsMostUrgent | kernel-c/src/scheduler.c:128-177 | a dispatch starts at most one task and changes no other: of those queued the one with the greatest priority, 7 and above counting alike, and of those the oldest; it starts none exactly when no slot is free or nothing is queued |
| SchedulerLaws.SubmitMeans | kernel-c/src/scheduler.c:247-289 | a submission appends its task, queued under the next number, and then the most urgent task starts if one does; with 4096 tasks nothing changes |
| SchedulerLaws.ReturnMeans | kernel-c/src/scheduler.c:156-177 | a returning task is completed or failed as its function said, and then the most urgent task starts if one does |
| SchedulerLaws.CancelMeans | kernel-c/src/scheduler.c:295-317 | cancelling ends a queued task, only flags a running one, is refused for an ended one, and changes nothing else |
| SchedulerProtocol.RunKeepsTerminal | kernel-c/src/scheduler.c:156-317 | terminal states are never left and the history of starts only grows |
| SchedulerProtocol.CancelledNeverStarts | kernel-c/src/scheduler.c:295-317 | a task cancelled while queued is cancelled for ever and never starts, whatever follows |
| SchedulerProtocol.DrainKeepsInvariant | kernel-c/src/scheduler.c:156-177 | dispatching keeps the invariant, start order and counters included |
| SchedulerRuntime.Scheduler.Submit | kernel-c/src/scheduler.c:247-289 | the critical section on the linked queues is the protocol's submit step; the task whose function it calls is the one the protocol starts |
| SchedulerRuntime.Scheduler.Return | kernel-c/src/scheduler.c:156-177 | retiring a finished task and dispatching again is the protocol's return step |
| SchedulerRuntime.Scheduler.Cancel | kernel-c/src/scheduler.c:295-317 | flagging a task is the protocol's cancel step, refused for unknown and terminal tasks |
| SchedulerRuntime.Scheduler.Enqueue | kernel-c/src/scheduler.c:128-137 | the pointer writes append to the queue numbered by the priority, 7 for greater ones, and leave the other seven lists spelled out as they were |
| SchedulerRuntime.Scheduler.DequeueHighest | kernel-c/src/scheduler.c:140-153 | takes the head of the highest non-empty list, or null when all eight are empty |
| Timers.EveryRunFiresProperly | kernel-c/src/scheduler.c:348-415 | in every interleaving the pending list is sorted by (deadline, id), no timer fires twice, none before its stored deadline, and none that was cancelled while pending |
| TimerLaws.FirstDueIsCalled | kernel-c/src/scheduler.c:385-403 | the first timer that is due and not cancelled is called, and only the cancelled ones before it are dropped |
| TimerLaws.FireNextExactly | kernel-c/src/scheduler.c:385-403 | the cancelled due timers at the front are dropped; then the next timer is called if it is due, and otherwise none is |
| TimerLaws.NoTimerIsLost | kernel-c/src/scheduler.c:348-415 | in every interleaving each timer ever armed is waiting, was called, or was cancelled while it waited, and none of the latter is called |
| TimerLaws.FiresAsArmed | kernel-c/src/scheduler.c:348-407 | a timer that is called is called with the deadline it was armed with, whatever comes between |
| TimerLaws.LoopCallsAllDue | kernel-c/src/scheduler.c:385-403 | the loop of one call calls every timer that is due at its clock and not cancelled |
| Timers.DeadlineWaitsExactlyWhen | kernel-c/src/scheduler.c:365 | the stored deadline is at least the delay away exactly when clock and delay together stay below 2^64 nanoseconds |
| Timers.WrappedDelayFiresAtOnce | kernel-c/src/scheduler.c:365 | a delay of 0x4189374BC6A7F0 microseconds fires after 384 nanoseconds |
| Timers.TimerList.TimerOnce | kernel-c/src/scheduler.c:348-407 | inserting into the linked list and firing up to the first callback is the protocol's step; FireNextExactly says which timer is called |
| Timers.TimerList.Insert | kernel-c/src/scheduler.c:372-378 | splices the entry in before the first later deadline |
| FlowControl.FlowTerminates | runtime-rust/crates/ify-controller/src/flow_control.rs:942-1024 | every run of a validated, limited flow with acyclic fallbacks ends at a terminal step or with an error other than a missing step, within (sum of limits + 1) * (longest fallback chain + 1) calls |
| FlowControl.CallBoundIsProduct | runtime-rust/crates/ify-controller/src/flow_control.rs:942-1024 | that bound is the product of the two, each plus one |
| FlowControl.CallLowersMeasure | runtime-rust/crates/ify-controller/src/flow_control.rs:942-1024 | each call that goes on lowers remaining visits, or keeps them and goes down a fallback |
| FlowControl.NoMissingStep | runtime-rust/crates/ify-controller/src/flow_control.rs:942-1036 | a validated flow never runs into a step that does not exist |
| FlowControl.FallbackCycleNeverEnds | runtime-rust/crates/ify-controller/src/flow_control.rs:956-973 | used-up steps that fall back to each other are still running after any number n of calls, with no count above its start plus n: the overflow of a 32-bit counter is the first thing that can end such a run |
| FlowControl.CountsStayBelowCalls | runtime-rust/crates/ify-controller/src/flow_control.rs:942-956 | after n calls no step has been counted more than n times more: 32-bit counters cannot overflow while the bound on calls is below 2^32 |
| FlowControl.Validate | runtime-rust/crates/ify-controller/src/flow_control.rs:312-332 | succeeds exactly when every transition target and fallback exists; an error names one that does not |
| FlowControl.Advance | runtime-rust/crates/ify-controller/src/flow_control.rs:942-1024 | the loop over the transitions gives the one right answer: limit and fallback, terminal status, first transition whose condition is met, fallback, in that order, with the source's errors, and one more visit of the step |
| FlowControl.AdvanceMeans | runtime-rust/crates/ify-controller/src/flow_control.rs:942-1024 | the same of the specified step, with the conditions on metrics, scores and thresholds and the count of earlier visits spelled out |
| FlowControl.AnswerIsUnique | runtime-rust/crates/ify-controller/src/flow_control.rs:942-1024 | no other answer meets that description |
| FlowControl.FirstMatchExactly | runtime-rust/crates/ify-controller/src/flow_control.rs:987-995 | the target of the first condition met when all before it are unmet; none exactly when all are unmet; an error exactly when a value is unknown and all conditions before are unmet |
| FlowControl.EvaluateMeans | runtime-rust/crates/ify-controller/src/flow_control.rs:1038-1090 | a condition is met, unmet or unknown as its metric or score compares with its threshold |
| MeshStoreRuntime.EveryRunKeepsIndexes | runtime-rust/crates/ify-controller/src/mesh.rs:593-639 | any run of produce, batch, consume, collect and replicate over any number of stores: every index of every store lists exactly the stored artifacts with the key, each once |
| MeshStoreRuntime.NetworkStepMeans | runtime-rust/crates/ify-controller/src/mesh.rs:725-729 | a step acts on one store of the network; replication stores the source's artifact in the target, and touches its node, unless the id is there |
| MeshStoreRuntime.ConsumedOnce | runtime-rust/crates/ify-controller/src/mesh.rs:1049-1084 | after a consume, whatever the store does, the artifact is never handed out again until its id is produced anew |
| MeshStoreRuntime.BatchVerdict | runtime-rust/crates/ify-controller/src/mesh.rs:955-984 | a batch is accepted exactly when all prepared artifacts agree with the first in five fields; otherwise the error names the first differing field of the first that differs |
| MeshStoreRuntime.BatchStores | runtime-rust/crates/ify-controller/src/mesh.rs:986-1000 | the last artifact of each id in an accepted batch is stored prepared and unconsumed |
| MeshStoreRuntime.PolicySpares | runtime-rust/crates/ify-controller/src/mesh.rs:1365-1383 | the exact artifacts a policy keeps: not older than its time, not of an inactive dimension with tier 0 or 1, not consumed with tier 0 when it says so |
| MeshStoreRuntime.PolicySparesSnapshots | runtime-rust/crates/ify-controller/src/mesh.rs:1405-1428 | the exact snapshots a policy keeps |
| MeshStoreRuntime.PolicySparesPatches | runtime-rust/crates/ify-controller/src/mesh.rs:1430-1445 | the exact patches a policy keeps |
| MeshStoreRuntime.LastOfBatchWins | runtime-rust/crates/ify-controller/src/mesh.rs:986-1000 | an id repeated in a batch keeps its last artifact |
| MeshStoreRuntime.ClearAllMeaning | runtime-rust/crates/ify-controller/src/mesh.rs:1392-1403 | collection forgets a node's last artifact exactly when that artifact was removed and belonged to the node |
| MeshModel.PrepareTwice | runtime-rust/crates/ify-controller/src/mesh.rs:887-905 | validated production prepares an artifact twice; the second time changes nothing, except a creation time still zero |
| MeshModel.PrepareMeans | runtime-rust/crates/ify-controller/src/mesh.rs:1469-1485 | payload, ids and tier are kept, blank types and versions and a zero time get their defaults, provenance gets task and, if it has none, node, tags are sorted without repeats |
| MeshModel.NewestComesLast | runtime-rust/crates/ify-controller/src/mesh.rs:594-615 | a stored artifact comes last in the lists of its keys, gone from where it was; the others keep their order |
| MeshModel.PutKeepsConsistent | runtime-rust/crates/ify-controller/src/mesh.rs:913-921 | overwriting an id first forgets the old artifact in all five indexes |
| MeshModel.DeleteKeepsConsistent | runtime-rust/crates/ify-controller/src/mesh.rs:617-639 | removing one artifact keeps all five indexes equal to a full scan |
| MeshModel.InsertKeepsConsistent | runtime-rust/crates/ify-controller/src/mesh.rs:594-615 | inserting one artifact keeps all five indexes equal to a full scan |
| MeshStoreRuntime.MeshStore.Query | runtime-rust/crates/ify-controller/src/mesh.rs:1303-1340 | each query returns exactly the stored artifacts with the key, each once, in the order of the index |
| MeshStoreRuntime.MeshStore.Produce | runtime-rust/crates/ify-controller/src/mesh.rs:902-952 | stores the prepared artifact unconsumed under its id, every other artifact as before, and notes it as its node's last one |
| MeshStoreRuntime.MeshStore.ProduceBatch | runtime-rust/crates/ify-controller/src/mesh.rs:955-1033 | refuses an empty batch and names the first field that differs; otherwise stores the batch in order and touches its node |
| MeshStoreRuntime.MeshStore.Consume | runtime-rust/crates/ify-controller/src/mesh.rs:1049-1084 | consumes once: unknown and consumed ids are refused with their own errors, the artifact handed out is the stored one marked consumed, nothing else changes |
| MeshStoreRuntime.MeshStore.CollectGarbage | runtime-rust/crates/ify-controller/src/mesh.rs:1361-1448 | removes exactly the artifacts, snapshots and patches the policy names, from the indexes too, and reports their numbers |
| MeshStoreRuntime.MeshStore.InsertReplicatedArtifact | runtime-rust/crates/ify-controller/src/mesh.rs:1619-1658 | never overwrites; keeps the artifact as the source had it |
| MeshStoreRuntime.ReplicateArtifact | runtime-rust/crates/ify-controller/src/mesh.rs:725-729 | copies one stored artifact between two stores, with an error for a missing and for an existing id, and keeps the target's indexes right |
| MeshStoreRuntime.MeshStore.PatchWithRevision | runtime-rust/crates/ify-controller/src/mesh.rs:1225-1260 | rejection happens exactly on a revision mismatch under Reject and stores nothing; otherwise the stored patch carries the revision step |
| MeshStoreRuntime.MeshStore.AdvanceRevision | runtime-rust/crates/ify-controller/src/mesh.rs:1506-1531 | the locked revision step, entry creation on conflict included |
| MeshRevisions.AdvanceMeans | runtime-rust/crates/ify-controller/src/mesh.rs:1506-1531 | refused exactly on a mismatch under Reject; otherwise the revision goes up by one, up to 2^64 - 1, and the patch and time are noted; no other node changes |
| MeshRevisions.DeliverMeans | runtime-rust/crates/ify-controller/src/mesh.rs:1660-1718 | a delivered patch or snapshot takes effect on its node unless the node is already further; the time is noted in any case; no other node changes |
| MeshRevisions.TouchMeans | runtime-rust/crates/ify-controller/src/mesh.rs:1496-1504 | storing an artifact or snapshot notes it and the time on its node and nothing else |
| MeshRevisions.PatchStepMeans | runtime-rust/crates/ify-controller/src/mesh.rs:1225-1260 | a patch with an expected revision is logged with what it expected, found and made, or leaves no trace |
| MeshRevisions.EveryInterleaving | runtime-rust/crates/ify-controller/src/mesh.rs:1178-1260 | in every interleaving revisions never decrease, accepted local patches step from base to base + 1 below saturation, get distinct new revisions, are flagged exactly on a mismatch, and never mismatch under Reject |
| MeshRevisions.PatchConflictsExactlyWhenOvertaken | runtime-rust/crates/ify-controller/src/mesh.rs:1178-1200 | a patch split into its read and its advance is always accepted, and is flagged exactly when the steps between raised the revision |
| MeshRevisions.DeliveriesLeaveMaximum | runtime-rust/crates/ify-controller/src/mesh.rs:1660-1718 | replicated patches and snapshots leave the greatest delivered or original revision |
| MeshRevisions.DeliveryOrderIrrelevant | runtime-rust/crates/ify-controller/src/mesh.rs:1660-1718 | their order and repetition are irrelevant to the revision |
| ReplicaProtocol.EveryInterleavingOwnsExactly | kernel-c/src/replication.c:70-172 | in every interleaving of creating, destroying and submitting calls each arena and scheduler ever made is in exactly one place: a slot, a call, or one destruction; live ids are distinct |
| ReplicaProtocol.NothingLeaksAtRest | kernel-c/src/replication.c:70-172 | with no call in progress no slot is draining and every resource is in a live slot or was destroyed exactly once |
| ReplicaLaws.CreatedIdIsUsable | kernel-c/src/replication.c:109-137 | the id handed out is the next one, unknown before, and finds a created slot with the caller's options and the arena and scheduler made for it |
| ReplicaLaws.UsableUntilDestroyed | kernel-c/src/replication.c:70-202 | in every interleaving that id finds that replica until the first call that destroys it |
| ReplicaLaws.HandedOutIdsAreDistinct | kernel-c/src/replication.c:124-135 | in every interleaving ids are handed out in ascending order |
| ReplicaLaws.UndisturbedCreation | kernel-c/src/replication.c:70-137 | on a table that is not full, four steps of one creation give its caller a usable replica with the options asked for and the two resources made |
| ReplicaLaws.DestroyHandsOver | kernel-c/src/replication.c:143-159 | destroying a usable replica takes its arena and scheduler, and from then on it takes no work |
| ReplicaLaws.FullTableGivesBoth | kernel-c/src/replication.c:115-121 | a creation that finds the table full gives back scheduler and arena and hands out nothing |
| ReplicaProtocol.SecondDestroyTakesNothing | kernel-c/src/replication.c:143-159 | the later of two racing destructions takes no resources |
| ReplicaProtocol.DestroyedForGood | kernel-c/src/replication.c:165-170 | a finished destruction leaves no live slot with the id, and no later step gives it out again |
| ReplicaRuntime.ReplicaTable.CreateEnd | kernel-c/src/replication.c:109-137 | uses the remembered slot if still free, otherwise another free one, and refuses only when all are live; the id returned finds that slot, created with the options, arena and scheduler passed, no other slot changes, and no live slot had the id |
| ReplicaRuntime.ReplicaTable.DestroyBegin | kernel-c/src/replication.c:143-159 | hands what the slot still holds to the caller and marks it draining |
| ReplicaRuntime.ReplicaTable.DestroyEnd | kernel-c/src/replication.c:165-170 | retires the slot if it still has the id; afterwards none has |
| ReplicaRuntime.ReplicaTable.SubmitState | kernel-c/src/replication.c:183-199 | refuses unknown and draining replicas; an accepted submission has a scheduler |
| ReplicaRuntime.ReplicaTable.CreateBegin | kernel-c/src/replication.c:76-89 | remembers a slot that is free now, and refuses exactly when all 32 are live |
| ReplicaRuntime.ReplicaTable.Find | kernel-c/src/replication.c:45-54 | the one live slot with the id, or none |
| TraceProtocol.EveryRunAccountsForEverySpan | kernel-c/src/trace.c:127-254 | after any run unread spans are the most recently completed ones in completion order, everything older was read or overwritten oldest first, completed = read + pending + overwritten, and no id is recorded twice |
| TraceProtocol.RecordedExactlyWhenNotEvicted | kernel-c/src/trace.c:127-215 | a span is recorded by its end, with the values given there, exactly when no begin stored into its slot, no earlier end of it and no shutdown came between |
| TraceProtocol.SecondBeginEvicts | kernel-c/src/trace.c:127-215 | two begins 256 ids apart: the end of the first changes nothing |
| TraceProtocol.NearbyBeginsSpare | kernel-c/src/trace.c:127-215 | a span survives every begin less than 256 ids away and is recorded with the values given at begin and end |
| TraceProtocol.SlotsMeetExactlyWhen | kernel-c/src/trace.c:141 | two ids share a slot exactly when they are a multiple of 256 apart |
| TraceProtocol.StartedMeans | kernel-c/src/trace.c:144-160 | each argument of begin is stored in its own field, the name as given or its first 63 characters |
| TraceProtocol.SessionBegins | kernel-c/src/trace.c:69-95 | starting up takes a power of two from 2 on, empties the buffer and forgets spans in flight, and keeps the id counter |
| TraceProtocol.ReservedIdIsNew | kernel-c/src/trace.c:131-132 | an id reserved is in no other place |
| TraceProtocol.ReadHandsOut | kernel-c/src/trace.c:221-243 | a reader is handed the oldest unread spans, as many as it asks for or as there are |
| TraceRuntime.RingPush | kernel-c/src/trace.c:194-202 | writing at the masked counter appends and loses the oldest entry exactly when the ring was full |
| TraceRuntime.RingPop | kernel-c/src/trace.c:235-239 | the entry at the masked read counter is the oldest, and advancing drops it |
| Bits.MaskLow | kernel-c/src/trace.c:195 | `x & (2^k - 1)` is the remainder of x by 2^k |
| TraceRuntime.TraceRing.Init | kernel-c/src/trace.c:69-95 | accepts exactly the powers of two from 2 on, once |
| TraceRuntime.TraceRing.Begin | kernel-c/src/trace.c:127-164 | the locked half fills the slot with the started span, whatever it held |
| TraceRuntime.TraceRing.End | kernel-c/src/trace.c:170-215 | records and emits the finished span if it is still in flight, dropping the oldest unread one when full |
| TraceRuntime.TraceRing.Read | kernel-c/src/trace.c:221-243 | hands out the oldest unread spans, oldest first |
| UndoHistory.EveryRunIsAZipper | runtime-rust/crates/ify-controller/src/node.rs:254-464 | every run of add, remove, update, move, undo and redo goes through exactly the snapshots of a zipper of whole graphs |
| UndoHistory.UndoThenRedoRestores | runtime-rust/crates/ify-controller/src/node.rs:414-464 | k undos and k redos restore the exact node map after any run |
| UndoHistory.UndoingEverythingEmptiesTheGraph | runtime-rust/crates/ify-controller/src/node.rs:414-436 | undoing everything returns to the empty graph after any run |
| UndoHistory.InverseUndoes | runtime-rust/crates/ify-controller/src/node.rs:192-207 | a command that says truly what it replaces is undone by its inverse, which is such a command too |
| NodeGraphRuntime.AddSucceedsExactlyWhenRequiredAreGiven | runtime-rust/crates/ify-controller/src/node.rs:261-278 | a node can be added exactly when every required parameter is supplied or given a default |
| NodeGraphRuntime.FinalParamsMeans | runtime-rust/crates/ify-controller/src/node.rs:261-268 | a caller's value wins over any default, otherwise the last declared default holds, otherwise the name is absent |
| NodeGraphRuntime.FirstMissingMeans | runtime-rust/crates/ify-controller/src/node.rs:270-278 | the parameter named is the first required one without a value |
| NodeGraphRuntime.NodeGraph.AddNode | runtime-rust/crates/ify-controller/src/node.rs:254-307 | a new node with defaults under the caller's values, one snapshot further; a missing required parameter changes nothing |
| NodeGraphRuntime.NodeGraph.UpdateNode | runtime-rust/crates/ify-controller/src/node.rs:345-381 | merges the updates, one snapshot further |
| NodeGraphRuntime.NodeGraph.ApplyCommand | runtime-rust/crates/ify-controller/src/node.rs:519-524 | executes a reversible command, records its inverse and forgets what could be redone: one snapshot further |
| NodeGraphRuntime.NodeGraph.RemoveNode | runtime-rust/crates/ify-controller/src/node.rs:315-336 | removes a node, one snapshot further, or reports that it is missing and changes nothing |
| NodeGraphRuntime.NodeGraph.MoveNode | runtime-rust/crates/ify-controller/src/node.rs:388-403 | moves a node, one snapshot further, or reports that it is missing and changes nothing |
| NodeGraphRuntime.NodeGraph.Undo | runtime-rust/crates/ify-controller/src/node.rs:414-436 | goes back one snapshot, or reports that there is none |
| NodeGraphRuntime.NodeGraph.Redo | runtime-rust/crates/ify-controller/src/node.rs:444-464 | goes forward one snapshot, or reports that there is none |
| Collaboration.DistinctIdsConverge | runtime-rust/crates/ify-canvas/src/collaboration.rs:180-203 | when different edits have different op ids every order and repetition converges to the edit with the greatest (timestamp, op id) per key |
| Collaboration.ConvergesExactlyWhenWinnersAreUnique | runtime-rust/crates/ify-canvas/src/collaboration.rs:180-203 | delivery order is irrelevant exactly when no key has two different newest edits |
| Collaboration.ResolveHoldsWinners | runtime-rust/crates/ify-canvas/src/collaboration.rs:191-203 | the resolver holds a newest edit for exactly the keys that were edited |
| Strings.LessMeans | runtime-rust/crates/ify-canvas/src/collaboration.rs:191-199 | op ids are compared as strings: a proper prefix is less, otherwise the first difference decides |
| Collaboration.RepeatedIdDiverges | runtime-rust/crates/ify-canvas/src/collaboration.rs:191-203 | op ids are not checked: two edits with one id and time leave whichever came first |
| Collaboration.CleanKeysNameTheirTargets | runtime-rust/crates/ify-canvas/src/collaboration.rs:209-220 | without colons and arrows in ids and names, two edits share a key exactly when they have the same target |
| KeyReadings.KeyIsSafeExactlyWhen | runtime-rust/crates/ify-canvas/src/collaboration.rs:209-220 | no edit about another field shares an edit's key if and only if that key can be read in one way only: ending in :position, around a :param:, or from edge: at a colon, an arrow and a colon |
| KeyReadings.EditsCollideExactlyWhen | runtime-rust/crates/ify-canvas/src/collaboration.rs:209-220 | two edits about different fields share a key if and only if the second's key has another reading, which gives the first one's field |
| KeyReadings.KeyIsOfExactlyItsReadings | runtime-rust/crates/ify-canvas/src/collaboration.rs:209-220 | the fields with a given key are exactly its readings, whatever ids and names contain |
| Collaboration.PositionMeetsParamExactlyWhen | runtime-rust/crates/ify-canvas/src/collaboration.rs:209-212 | the exact pairs of node moves and parameter settings that share a key |
| Collaboration.ColonsCollide | runtime-rust/crates/ify-canvas/src/collaboration.rs:211-212 | with colons, moving one node and setting a parameter of another share a key |
| Collaboration.ArrowsCollide | runtime-rust/crates/ify-canvas/src/collaboration.rs:213-218 | with arrows, two different edges share a key |
| Collaboration.ConflictResolver.Apply | runtime-rust/crates/ify-canvas/src/collaboration.rs:191-203 | accepts exactly the edits newer than what is held, and then holds a newest one of all delivered |
| ReplicaPlanning.PlanIsWithinLimits | runtime-rust/crates/ify-controller/src/model_runtime.rs:701-776 | each chosen module gets between 1 and its own maximum; the total is the scaled demand as far as the first choice's limit allows, at most the demand's maximum or one per module |
| ReplicaPlanning.PlanMeans | runtime-rust/crates/ify-controller/src/model_runtime.rs:701-787 | each selection names a chosen module with its own score; the chosen ones are unbeaten, of all modules or, from complexity 0.7 on, of ML and of AI; the rationale says which |
| ReplicaPlanning.ScoreMeans | runtime-rust/crates/ify-controller/src/model_runtime.rs:712-722 | the score moves from the complexity weight to the efficiency as the clamped target goes from 0 to 1 |
| ReplicaPlanning.DesiredTotalIsLeast | runtime-rust/crates/ify-controller/src/model_runtime.rs:849-855 | the total asked for is the least number that covers the maximum scaled by complexity and gives each chosen module one |
| ReplicaPlanning.DemandMaximumKeptExactlyWhen | runtime-rust/crates/ify-controller/src/model_runtime.rs:849-855 | one or two modules are chosen, as complexity and registered kinds decide, and the demand's maximum is kept exactly when it is at least that number |
| ReplicaPlanning.DemandForNoneGetsOne | runtime-rust/crates/ify-controller/src/model_runtime.rs:849-855 | whatever is registered, a demand for no replicas gets at least one |
| ReplicaPlanning.RankSorted | runtime-rust/crates/ify-controller/src/model_runtime.rs:716-725 | the ranking is the same multiset of modules in descending score, modules of equal score in their listed order |
| ReplicaPlanning.BestOfEach | runtime-rust/crates/ify-controller/src/model_runtime.rs:730-744 | the first module of each kind in the ranking is one that none of its kind beats |
| ReplicaPlanning.Choose | runtime-rust/crates/ify-controller/src/model_runtime.rs:727-754 | from the threshold on the best of each kind, ML first, if both exist; otherwise the best of all |
| ReplicaPlanning.Share | runtime-rust/crates/ify-controller/src/model_runtime.rs:757-774 | the first choice takes the surplus up to its limit, the others one each |
| ReplicaPlanning.BuildPlan | runtime-rust/crates/ify-controller/src/model_runtime.rs:701-787 | the plan of the modules in some listing, or none without modules |
| ReplicaPooling.EveryRunStaysInStep | runtime-rust/crates/ify-controller/src/model_runtime.rs:648-699 | any run of provisions, finished or stopped by the limit, and releases keeps pool and kernel equal and within the limit |
| ReplicaPooling.ProvisionOutcome | runtime-rust/crates/ify-controller/src/model_runtime.rs:664-682 | as many replicas are made as were asked for or as there is room for, and both maps stay equal |
| ReplicaPooling.ProvisionContents | runtime-rust/crates/ify-controller/src/model_runtime.rs:664-682 | earlier replicas stay and each request made has its own under consecutive new ids |
| ReplicaPooling.RequestAt | runtime-rust/crates/ify-controller/src/model_runtime.rs:664-673 | the requests come module by module, each as often as planned, with the demand's dimension, task, model and policy and the module's id |
| ReplicaPooling.ReplicaPool.Provision | runtime-rust/crates/ify-controller/src/model_runtime.rs:658-683 | succeeds exactly when there is room for the whole plan; after a refusal the replicas already made stay in both maps |
| ReplicaPooling.ReplicaPool.ReleaseReplica | runtime-rust/crates/ify-controller/src/model_runtime.rs:686-699 | destroys a held replica in both maps and ignores other ids |
| ReplicaPooling.InMemoryKernel.CreateReplica | runtime-rust/crates/ify-controller/src/model_runtime.rs:515-531 | refuses at the limit, otherwise hands out the next id |

## Left out

- ArenaAllocator.Arena.Alloc: the platform places whole allocations below 2^63; once a slab's header has been written out of bounds (`overrun`), or a wrapped sum has left a block outside its slab's used bytes, nothing is promised about later calls, as in C.
- ArenaAllocator.Arena.Search: its unbounded loop is shown to end because the platform's memory is finite; with a guaranteed fit it ends after at most one new slab.
- ArenaAllocator.Arena.Stats: reports the number of live blocks; blocks are never freed one by one.
- NodeGraphRuntime.NodeGraph.AddNode: the random id is an input, required to be unused, as the source assumes of version-4 identifiers.
- Timers.TimerList.Cancel: only for timers still pending; the source's call on a timer already freed is a pointer-lifetime question.
- FlowControl.FlowTerminates: assumes that the model evaluator, a foreign component, does not itself report a missing step; visit counts are unbounded natural numbers, not 32-bit counters.
- FlowControl.FallbackCycleNeverEnds: visit counts are unbounded here; the source's 32-bit counter overflows after 2^32 visits of a step, and with a limit of 2^32 - 1 its test can never hold. The bound on the counts excludes an overflow for shorter runs.
- FlowControl.CallLowersMeasure: the same unbounded counts.
- FlowControl.NoMissingStep: the same assumption about the model evaluator.
- ReplicaPlanning.PlanIsWithinLimits: scores, complexities and the ceiling are exact reals; floating-point rounding and NaN are not modelled.
- ReplicaPooling.ReplicaPool.Provision: the order in which the hash map yields the modules is an input.
- MeshStoreRuntime.MeshStore.CollectGarbage: one sequential call; the moments between its separate locks, in which another thread sees the map and the index disagree, are not modelled.
- MeshStoreRuntime.MeshStore.Produce: one clock reading serves the whole call.
- SchedulerRuntime.Scheduler.Return: a task function is an arbitrary outcome delivered later; what it does in between, further submissions included, are other steps of the protocol.
- The release of memory by destroying an arena, and running out of memory in the scheduler and timers.
- Scheduler destruction, and submitting through a scheduler pointer kept after the replica lock is released.
- Wrap-around of 64-bit sequence counters and 32-bit ids: these are natural numbers. Revisions saturate at 2^64 - 1 as in the source, and timer deadlines wrap.
- Replica policies' default arena capacity and task limit: parameters of the resources, which are only names here.
- Action-log payloads, tracing output, broadcast channels, serialisation, the schema registry of the mesh store, groups and subgraphs of the flow graph beyond patches and node removal, graph validation reports.
- Applying presets and customising nodes, hyperparameter tuning and reload policies, cursor presence.
- The other modules of the repository (catalogues, wrappers, canvas geometry, boot order): they would add only easy members.
