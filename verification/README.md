# LibreQoS, modelled and proved

LibreQoS compiles a logical ISP topology and its subscriber circuits into a Linux HTB class tree
with one leaf qdisc per circuit, and keeps that tree current. This project models the parts of it
whose correctness is not visible from one function body, and proves what they keep, what they
refine and what they undo. `dafny verify dfyconfig.toml` checks everything.

| file | what it models |
|---|---|
| `QdiscHandles.dfy`, `HandleAllocator.dfy` | the qdisc handle allocator: states and runs as values, and the Rust structs as classes proved against them |
| `TopologyTree.dfy`, `VirtualNodes.dfy`, `DepthCompression.dfy`, `CpuBins.dfy` | the topology compiler; a tree is described by its *rows*, the preorder list of root-to-node paths, and every pass is characterised by what it does to each row |
| `RatePasses.dfy`, `SiteAssignment.dfy`, `NodeOrder.dfy` | the rate passes (inherit, repair, cap again), the attachment of circuits and the order of its visits |
| `QueueMath.dfy`, `TcKernel.dfy`, `BakeryCommands.dfy`, `MqSetup.dfy`, `BuilderStream.dfy`, `BuiltTree.dfy`, `HandleAssignment.dfy` | the emitted tc commands, with a small kernel semantics: roots, HTB qdiscs, classes and leaves per interface; the class tree a reload leaves in the kernel; and the handles the allocator gives a whole tree |
| `GraphPasses.dfy`, `RelaySites.dfy`, `Pruning.dfy`, `NetworkGraph.dfy` | the integration graph: passes as functions on node lists, where they leave the nodes and whom they drop, and the mutable graph with its id index and child cache |
| `RefreshProtocol.dfy`, `Scheduler.dfy` | the refresh protocol between scheduler and topology runtime as a state machine, and the scheduler's jobs, each carrying a ghost history that shows it is a run of that machine |
| `CpuBalancer.dfy` | the greedy largest-first fallbacks |
| `FunnelCounters.dfy` | network.json as a vector with ancestor lists, and the counters that funnel traffic upwards |
| `AddressMerge.dfy`, `AddressPriority.dfy`, `AddressTables.dfy`, `AddressOrder.dfy`, `AddressSpelling.dfy` | the prioritised merge of four router lists into one address pair per MAC, which list decides, and what the order of the lists can change |

Where the code keeps state in place, the model is a class or a loop proved equal to a function of
the old state; the lemmas are about that function.

## What turned out false, and when it holds

- The search hint of the allocator does not always agree with the plain search: a handle that was
  reserved when the hint passed it stays hidden after its reservation is dropped
  (`QdiscHandles.HintHidesUnreservedHandle`). The two agree exactly when no free handle of the
  range the hint is in lies below it or nothing is free from the hint up
  (`QdiscHandles.HintedIsPlainIff`), and therefore on every run whose reserved sets do not shrink
  below the one the search is made with (`QdiscHandles.HintedRunRefinesPlain`).
- A failed rotation changes no assignment, but like a failed assignment it leaves a default entry
  for an interface it had never seen (`QdiscHandles.FailedAllocationChangesNothing`).
- Promotion can silently lose a node: a real sibling that follows overwrites a promoted child of
  the same name (`VirtualNodes.RealNodeOverwritesPromotedChild`). The code neither raises nor loses
  anything exactly when no physical level, at the top or below a real node, gets a name twice
  (`VirtualNodes.PromotionExactIff`); globally unique names are one way to have that.
- The repaired minimum is strictly below the ceiling exactly when the whole-Mbps ceiling of the
  path is at least 1 (`RatePasses.MinStrictlyBelowIff`).
- A forced prune removes the classes of a circuit exactly when the circuit's majors are its
  parents' majors, or the two majors are swapped on one shared interface
  (`BakeryCommands.ForcedPruneCleansIff`).
- The explicit handles of one side of MQ setup are not always distinct. They are exactly when there
  are no queues, or at most 0x2001 plus the offset of them and no major beyond 0x6FFF
  (`MqSetup.HandlesDistinctIff`): otherwise a major meets an infrastructure handle or those saturate.
- Replacing the root keeps the id index complete exactly when the old root's id is kept or was not
  shared (`NetworkGraph.Graph.ReplaceRootNode`).
- The recorded hash can be trusted, in the sense that a successful refresh applied the payload it
  names, on all runs with distinct hashes exactly when Insight topology is off
  (`RefreshProtocol.SafeIffNoInsight`). With Insight topology off, a repeated hash can fool it
  (`RefreshProtocol.RepeatedHashFoolsTheScheduler`): the publications that keep it right on every
  run are exactly those whose newest hash is new (`RefreshProtocol.SafeIffNewestHashIsNew`);
  older repeats are harmless. A quiet successful tick converges exactly
  when a wait is pending or a hash is recorded (`Scheduler.Jobs.Tick`).
- An object-valued key that comes before `children` in a node misplaces the children below it
  (`FunnelCounters.ObjectBeforeChildrenMisplaces`); paths are right exactly when no `children`
  object holding nodes follows another object holding nodes (`FunnelCounters.LoadedPathsIff`).
- A counter equals its subtree sum exactly when the sum fits in 64 bits: an overflow resets it to
  zero (`FunnelCounters.CounterIsSubtreeSumIff`).
- No MAC's own verdict depends on the order of the lists, but the final map can. Read by networks
  it is independent of every rearrangement of the four lists exactly when no two MACs that enter
  through the same list, the last one to pair an IPv4 address, pair it with different networks
  (`AddressOrder.ResultOrderFreeIff`). Its texts can depend on the order even then, because the
  first spelling of an address becomes the key (`AddressOrder.SpellingFollowsOrder`); with one
  spelling per address in the lists they do so under exactly the same condition
  (`AddressSpelling.TextOrderFreeIff`).
- Exceptions can put a generated site below a client for good
  (`GraphPasses.ExceptionTrapsGeneratedSite`). The domain of the exact condition is a root that is
  no client, which is the root the constructor creates: under any exclusions, exceptions and
  promoted roots the convert and lift passes then do their job exactly when no exception sends a
  parentless generated site to a childless client without a parent
  (`GraphPasses.ClientsAreLeavesIff`). Outside that domain they can fail without any exception
  (`GraphPasses.ClientRootCatchesItself`).
- Preparing a graph does not always keep its nodes connected and their ancestors. An exception can
  close a loop (`RelaySites.ExceptionCutsOff`), a missing generated site costs what is below its
  relay every ancestor but the root (`RelaySites.MissingSiteLosesAncestors`). Read on the graph in
  which the exceptions for generated sites apply to their relays, nothing is ever cut off
  (`RelaySites.ConnectedStays`), and the ancestors that are neither clients nor relays stay exactly
  when every node that loses its site had no such ancestor but the root
  (`RelaySites.AncestorsStayIff`); then connectivity is the same in both directions
  (`RelaySites.ConnectedIff`).
- Reconnected nodes do not stay reconnected: pruning anything hangs every node by its parent id
  again, and two sites that name each other are cut off a second time
  (`Pruning.PruningCutsOffAgain`).

## Model

| member | source | states |
|---|---|---|
| `QdiscHandles.HintedRunRefinesPlain` | src/rust/lqos_bakery/src/qdisc_handles.rs:326-408 | after every run of assign, rotate, release and clear that reserves nothing outside a fixed set, from a state whose hint is at its start, the hinted search for that set returns what a plain smallest-free search returns: in the preferred range while the hint is there, else in the low range, and over everything once the hint is low |
| `QdiscHandles.HintedIsPlainIff` | src/rust/lqos_bakery/src/qdisc_handles.rs:326-400 | for arbitrary reserved sets: the hinted and the plain search agree if and only if nothing free is hidden behind the hint or nothing is free from the hint up |
| `QdiscHandles.HintHidesUnreservedHandle` | src/rust/lqos_bakery/src/qdisc_handles.rs:326-408 | a two-step run in which dropping a reservation makes the hinted search miss the smallest free handle |
| `QdiscHandles.SearchFailsIffFull` | src/rust/lqos_bakery/src/qdisc_handles.rs:326-400 | None exactly when every handle of 1..0xFFFE is reserved, owned or retired; otherwise a free handle of that range |
| `QdiscHandles.RunKeepsTight` | src/rust/lqos_bakery/src/qdisc_handles.rs:318-408 | over every run with reserved sets inside a given one, nothing free is hidden behind the hint |
| `QdiscHandles.RunKeepsInv` | src/rust/lqos_bakery/src/qdisc_handles.rs:134-316 | over every run: circuits and owners are exact inverses per interface, handles lie in 1..0xFFFE, and no owned handle is retired |
| `QdiscHandles.NoSharedHandle` | src/rust/lqos_bakery/src/qdisc_handles.rs:300-309 | after any run no two circuits of an interface share a handle |
| `QdiscHandles.IssuedHandleIsClean` | src/rust/lqos_bakery/src/qdisc_handles.rs:203-255 | an issued handle is not reserved, not retired, within range, and recorded for its circuit |
| `QdiscHandles.FailedAllocationChangesNothing` | src/rust/lqos_bakery/src/qdisc_handles.rs:203-255 | a failed assign or rotate changes no assignment, hint or retirement |
| `QdiscHandles.RotationRetiresOldHandle` | src/rust/lqos_bakery/src/qdisc_handles.rs:232-255 | a successful rotate retires the old handle and issues another one |
| `QdiscHandles.RetiredNotReissued` | src/rust/lqos_bakery/src/qdisc_handles.rs:134-255 | in any sequence of operations a retired handle is not issued on its interface before the next clear |
| `QdiscHandles.HandleIsStable` | src/rust/lqos_bakery/src/qdisc_handles.rs:202-229 | over every run that neither releases nor rotates a circuit on an interface and never reserves its handle when assigning it: each assignment of the circuit issues the handle it has, and it still has it at the end |
| `QdiscHandles.AssignReuses` | src/rust/lqos_bakery/src/qdisc_handles.rs:202-229 | a handle that is not reserved is reused and nothing changes; otherwise the assignment fails exactly when every handle of 1..0xFFFE is reserved, owned or retired, and then the circuit keeps what it had |
| `QdiscHandles.OthersKeepHandles` | src/rust/lqos_bakery/src/qdisc_handles.rs:134-263 | no operation changes the handle of a circuit it does not name, on any interface |
| `QdiscHandles.AssignFreesNothing` | src/rust/lqos_bakery/src/qdisc_handles.rs:202-229 | with the same reserved set an assignment makes no unavailable handle available |
| `QdiscHandles.RotateMoves` | src/rust/lqos_bakery/src/qdisc_handles.rs:232-255 | a rotation fails exactly when no handle is free, and otherwise gives the circuit another handle than it had |
| `QdiscHandles.ReleaseFrees` | src/rust/lqos_bakery/src/qdisc_handles.rs:258-263 | after a release the circuit has no handle, nobody owns the old one, and nothing was retired |
| `QdiscHandles.ClearFrees` | src/rust/lqos_bakery/src/qdisc_handles.rs:134-144 | a clear forgets every retirement and changes no handle |
| `QdiscHandles.LoadedIsConsistentIff` | src/rust/lqos_bakery/src/qdisc_handles.rs:284-294 | a loaded interface satisfies the invariant if and only if its handles are distinct and in 1..0xFFFE |
| `HandleAllocator.InterfaceHandleState.FromCircuits` | src/rust/lqos_bakery/src/qdisc_handles.rs:284-294 | the owners of a loaded interface name, for each handle, the last circuit that has it |
| `HandleAllocator.InterfaceHandleState.InsertCircuit` | src/rust/lqos_bakery/src/qdisc_handles.rs:300-309 | new state of both maps and the hint, stale inverse entries removed |
| `HandleAllocator.InterfaceHandleState.RemoveCircuit` | src/rust/lqos_bakery/src/qdisc_handles.rs:311-316 | removes both entries, lowers the hint, returns the freed handle |
| `HandleAllocator.InterfaceHandleState.NoteReusableHandle` | src/rust/lqos_bakery/src/qdisc_handles.rs:318-324 | lowers the hint to a freed handle of the range the hint is in, or restarts it when the last circuit is gone |
| `HandleAllocator.InterfaceHandleState.ScanAvailable` | src/rust/lqos_bakery/src/qdisc_handles.rs:375-400 | the scanning loop returns the least unblocked handle of the range, or None |
| `HandleAllocator.InterfaceHandleState.NextFreeHandle` | src/rust/lqos_bakery/src/qdisc_handles.rs:326-373 | refines the hinted search and advances the hint only on success |
| `HandleAllocator.QdiscHandleState.AssignCircuitHandle` | src/rust/lqos_bakery/src/qdisc_handles.rs:203-229 | result and whole new state are those of the assign step of a run |
| `HandleAllocator.QdiscHandleState.RotateCircuitHandle` | src/rust/lqos_bakery/src/qdisc_handles.rs:232-255 | result and whole new state are those of the rotate step |
| `HandleAllocator.QdiscHandleState.ReleaseCircuit` | src/rust/lqos_bakery/src/qdisc_handles.rs:258-263 | new state of the release step; true exactly when the circuit had a handle |
| `HandleAllocator.QdiscHandleState.ClearRetiredHandles` | src/rust/lqos_bakery/src/qdisc_handles.rs:134-144 | every interface's retired handles become reusable, the retired sets empty |
| `VirtualNodes.PromotionNeverRaises` | src/virtual_tree_nodes.py:53-92 | with unique names the code never raises and builds the promoted tree |
| `VirtualNodes.PromotionRows` | src/virtual_tree_nodes.py:53-92 | the rows of the promoted tree are the rows of the real nodes, in order and each once, with the virtual nodes dropped from each path |
| `VirtualNodes.RealNodeSurvives` | src/virtual_tree_nodes.py:53-92 | every real node is in the physical tree, below its real ancestors, with its type, rates and other fields and without the virtual flag |
| `VirtualNodes.AncestryUnchanged` | src/virtual_tree_nodes.py:53-92 | a real node is above another in the logical path if and only if it is in the physical path |
| `VirtualNodes.PhysicalParentIsMapImage` | src/virtual_tree_nodes.py:20-92 | the physical parent of a real node is the map image of its logical parent, None meaning top level |
| `VirtualNodes.MapIsNearestReal` | src/virtual_tree_nodes.py:20-50 | the collected map sends every node to its nearest real ancestor or itself, for every tree with unique names |
| `VirtualNodes.MapOfRow` | src/virtual_tree_nodes.py:20-50 | the same, read off for one path of the tree |
| `VirtualNodes.PromotionExactIff` | src/virtual_tree_nodes.py:53-92 | for every tree: the code succeeds with exactly the real nodes, none lost, if and only if no physical level gets a name twice |
| `VirtualNodes.PromotionIsIdempotent` | src/virtual_tree_nodes.py:53-92 | whenever promotion succeeds, promoting its result succeeds and changes nothing |
| `VirtualNodes.RealNodeOverwritesPromotedChild` | src/virtual_tree_nodes.py:84-90 | the family of inputs with a repeated name on which a promoted child is lost |
| `VirtualNodes.BuildPhysicalNetwork` | src/virtual_tree_nodes.py:53-92 | the recursive builder with its loops computes the promotion function, errors included |
| `VirtualNodes.NodeMapBuilder.Recurse` | src/virtual_tree_nodes.py:30-48 | the in-place recursion extends the map and the list of virtual nodes by exactly those of the forest |
| `VirtualNodes.VirtualMarkers` | src/virtual_tree_nodes.py:1-18 | a node is virtual exactly with the flag set or with the type "virtual" in any letter case |
| `DepthCompression.FlattenKeepsNodesAndBoundsDepth` | src/LibreQoS.py:1911-1940 | for every tree with unique names: the compressed tree has each node once with its fields, its rows are the compressed rows, and no row is longer than 6 |
| `DepthCompression.CompressPathKeepsAncestry` | src/LibreQoS.py:1922-1939 | a compressed path keeps its node, has at most 6 entries, and its new parent was one of the node's ancestors |
| `DepthCompression.FlatAIsCompress` | src/LibreQoS.py:1922-1939 | the dictionary-updating code adds exactly the compressed forest, given unique names |
| `DepthCompression.FlatBIsSpread` | src/LibreQoS.py:1911-1921 | flattenB adds every node of the forest once, in preorder, without children |
| `DepthCompression.CompressionRows` | src/LibreQoS.py:1922-1939 | row by row: compression of a forest at any of the kept levels is compression of each path |
| `DepthCompression.FlattenA` | src/LibreQoS.py:1922-1939 | the loop with its dictionary updates computes the recursive definition |
| `DepthCompression.FlattenB` | src/LibreQoS.py:1911-1921 | the loop with its dictionary updates computes the recursive definition |
| `CpuBins.BinNetwork` | src/LibreQoS.py:2161-2179 | the distributing loop gives every bin exactly its nodes, in order |
| `CpuBins.BinnedRowIff` | src/LibreQoS.py:2161-2179 | the paths of the binned tree are exactly the bins and the old paths, each below the bin its top-level node was given |
| `CpuBins.ClassChainsFitHtb` | src/LibreQoS.py:1911-1940 | for every input depth, with the bin layer and the circuit leaf no class chain exceeds HTB's 8 levels |
| `RatePasses.InPlaceIsApply` | src/LibreQoS.py:1852-1907 | rewriting rates in place, node by node, gives the tree the recursive pass describes, for all three passes |
| `RatePasses.RateTable.Run` | src/LibreQoS.py:1852-1907 | the in-place recursion over a level leaves exactly the table of the pass |
| `RatePasses.ApplyRows` | src/LibreQoS.py:1852-1907 | a pass over a tree is a scan down every path |
| `RatePasses.InheritedCeiling` | src/LibreQoS.py:1852-1868 | after inheritance a node's ceiling is the minimum of the truncated ceilings on its path and the capacity |
| `RatePasses.InheritedMinimum` | src/LibreQoS.py:1852-1868 | after inheritance a node's guaranteed rate is the least of the truncated rates on its path and the capacity's, held by the ceiling of the path |
| `RatePasses.ShapedMinimum` | src/LibreQoS.py:1852-1907 | after inherit and repair the guaranteed rate is that least one where it is below the ceiling of the path, otherwise the ceiling minus 1, or 0.01 for ceilings below 1 |
| `RatePasses.ShapedRates` | src/LibreQoS.py:1852-1907 | after inherit and repair, with a path ceiling of at least 1 Mbps: ceilings and minimums never grow downwards, every minimum is strictly below its ceiling, the ceiling is that of the path |
| `RatePasses.MinStrictlyBelowIff` | src/LibreQoS.py:1888-1896 | the repaired minimum is strictly below the ceiling if and only if the path ceiling is at least 1 |
| `RatePasses.PreparedTree` | src/LibreQoS.py:1852-1940 | inherit, repair and flatten together shape and compress every path of the original tree |
| `RatePasses.PreparedRates` | src/LibreQoS.py:1852-1940 | on every edge of the flattened tree the child's ceiling and rate are at most the parent's, every rate is strictly below its ceiling, every ceiling is the minimum over the original ancestor path, and every rate the least on that path or the ceiling minus 1 |
| `RatePasses.SiteAssignmentKeepsRates` | src/LibreQoS.py:2320-2323 | the later capping changes no rate of an unbinned prepared tree |
| `RatePasses.RecapIsNoOp` | src/LibreQoS.py:2320-2323 | capping again leaves every settled path as it is |
| `RatePasses.RecapBoundsCeilings` | src/LibreQoS.py:2320-2323 | whatever tree it receives, after the capping a node's ceiling is the least on its path and the capacity, its guaranteed rate the least of those on the path, the capacity's and its own ceiling |
| `SiteAssignment.AssignedUnder` | src/LibreQoS.py:2297-2490 | after assignment and attachment every site is under its parent's ceilings, every circuit under its site's, and every circuit minimum under its maximum |
| `SiteAssignment.CircuitsOnce` | src/LibreQoS.py:2373-2490 | every circuit chosen for some node is attached exactly once in the whole tree and no other is, although a circuit may be chosen for several nodes |
| `SiteAssignment.SitesAreOf` | src/LibreQoS.py:2373-2490 | the sites have the shape of the tree, the minors and the rates of their nodes; below each hang, in plan order, exactly the circuits chosen for it that no earlier node took, each with the id, minor, handles and override of its own plan entry; in each direction its ceiling is the lesser of the plan's and the node's, its minimum the lesser of that ceiling and the plan's minimum, or 1 exactly where the node's circuits ask for more than its minimum in some direction |
| `SiteAssignment.NodeIsHung` | src/LibreQoS.py:2393-2470 | the same for one node: which entries are used, in which order, with which rates, and which ids are attached and lowered afterwards |
| `SiteAssignment.Attachment.Walk` | src/LibreQoS.py:2373-2490 | the walk with its growing set of attached ids computes the attached tree and the final sets, for nodes given in the order of the visits |
| `NodeOrder.AttachCircuits` | src/LibreQoS.py:2024-2033 | the whole of site assignment and attachment: every level is visited in ascending order of names, a top level of bins by number, no path lost; sites and circuits are those of their nodes and plan entries, sites end under their parent's ceilings, circuits under their site's, each chosen circuit exactly once |
| `NodeOrder.ArrangeCommutes` | src/LibreQoS.py:2297-2356 | capping rates in sorted order gives the sorted tree of the capped rates: no rate depends on the order of the visits |
| `NodeOrder.ArrangedRows` | src/LibreQoS.py:2024-2033 | ordering the visits keeps every path of the tree with all its fields, as often as it was there |
| `NodeOrder.ArrangedInOrder` | src/LibreQoS.py:2024-2033 | every level ascends by name, a top level made of bins by bin number |
| `SiteAssignment.Attachment.Hang` | src/LibreQoS.py:2383-2480 | the loop over one node's circuits hangs exactly those the plan gives the node and no earlier node took, entry by entry, with the rates described for `SiteAssignment.SitesAreOf` |
| `SiteAssignment.ReloadQuanta` | src/LibreQoS.py:2320-2323 | end to end: for every tree, binned or not, and every set of circuits, every class quantum of a reload lies in 1522..60000 |
| `QueueMath.ComputeR2q` | src/rust/lqos_bakery/src/queue_math.rs:80-100 | the increment loop terminates at the least integer from 10 up with rate*125000/r2q at most 60000 |
| `QueueMath.R2q` | src/rust/lqos_bakery/src/queue_math.rs:80-100 | the specification of that divisor: it bounds the quantum, and no smaller one from 10 up does |
| `QueueMath.QuantumInBounds` | src/rust/lqos_bakery/src/queue_math.rs:103-115 | every rate up to the capacity gets a quantum in 1522..60000 |
| `QueueMath.QuantumIsFloor` | src/rust/lqos_bakery/src/queue_math.rs:103-115 | the quantum is the floor of rate*125000/r2q whenever that is at least 1522, and 1522 otherwise |
| `TcKernel.DistinctStreamIsClean` | src/rust/lqos_bakery/src/commands.rs:430-964 | a stream with known parents and distinct new classes, attachment points and handles runs without a failing or overwriting command |
| `BakeryCommands.HtbLazyAddThenPrune` | src/rust/lqos_bakery/src/commands.rs:770-1110 | HTB-lazy: live add then unforced prune returns to the builder state, the add gives the full circuit, and the kernel accepts it exactly when the circuit's handles are free |
| `BakeryCommands.FullLazyPruneThenAdd` | src/rust/lqos_bakery/src/commands.rs:770-1110 | fully lazy: prune then live add returns to the builder state, given majors equal to the parent's, and the kernel accepts the add exactly when the parents exist and the handles are free |
| `BakeryCommands.ForcedPruneLeavesNothing` | src/rust/lqos_bakery/src/commands.rs:981-1110 | a forced prune returns to the kernel state without the circuit, for every override pair, with or without leaves, and on a stick |
| `BakeryCommands.ForcedPruneCleansIff` | src/rust/lqos_bakery/src/commands.rs:981-1110 | both classes are gone if and only if the majors match or are swapped on one shared interface |
| `BakeryCommands.NotLazyDoesNothing` | src/rust/lqos_bakery/src/commands.rs:770-1010 | without laziness a live update adds nothing and an unforced prune is refused |
| `BakeryCommands.QdiscsBeforeClasses` | src/rust/lqos_bakery/src/commands.rs:1030-1110 | in every prune all qdisc deletions come before all class deletions |
| `BakeryCommands.BuilderAdds` | src/rust/lqos_bakery/src/commands.rs:770-964 | the kernel state after the builder's commands holds the circuit's two classes and, unless HTB-lazy, its leaves |
| `BakeryCommands.OverrideSides` | src/rust/lqos_bakery/src/lib.rs:3432-3455 | an override without a slash serves both directions; otherwise the first slash divides it into download and upload, trimmed, an empty side unset |
| `BakeryCommands.TrimIs` | src/rust/lqos_bakery/src/lib.rs:3439-3441 | trimming takes all blanks off both ends and nothing else |
| `BakeryCommands.NoneInAnyCase` | src/rust/lqos_bakery/src/commands.rs:889-941 | exactly "none", in any letter case, turns a direction off |
| `MqSetup.Bakery.Setup` | src/rust/lqos_bakery/src/commands.rs:430-691 | the pushing loops give the setup stream, the root commands depend on the flag, and the flag is set |
| `MqSetup.Bakery.PushQueues` | src/rust/lqos_bakery/src/commands.rs:485-691 | one side's loop over the queues emits exactly the side's commands |
| `MqSetup.FromSetup` | src/rust/lqos_bakery/src/qdisc_handles.rs:27-49 | the loops reserve exactly the majors of both sides, merged on a shared interface |
| `MqSetup.SideHandlesDistinct` | src/rust/lqos_bakery/src/qdisc_handles.rs:77-83 | all explicit handles of a side with few enough queues are distinct, and lie in its range of majors or of infrastructure handles |
| `MqSetup.HandlesDistinctIff` | src/rust/lqos_bakery/src/qdisc_handles.rs:77-83 | for every offset below 0xFFFF and every number of queues: the handles of a side are distinct if and only if there are no queues, or at most 0x2001 plus the offset and no major beyond 0x6FFF |
| `MqSetup.SetupHandlesAreReserved` | src/rust/lqos_bakery/src/qdisc_handles.rs:27-83 | the handles of both sides together are distinct and each is reserved on its interface |
| `MqSetup.ReservedExactly` | src/rust/lqos_bakery/src/qdisc_handles.rs:27-83 | reserved on an interface are the MQ root 0x7FFF, 0xFFFF, and the majors and infrastructure handles of its own queues, and nothing else |
| `MqSetup.IssuedHandleAvoidsSetup` | src/rust/lqos_bakery/src/qdisc_handles.rs:203-255 | no circuit handle issued against that reserved set is a handle of MQ setup |
| `MqSetup.SideParents` | src/rust/lqos_bakery/src/commands.rs:485-691 | every command of a side names a parent an earlier one created, and afterwards every queue's HTB qdisc exists |
| `BuilderStream.BuilderStreamIsClean` | src/rust/lqos_bakery/src/commands.rs:430-964 | for every tree, queue count and start state and distinct unreserved circuit handles: every command of a full reload names only parents created earlier, and no class, leaf or handle is created twice |
| `BuiltTree.BuilderBuildsTree` | src/LibreQoS.py:2622-2809 | for every tree: after a full reload each site and circuit has a class on both interfaces, below the class of the site that encloses it, the queue's HTB qdisc at the top; its rate and ceil are its own minimum and maximum in that direction and its quantum is the floor; each circuit has exactly the qdiscs it wants, with its handles, ceilings and overrides; every queue has its HTB qdisc, root and default class; and the kernel holds no other class |
| `BuiltTree.StreamIsHeld` | src/rust/lqos_bakery/src/commands.rs:430-964 | in a stream without deletions and with distinct classes and attachment points everything created is still there, unchanged, at the end |
| `HandleAssignment.AssignedStreamIsClean` | src/rust/lqos_bakery/src/lib.rs:3298-3345 | the same cleanliness with nothing assumed about handles: they are the ones the allocator issues, from any consistent state and with any extra reservations, to circuits with distinct hashes; and the kernel then holds the tree with those handles and no other class |
| `HandleAssignment.AssignedHandlesAreClean` | src/rust/lqos_bakery/src/lib.rs:3298-3345 | assigning handles over a whole tree keeps the allocator consistent and gives handles that are distinct per interface and unreserved |
| `HandleAssignment.AssignmentIsStable` | src/rust/lqos_bakery/src/lib.rs:3298-3345 | assigning over a tree changes nothing but handles; each circuit has the handle the allocator holds for it and goes without only where the interface has none left; assigning the same tree again gives the same handles and leaves the allocator as it is |
| `HandleAssignment.WithAssignedHandles` | src/rust/lqos_bakery/src/lib.rs:3298-3345 | one circuit's down and up handle from the allocator object, against the layout and any extra reserved handles; given handles kept, no up handle on a stick |
| `BuilderStream.StreamQuanta` | src/rust/lqos_bakery/src/commands.rs:739-764 | every class of a reload whose ceilings fit the capacity has a quantum of 1522..60000 |
| `BuilderStream.Batch.Visit` | src/LibreQoS.py:2622-2809 | one visited node appends its classes, its circuits, then its children's commands below its own class; what the whole stream builds is `BuiltTree.BuilderBuildsTree` |
| `BuilderStream.Batch.Traverse` | src/LibreQoS.py:2622-2809 | the traversal appends exactly the stream of its subtrees |
| `GraphPasses.IndexIsLinearSearch` | src/integrationCommon.py:369-371 | with unique ids a sound and complete index agrees with a linear search |
| `GraphPasses.ReparentResolves` | src/integrationCommon.py:345-367 | after reparenting every parent index leads to the node with the parent id, or to the root when there is none |
| `GraphPasses.NoTopologyBelowClients` | src/integrationCommon.py:407-473 | convert, reparent, lift, reparent leaves no client with a site or client child, for every graph and root, cycles and nested relays included, when no setting touches a generated site |
| `GraphPasses.ClientsAreLeavesIff` | src/integrationCommon.py:278-473 | the same under any exclusions, exceptions and promoted roots, with a root that is no client, if and only if no exception traps a generated site |
| `GraphPasses.ExceptionTrapsGeneratedSite` | src/integrationCommon.py:278-299 | three nodes and one exception after which a site stays below a client |
| `GraphPasses.ClientRootCatchesItself` | src/integrationCommon.py:345-367 | why the domain excludes client roots: every client with children at the root whose generated site is excluded or promoted ends below itself |
| `RelaySites.ConnectedStays` | src/integrationCommon.py:407-473 | under any settings, for every input node: connected before, with the exceptions for generated sites read as exceptions for their relays, means connected afterwards |
| `RelaySites.AncestorsStayIff` | src/integrationCommon.py:407-473 | under any settings, with a root below nothing: every input node has the same ancestors before and after, clients and relays aside, if and only if every node whose site is excluded or read as the root had no such ancestor but the root |
| `RelaySites.ConnectedIff` | src/integrationCommon.py:407-473 | under that condition a node is connected afterwards if and only if it was before |
| `RelaySites.RelayPlaces` | src/integrationCommon.py:417-446 | a relay's site has the relay's id and name with the generated affixes and gathers the relay and the clients and sites below it; the site of a relay below no other relay has the relay's old parent, unless an exception gives it another |
| `RelaySites.PreparationKeepsPlaces` | src/integrationCommon.py:407-473 | all of this for the whole preparation: old nodes keep their fields, relays become clients, new nodes are sites of relays, roots, APs, devices and what is below no relay stay where they are, nothing is cut off and ancestors stay |
| `RelaySites.ExceptionCutsOff` | src/integrationCommon.py:278-299 | the family of graphs in which an exception puts a relay's site below a site of the relay, which cuts both off |
| `RelaySites.MissingSiteLosesAncestors` | src/integrationCommon.py:345-367 | what hung below a relay whose site is missing has no ancestor but the root afterwards |
| `RelaySites.PromotedExactly` | src/integrationCommon.py:393-405 | the promotion makes relays of exactly the clients above a root, site, AP, client or relay and changes nothing else |
| `GraphPasses.LooseAfterReconnect` | src/integrationCommon.py:500-521 | a node still unreachable after reconnection is an AP or device, is untouched, and its parent is unreachable too |
| `GraphPasses.OnlyApsAndDevicesStayLoose` | src/integrationCommon.py:500-521 | every node on the whole parent chain of an unreachable node is an AP or device |
| `Pruning.PrunedIsShapable` | src/integrationCommon.py:634-670 | with unique ids and devices hung by their parent ids: afterwards every device has an address and every client a child device that has one |
| `Pruning.PrunedLosesExactly` | src/integrationCommon.py:634-670 | exactly the devices without an address and the clients without a child device that has one are gone, and nothing new is there |
| `Pruning.PruningCutsOffAgain` | src/integrationCommon.py:523-540 | two sites that name each other as parent are reconnected to the root and, if anything is pruned, cut off again |
| `NetworkGraph.Graph.AddRawNode` | src/integrationCommon.py:278-299 | appends the node unless excluded, applies exception parents, keeps the index, drops the cache |
| `NetworkGraph.Graph.AddNodeAsChild` | src/integrationCommon.py:322-343 | appends the node below the indexed parent, or below the root when unknown |
| `NetworkGraph.Graph.ReplaceRootNode` | src/integrationCommon.py:304-320 | replaces node 0; the index stays complete if and only if the old root's id is kept or unshared |
| `NetworkGraph.Graph.ReparentById` | src/integrationCommon.py:345-367 | every node's parent index is recomputed from its parent id, the cache is invalidated |
| `NetworkGraph.Graph.FindNodeIndexById` | src/integrationCommon.py:369-371 | a found index has that id; -1 with a complete index means that no node has it |
| `NetworkGraph.Graph.BuildChildrenCache` | src/integrationCommon.py:377-385 | afterwards the cache lists exactly and in ascending order the children of every index |
| `NetworkGraph.Graph.FindChildIndices` | src/integrationCommon.py:387-391 | the list of children, whether or not the cache was valid before |
| `NetworkGraph.Graph.PromoteClientsWithChildren` | src/integrationCommon.py:393-405 | exactly the clients above a root, site, AP, client or relay change kind; the cache stays valid |
| `NetworkGraph.Graph.ClientsWithChildrenToSites` | src/integrationCommon.py:407-446 | the new node list is the reparented conversion with its generated sites; where they end up is `RelaySites.RelayPlaces` |
| `NetworkGraph.Graph.LiftTopologyChildrenOutOfClients` | src/integrationCommon.py:448-473 | the new node list is the reparented lift, or nothing needed lifting |
| `NetworkGraph.Graph.FindUnconnectedNodes` | src/integrationCommon.py:475-498 | the worklist search returns exactly the nodes whose parent chain never reaches the root |
| `NetworkGraph.Graph.ReconnectUnconnected` | src/integrationCommon.py:500-521 | exactly the unreachable sites, clients and relays are hung below the root, everything else stays |
| `NetworkGraph.Graph.RebuildIndexes` | src/integrationCommon.py:623-629 | afterwards the index is sound and complete |
| `NetworkGraph.Graph.PruneIgnoredCircuits` | src/integrationCommon.py:634-670 | exactly the devices without an address and the clients without a device that has one disappear, a root of these kinds included; every device left has an address and every client left a device that has one; order kept, the rest reparented; unchanged when all stay |
| `NetworkGraph.Graph.PrepareClients` | src/integrationCommon.py:393-473 | reparent, promote, convert and lift in sequence: with a root that is no client, no site or client lies below a client if and only if no exception traps a generated site; with any root, when no setting touches a generated site and no parent is promoted; nodes, connections, ancestors and the places of relays are kept as `RelaySites.PreparationKeepsPlaces` states |
| `RefreshProtocol.NeverBelievedNewer` | src/scheduler.py:64-73 | in every interleaving of publications with scheduler steps, with distinct hashes and Insight topology off, a recorded hash equal to the published one means that a successful refresh applied that payload |
| `RefreshProtocol.RunKeepsInv` | src/scheduler.py:1108-1181 | over every run a recorded hash belongs to a payload no newer than the one last applied by a successful refresh, a taken hash to a published one, a read one to a loaded one, repeated hashes included |
| `RefreshProtocol.SafeIffNoInsight` | src/scheduler.py:1541-1544 | the protocol is safe on all its runs with distinct hashes if and only if Insight topology is off |
| `RefreshProtocol.InsightBelievesWithoutLoading` | src/scheduler.py:1541-1544 | with Insight topology a hash is recorded that no refresh applied |
| `RefreshProtocol.SafeIffNewestHashIsNew` | src/scheduler.py:64-73 | for every sequence of published hashes: the belief is true on every run that publishes it if and only if the newest hash was not published before |
| `RefreshProtocol.RepeatedHashFoolsTheScheduler` | src/scheduler.py:1139-1181 | a run with a repeated hash after which the scheduler wrongly believes to be current |
| `Scheduler.Jobs.TakeHash` | src/scheduler.py:1124-1124 | the hash taken is the one published at that moment, 0 when unreadable |
| `Scheduler.Jobs.MarkApplied` | src/scheduler.py:64-73 | records the hash that was taken before the refresh, and can only do so after the refresh succeeded |
| `Scheduler.Jobs.RefreshShapers` | src/scheduler.py:1125-1131 | a successful refresh applies the payload published at the read; it fails on its own exactly when nothing is published; a failed one, before or after reading, applies nothing and the job gives up without marking |
| `Scheduler.Jobs.FullReload` | src/scheduler.py:1108-1136 | a run of the protocol in every case, and per case: not ready changes nothing but perhaps begins a wait; success records the hash taken before the refresh; a validation failure and a deferred one keep the recorded hash, any other failure forgets it; true only with a recorded hash |
| `Scheduler.Jobs.PartialReload` | src/scheduler.py:1139-1181 | a run of the protocol in every case, and per case: a refresh runs exactly for a hash other than the recorded one; only success records, only stale inputs begin a wait |
| `Scheduler.Jobs.ContinueStartup` | src/scheduler.py:1518-1610 | a run of the protocol in every case, and per case: not ready keeps waiting and changes nothing else; success records and ends the wait; a deferred failure keeps the hash and waits on; any other failure forgets the hash and ends the wait |
| `Scheduler.Jobs.ContinuePartial` | src/scheduler.py:1613-1712 | a run of the protocol in every case, and per case: not ready keeps waiting and changes nothing else; no hash or the recorded one ends the wait; a deferred failure waits on; everything else ends the wait, and only success records |
| `Scheduler.Jobs.Tick` | src/scheduler.py:1738-1807 | a run of the protocol in every case; which wait goes on, what is compared and what is recorded, per case; a quiet, ready, successful tick converges if and only if a wait is pending or a hash is recorded |
| `Scheduler.Jobs.BeliefIsTrue` | src/scheduler.py:64-73 | whatever jobs happened and whatever was published meanwhile, a recorded hash equal to the published one means that a successful refresh applied the newest payload |
| `Scheduler.WaitDegradesIff` | src/scheduler.py:1587-1610 | over any number of looks at one generation a wait keeps its start and stays pending, and reports waiting exactly while the state is transient and less than 120 seconds have passed since the start, degraded otherwise |
| `Scheduler.Jobs.DeferStaleInputs` | src/scheduler.py:1414-1427 | a failure is deferred exactly for stale inputs while the runtime is ready or on its way |
| `CpuBalancer.LargestFirstRatio` | src/LibreQoS.py:1764-1773 | greedy largest-first: every load is at most 4/3 - 1/(3m) times the largest load of any other placement on m bins |
| `CpuBalancer.LargeItemFinds` | src/LibreQoS.py:1764-1773 | an item heavier than a third of what some placement needs always finds a bin with room for it, whatever was placed before |
| `CpuBalancer.GrahamBound` | src/LibreQoS.py:1764-1773 | every load is at most total/m + (1 - 1/m) times the largest weight |
| `CpuBalancer.GreedyGap` | src/LibreQoS.py:845-863 | at every moment any two loads differ by at most the larger of the initial gap and the largest weight |
| `CpuBalancer.BinsConserveWeight` | src/LibreQoS.py:845-863 | the loads of all bins add up to the weight of the items placed |
| `CpuBalancer.LeastBin` | src/LibreQoS.py:1770-1770 | the target is a least loaded bin, the smallest name among ties |
| `CpuBalancer.PlaceAll` | src/LibreQoS.py:857-863 | the loop places every item on a least loaded bin, the smallest name among ties; loads and assignments are those of the placement |
| `CpuBalancer.GreedyFallback` | src/LibreQoS.py:1764-1773 | the items, heaviest first and equal ones by id, are placed greedily on empty bins, each once; loads add up to the total weight and differ by at most the heaviest item |
| `CpuBalancer.KeptLoads` | src/LibreQoS.py:847-850 | initial loads are the weights of the kept assignments, 1 for unknown items |
| `CpuBalancer.FlatFallback` | src/LibreQoS.py:845-864 | kept assignments stay and make up the initial loads, exactly the other items are placed greedily on top, every item ends up assigned, and any bound on the initial gap and the new weights bounds the final gap |
| `FunnelCounters.LoadedPathsIff` | src/rust/lqos_config/src/network_json.rs:492-566 | every node's list is its immediate parent's path and then itself, if and only if no `children` object holding nodes follows another object holding nodes |
| `FunnelCounters.LoadedListsNameEnclosingObjects` | src/rust/lqos_config/src/network_json.rs:492-566 | for every JSON object: each object becomes one node, in visit order, and its list spells the names of the objects around it |
| `FunnelCounters.LoadedListsRise` | src/rust/lqos_config/src/network_json.rs:492-566 | for every file: each list starts at the root, rises strictly and ends in the node's own index |
| `FunnelCounters.PathsRise` | src/rust/lqos_config/src/network_json.rs:499-506 | the same for any vector in which each list extends its immediate parent's path |
| `FunnelCounters.UsualFileLoads` | src/rust/lqos_config/src/network_json.rs:555-565 | when `children` is the only object in every node, loading always gives good paths |
| `FunnelCounters.ObjectBeforeChildrenMisplaces` | src/rust/lqos_config/src/network_json.rs:499-506 | the family of files with an object before `children` that load with a wrong immediate parent |
| `FunnelCounters.PathIsAncestry` | src/rust/lqos_config/src/network_json.rs:499-506 | a node's list holds exactly the nodes whose subtree, by immediate parents, it is in |
| `FunnelCounters.LoadedCounterIff` | src/rust/lqos_config/src/network_json.rs:292-333 | for every file, well shaped or not: after zeroing and any additions a counter equals the sum over the additions whose node lists it, if and only if that sum fits in 64 bits |
| `FunnelCounters.CounterIsSubtreeSumIff` | src/rust/lqos_config/src/network_json.rs:292-333 | with good paths that sum is the one over the node's subtree |
| `FunnelCounters.CounterSinceOverflow` | src/rust/lqos_config/src/network_json.rs:313-333 | sums too large included: a counter holds what was added along its node since the last addition that did not fit, which emptied it |
| `FunnelCounters.RootReceivesEverything` | src/rust/lqos_config/src/network_json.rs:313-333 | the root's sum is the grand total, for every file |
| `FunnelCounters.Funnel.RecurseNode` | src/rust/lqos_config/src/network_json.rs:492-566 | the recursion that appends to a shared vector computes the flattening |
| `FunnelCounters.Funnel.AddCycle` | src/rust/lqos_config/src/network_json.rs:313-333 | the loop adds along the targets in turn, unknown indices skipped, overflow resetting a counter |
| `FunnelCounters.Funnel.Cycle` | src/rust/lqos_config/src/network_json.rs:292-333 | a whole cycle on any loaded file leaves every counter equal to its sum (over its subtree, with good paths), and the root's to the total, exactly when those fit |
| `AddressMerge.FoldWinner` | src/mikrotikFindIPv6.py:120-180 | a table holds a record for exactly the claimed keys; it is a claim of top precedence and ambiguous exactly when a claim of the same precedence names another network |
| `AddressMerge.AmbiguousIff` | src/mikrotikFindIPv6.py:120-180 | a record is ambiguous if and only if two different canonical addresses share the top priority (and rank, for IPv6) |
| `AddressMerge.MergeByLevel` | src/mikrotikFindIPv6.py:120-180 | each record function keeps the higher precedence and flags ties between different networks |
| `AddressMerge.Ipv6OrderFree` | src/mikrotikFindIPv6.py:182-215 | reordering or repeating entries in any list changes no MAC's IPv6 priority, rank, ambiguity or, when unambiguous, network, although neighbours are looked up in a table built from another list |
| `AddressMerge.Ipv4OrderFree` | src/mikrotikFindIPv6.py:182-191 | the same for the IPv4 priority, ambiguity and address |
| `AddressMerge.ClientTablesAgree` | src/mikrotikFindIPv6.py:170-200 | the same for client-address bindings |
| `AddressMerge.JoinedIsPaired` | src/mikrotikFindIPv6.py:217-232 | only addresses of one MAC with two unambiguous records are paired, and every such IPv4 address is mapped |
| `AddressPriority.LeaseBeforeArp` | src/mikrotikFindIPv6.py:14-131 | read off the lists: if a DHCPv4 lease names the MAC its record is the address of such a lease, whatever ARP holds, and ambiguous exactly when two such leases differ; ARP decides, likewise, exactly when there is no lease; without either there is no record |
| `AddressPriority.BoundBeforeNeighborBeforeArp` | src/mikrotikFindIPv6.py:14-215 | read off the lists: a network bound by DHCPv6, to the MAC or to the unambiguous client address of a neighbour with it, decides first, then a neighbour's own address, then ARP; within what decides a prefix before a host; ambiguous exactly when two of that form differ; without any there is no record |
| `AddressPriority.ClientTableIs` | src/mikrotikFindIPv6.py:170-200 | a client address is trusted exactly when it has bindings without a MAC in the DUID and all of them name one network |
| `AddressOrder.ResultOrderFreeIff` | src/mikrotikFindIPv6.py:182-234 | over everything a build can be given: no rearrangement of the four lists changes the map, read by networks, if and only if no two MACs of the last stage that pairs an IPv4 address pair it differently |
| `AddressSpelling.TextOrderFreeIff` | src/mikrotikFindIPv6.py:182-234 | the returned text map itself: with one spelling per address in the lists, no rearrangement changes it if and only if no address is contested |
| `AddressOrder.SpellingFollowsOrder` | src/mikrotikFindIPv6.py:128-131 | without that, lists whose rearrangement changes a key of the text map although no network changes |
| `AddressOrder.ReadByNetwork` | src/mikrotikFindIPv6.py:217-232 | the text map and the network map take each entry from the same MAC wherever spellings follow networks |
| `AddressOrder.CanDecide` | src/mikrotikFindIPv6.py:188-215 | any MAC of the last stage that pairs an IPv4 address can be made to decide it by rearranging one list |
| `AddressMerge.DuidCarriesMac` | src/mikrotikFindIPv6.py:106-118 | every DUID-LLT and DUID-LL of sections 11.2 and 11.4 of RFC 8415 with a 6-byte address yields that address |
| `AddressMerge.MacComesFromDuid` | src/mikrotikFindIPv6.py:106-118 | and no other DUID yields an address |
| `AddressMerge.HexTextInjective` | src/mikrotikFindIPv6.py:106-118 | different link-layer addresses never become the same key |
| `AddressTables.Tables.RecordIpv4ForMac` | src/mikrotikFindIPv6.py:120-131 | the dictionary after one call |
| `AddressTables.Tables.RecordIpv6ForMac` | src/mikrotikFindIPv6.py:151-168 | the dictionary after one call, and its insertion order |
| `AddressTables.Tables.RecordClientAddressBinding` | src/mikrotikFindIPv6.py:170-180 | the dictionary after one call |
| `AddressTables.Tables.Build` | src/mikrotikFindIPv6.py:182-234 | the four loops and the join: every MAC has the IPv4 and IPv6 record its lists decide, as `AddressPriority` states, and the map pairs exactly the texts of MACs with two unambiguous records |

## Left out

- Minimum sums (`findBandwidthMins`): their accumulator runs across siblings, so minimums are arbitrary inputs that later passes cap.
- CSV, JSON and TOML reading and writing, header layouts, override rows, persisted allocator files: file plumbing.
- The class-identity planner, the CPU bin planner and the Bakery main loop are not part of this model; "majors follow the queue, minors are at least 3 and unique per queue" and the bin of each node are preconditions or parameters.
- CRM integrations, credentials, program control, process execution, tc text parsing, eBPF: input and output.
- The last fix-ups of circuit minimums during traversal (1 read as 10 kbps, minimum pushed below maximum): circuit minimums are arbitrary in the command stream.
- Text of tc commands, rate formatting, SQM tokens: commands are values, handles are (major, minor) pairs, a leaf carries its override text.
- Floating point: rates and weights are reals, so rounding in sums and in the `r2q` division is not modelled; neither is 64-bit overflow of a rate times 125000.
- Kernel detail: turning a class into an inner class destroys its leaf in the real kernel, and the parent argument of a class deletion is ignored by the model.
- Nested dictionaries updated in place are a table keyed by the globally unique node name (`RatePasses.RateTable`), so aliasing between subtrees is not captured.
- `AddressMerge`, `AddressPriority`, `AddressOrder`: address texts arrive parsed; zone identifiers and the newer treatment of IPv4-mapped addresses in Python's ipaddress module are not modelled, nor are messages on stderr.
- `FunnelCounters`: one counter stands for the ten counter pairs, which are updated alike; RTT buffers and the other node fields are not kept.
- `Scheduler`: what refreshShapers does is reduced to which payload it reads and whether it succeeds; report texts and progress are reduced to the state that suppresses repeated reports.
- The name index of the integration graph (`_name_to_index`) and everything after preparation (artefact building, infrastructure parents).
- NetworkGraph.Graph.PrepareClients: ids are unique and `_gen` ids fresh, also as parent ids where places are concerned; the exact condition has non-client roots as its domain, a client as root is covered only without settings.
- Pruning.PruningCutsOffAgain: a family of graphs; which other reconnected nodes a pruning cuts off again is not characterised.
- CpuBalancer.GreedyFallback: item ids are distinct, as keys of the source's dictionary; a repeated id would be weighed twice there.
- CpuBalancer.PlaceAll: needs at least one bin; the source raises on an empty one.
- BakeryCommands.FullLazyPruneThenAdd: needs the circuit's majors to equal its parent's, which src/LibreQoS.py:491-510 enforces.
- HandleAssignment.AssignedStreamIsClean: circuit hashes are taken to be distinct.
- NodeOrder.AttachCircuits: what int() reads in a bin's name is a parameter, and a circuit id stands for its record.
