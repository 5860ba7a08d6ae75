# A verified model of the sys-tester core

sys-tester lets a test describe the system calls a program must make, compiles the description
into a graph of atoms, and then runs the program under a supervisor that answers its system calls
in an order the description allows.  This project models that core in Dafny and proves what it
promises.

* **Descriptions and their meaning** (`Model.dfy`, `Meaning.dfy`).  A description is a graph of
  atom, ordered and unordered tasks with `happens_before` constraints.  Its meaning is stated
  without the compiler: if a walk of at least one task edge (explicit, or between consecutive
  children of an ordered task) leads from `t` to `u`, every atom inside `t` precedes every atom
  inside `u`; the transitive closure of that is the order the description asks for.
* **Graph algorithms** (`Relations.dfy`, `Sequences.dfy`, `VecGraph.dfy`, `SearchOrder.dfy`,
  `TopologicalSort.dfy`, `TransitiveReduction.dfy`, `Components.dfy`).  The depth-first sort that
  returns an order or a cycle, with laws about the graph alone that leave exactly one order and one
  cycle to return; the reduction over a solved order, and the iterative Tarjan that condenses the graph while
  it closes components.
* **The compiler** (`Boundaries.dfy`, `AtomEdges.dfy`, `BoundaryPass.dfy`, `Contraction.dfy`,
  `Determinism.dfy`, `Compiler.dfy`).  `Compiler.Compile` succeeds exactly when no task contains
  itself and the constraints are acyclic, and then reachability in the compiled graph is exactly the
  meaning of the description.  However hash sets are iterated on the way, two compilations of one
  description return the same setup or the same cycle.
* **The scheduler** (`Runs.dfy`, `Scheduler.dfy`, `EndToEnd.dfy`).  The supervisor's counts and
  queues are a function of the calls made so far, every sequence of calls is a run of a small
  specification, and runs of that specification respect the description they were compiled from.
  Compiling a description and driving the supervisor on the result finishes every atom, whenever
  the description can be finished at all.
* **The startup handshake** (`Startup.dfy`).  Supervisor, spawner and target as one transition
  system: what success implies over all interleavings and when it is certain, which failure is
  reported, clean-up after failure, no deadlock, and a bound on every execution.
* **Smaller cores** (`UnionFind.dfy`, `FileTables.dfy`, `PageBuffer.dfy`).  Path compression and
  cluster numbering, copy-on-write file tables across forks, and the readers of another process's
  memory.

`dafny verify dfyconfig.toml` checks the whole project.

## What the proofs turned up

* The compiler accepts descriptions that can never be run to the end.  `EndToEnd.FinishesIff` gives
  the exact condition: a compiled setup can be finished if and only if the description puts no atom
  before itself and none of its atoms is a debug name.
  - One atom may sit in two groups of which the first is ordered before the second.  It keeps an
    edge to itself in the compiled graph (`src/compiler.rs:288-293`), although the task graph drops
    it (`src/compiler.rs:267-270`), so its wait count never reaches zero:
    `EndToEnd.SharedAtomNeverFinishes`.
  - A debug name is compiled like any atom, but stops the supervisor as soon as it becomes ready
    (`src/runner/supervisor.rs:52-54`, `src/runner/supervisor.rs:73-75`):
    `EndToEnd.DebugNameNeverFinishes`.
* A path that starts in the last page of the address space always gives EFAULT, because the end of
  its first chunk is not a representable address (`src/buffer.rs:314-318`).
  `PageBuffers.LastPageDiffers` is such a path.  `PageBuffers.AgreesIff` says exactly at which
  addresses the reader gives the byte-wise answer, and `PageBuffers.AgreesEverywhereIff` for which
  memories it does so everywhere; those that leave the last page unmapped are among them, and
  user memory on 64-bit Linux ends far below that page.
* After a failed startup the target is polled and, if it is alive, killed and reaped.  The poll takes
  a stop under the tracer for an exit (`src/runner/spawn.rs:801`), so a target that is stopped when
  it is polled is neither killed nor reaped: `Startup.StoppedTargetSurvives`.
  `Startup.FailureCleansUp` gives the exact condition: clean-up is complete if and only if no wait
  for the target returned a stop or an error.

## Model

| member | source | states |
|---|---|---|
| `VecGraphs.FromAdjacencyLists` | src/graph.rs:62-78 | packing adjacency lists loses nothing: unpacking the spans gives the same lists back; and the packed graph is the only one that holds the lists back to back |
| `VecGraphs.AppendUnpacks` | src/graph.rs:66-77 | appending a node's successors leaves every earlier node's successors as they were |
| `TopologicalSort.Sort` | src/graph.rs:363-436 | Ok exactly when the graph is acyclic; then order and map are inverse permutations, every edge goes forward, what a lower root leads to comes after what only higher ones reach, and what an earlier edge of a list leads to comes after what only later ones reach; otherwise the nodes form the cycle that the leftmost walk runs into from the lowest node that reaches any cycle |
| `TopologicalSort.SearchAll` | src/graph.rs:374-422 | searching from every unseen root, lowest first, finishes every node by the laws of the search order, or returns the first cycle |
| `TopologicalSort.Explore` | src/graph.rs:379-421 | one root's search adds exactly what the root reaches, listed by those laws, or returns the first cycle |
| `TopologicalSort.BackEdgeCycle` | src/graph.rs:402-410 | an edge to a node on the stack closes a simple cycle along the frames from that node's stack position |
| `TopologicalSort.StackWalk` | src/graph.rs:387-413 | the frames and the next edge are the leftmost walk towards any goal that no finished node reaches |
| `TopologicalSort.BackEdgeFirst` | src/graph.rs:402-410 | the cycle that such an edge closes is the first one |
| `TopologicalSort.EarlierFinished` | src/graph.rs:388-420 | what an earlier edge of the leftmost walk reaches is finished first |
| `SearchOrder.SearchOrderUnique` | src/graph.rs:363-436 | a graph has at most one order that obeys the laws |
| `SearchOrder.FirstCycleUnique` | src/graph.rs:363-436 | and at most one first cycle |
| `SearchOrder.FirstCycleMeans` | src/graph.rs:402-410 | it is a simple cycle, all of it reached from the lowest node that reaches any cycle, and told from that node on if it is part of it |
| `TopologicalSort.IndexMap` | src/graph.rs:426-430 | the map is the inverse of the order |
| `TransitiveReduction.Reduce` | src/graph.rs:438-478 | keeps exactly the self-edges and the edges no other walk makes redundant, each list in the solved order |
| `TransitiveReduction.ReduceNode` | src/graph.rs:454-474 | for one node, the kept successors are the ones without a detour, and the recorded row is what the node reaches |
| `TransitiveReduction.CoveredIsRedundant` | src/graph.rs:462-471 | a successor is covered by earlier ones exactly when its edge has a detour |
| `TransitiveReduction.ReductionReach` | src/graph.rs:438-478 | the reduction reaches exactly what the graph reaches, self-edges included |
| `TransitiveReduction.ReductionLeast` | src/graph.rs:438-478 | every graph with the same reachability has all edges of the reduction, so it is the unique smallest |
| `TransitiveReduction.ReduceAcyclic` | src/graph.rs:480-489 | for every graph, Ok exactly when it is acyclic, with the same reachability and no redundant edge; otherwise a cycle |
| `Components.Tarjan` | src/graph.rs:173-287 | the components partition the nodes, map agrees with them, two nodes share one exactly when each reaches the other; the condensation lists exactly the other components an edge crosses into, once each, all numbered lower |
| `Components.Explore` | src/graph.rs:195-284 | exploring a root keeps the search invariant, terminates with no open frame and loses no seen node |
| `Components.Follow` | src/graph.rs:209-233 | following one edge keeps the invariant and either finds a new node or leaves fewer edges |
| `Components.EnterKeeps` | src/graph.rs:211-225 | opening a frame for an unseen node keeps the whole search invariant |
| `Components.NoteKeeps` | src/graph.rs:226-232 | noting an edge to a seen node, open or closed, keeps it |
| `Components.ReturnKeeps` | src/graph.rs:280-283 | passing the minimum to the caller when the node is no component root keeps it |
| `Components.EmitKeeps` | src/graph.rs:242-278 | closing a component keeps it: the new component is exact and its condensed successors are exactly the crossings |
| `Components.MembersMutual` | src/graph.rs:242-258 | all nodes found since the component root reach each other |
| `Components.EmitLeavesCaller` | src/graph.rs:280-283 | the minimum passed up after closing a component never changes the caller |
| `Components.Gather` | src/graph.rs:244-258 | popping down to the root collects exactly the nodes found since it, and leaves a well-formed stack |
| `Components.DedupFirst` | src/graph.rs:260-270 | the recorded successors, once each |
| `Meaning.TaskOrder` | src/compiler.rs:217-230 | the task edges are exactly the explicit constraints and the consecutive children of ordered tasks, all in range |
| `Meaning.InsideComposite` | src/compiler.rs:99-143 | the atoms inside a composite task are exactly those inside its children |
| `Meaning.OrderedChildren` | src/compiler.rs:226-230 | an earlier child of an ordered task is ordered before every later one |
| `Boundaries.PackAtoms` | src/compiler.rs:153-177 | atoms are numbered in task order, and numbering and task table are mutually inverse |
| `Boundaries.PackingUnique` | src/compiler.rs:153-177 | there is only one such numbering |
| `Boundaries.BoundsPooled` | src/compiler.rs:99-114 | pooling entries and exits bounds the union of the atoms |
| `Boundaries.BoundsChained` | src/compiler.rs:123-136 | joining exits to the next entries leaves the outer ends as a boundary of all the atoms |
| `Boundaries.BoundaryEmptyIff` | src/compiler.rs:89-151 | entries and exits are empty, each, exactly when the task contains no atom |
| `BoundaryPass.Join` | src/compiler.rs:33-40 | adds every exit-to-entry edge, keeps the old ones and adds nothing else |
| `AtomEdges.EndsUnique` | src/compiler.rs:89-151 | the entries and exits of every task are determined by the description, over containment of any shape and depth |
| `BoundaryPass.ExactKept` | src/compiler.rs:61-151 | while tasks are built, every finished task keeps the ends its children give it, and every edge is one that joins finished children |
| `BoundaryPass.BoundaryBuild.Build` | src/compiler.rs:61-151 | finishes the task with a boundary whose entries reach, and whose exits are reached from, every atom inside, and whose ends are exactly those the description determines; a containment cycle is reported as the one the leftmost walk from the bottom of the stack runs into |
| `BoundaryPass.BoundaryBuild.BuildInside` | src/compiler.rs:89-144 | the same by kind of task, before the result is recorded |
| `BoundaryPass.BoundaryBuild.PoolChild` | src/compiler.rs:103-108 | one more child of an unordered task is built and pooled |
| `BoundaryPass.BoundaryBuild.ChainChild` | src/compiler.rs:120-136 | one more child of an ordered task is built and, if it has atoms, joined to the chain |
| `BoundaryPass.BoundaryBuild.Connect` | src/compiler.rs:132-134 | the joined edges are there, all boundaries still hold, and every edge is still explained |
| `BoundaryPass.BoundaryBuild.BuildUnordered` | src/compiler.rs:99-114 | the same for the pooled boundary of an unordered task, once all children are finished |
| `BoundaryPass.BoundaryBuild.BuildOrdered` | src/compiler.rs:116-143 | the same for an ordered task, skipping children without atoms |
| `BoundaryPass.BoundaryBuild.Begin` | src/compiler.rs:85-87 | pushes the task; the stack stays a containment path |
| `BoundaryPass.BoundaryBuild.Finish` | src/compiler.rs:146-150 | pops the task and records its boundary |
| `BoundaryPass.BoundaryBuild.CycleOnStack` | src/compiler.rs:69-76 | the stack from an open task's position, closed by that task, is a simple containment cycle, and the first on the walk |
| `Contraction.BuildBoundaries` | src/compiler.rs:179-205 | over all roots: Ok exactly when containment is acyclic; then every boundary holds, has exactly the ends the description determines, and the edges are exactly those between consecutive non-empty children; otherwise the first containment cycle |
| `Contraction.TaskEdges` | src/compiler.rs:217-230 | the edge table built is exactly the task order of the description |
| `Contraction.ContractFrom` | src/compiler.rs:236-257 | the edges added are exactly those from the exits of the task to the entries of the tasks reached through empty tasks alone |
| `Contraction.WalkEnds` | src/compiler.rs:242-256 | the walk has seen exactly the tasks reached through empty tasks |
| `Contraction.ContractAll` | src/compiler.rs:232-257 | the edge table is exactly the atom edges of the description, and all boundaries still hold |
| `Contraction.EdgesSound` | src/compiler.rs:217-257 | every one of those edges is one the description asks for |
| `Contraction.WalkConnects` | src/compiler.rs:232-257 | a task walk of any length gives a walk of atom edges from the exits of its start to every atom inside its end |
| `Contraction.BeforeReaches` | src/compiler.rs:232-257 | whatever the description puts before an atom reaches it through atom edges |
| `Contraction.AtomEdgesMean` | src/compiler.rs:217-257 | atom-edge reachability is exactly the transitive closure of the description's precedence |
| `Compiler.MergeAtomEdges` | src/compiler.rs:265-271 | the merged graph has exactly the task edges and the atom edges between different atoms |
| `Compiler.MergedConstraints` | src/compiler.rs:265-284 | the merged graph is acyclic exactly when the constraints of the description are |
| `Compiler.OrderAtoms` | src/compiler.rs:295-301 | a permutation of the atoms, in the order of their tasks |
| `Compiler.AtomOrderSolved` | src/compiler.rs:280-310 | the atom order is valid for the reduction without another sort, self-edges aside |
| `Compiler.Reindex` | src/compiler.rs:317-322 | edges between places are exactly the edges between the atoms at those places, in increasing order |
| `Compiler.Transpose` | src/compiler.rs:323-329 | the before graph is the after graph turned round, each list in increasing order |
| `Compiler.RenamedReach` | src/compiler.rs:312-322 | renaming by the order renames reachability |
| `Compiler.IsFaithful` | src/compiler.rs:284-336 | reduction, renaming and transposition together preserve the meaning |
| `Compiler.Compile` | src/compiler.rs:11-338 | Ok exactly when containment and constraints are acyclic; then the atoms are a permutation of the atom tasks in the one search order of tasks, reachability is exactly the description's precedence, no edge goes back or has a detour, and an atom has a self-edge exactly when the description puts it before itself; otherwise the first cycle, told from the lowest task that leads to any; in all cases the description determines the result |
| `Meaning.FaithfulUnique` | src/compiler.rs:284-336 | for one order of the atoms, exactly one setup is faithful to a description |
| `Determinism.TaskSortUnique` | src/compiler.rs:273-284 | numbering, ends, edges and lists, and so the order or cycle that sorting gives, are determined by the description |
| `Determinism.AtomsKeepRootLaw` | src/compiler.rs:295-301 | atoms that only higher tasks lead to come first, in the order of atoms as in that of tasks |
| `Determinism.CompilationUnique` | src/compiler.rs:11-338 | however hash sets are iterated, a description has one setup, or one reported cycle |
| `Compiler.CompileTwice` | src/compiler.rs:11-338 | two compilations return the same result |
| `Runs.OnlyOnce` | src/runner/supervisor.rs:193-198 | in every run, no atom is handed out or finished twice |
| `Runs.Safety` | src/runner/supervisor.rs:67-81 | in every run, an atom is handed out only after every atom that reaches it is done |
| `Runs.SelfEdgeStuck` | src/runner/supervisor.rs:44-56 | an atom that reaches itself is never handed out in any run |
| `Runs.Progress` | src/runner/supervisor.rs:67-88 | without self-edges, every reachable state with an undone atom has one that can be taken or finished |
| `Runs.RunLength` | src/runner/supervisor.rs:67-81 | a run's length is the number of taken plus the number of done atoms, and done atoms were taken |
| `Runs.Completes` | src/runner/supervisor.rs:67-88 | every run extends to one that finishes everything after exactly n completions |
| `Runs.StuckIsComplete` | src/runner/supervisor.rs:83-88 | a run that cannot continue has finished every atom |
| `Scheduler.RequestLaws` | src/runner/request.rs:20-34 | request by request, which atoms ask for it: files and texts are left out exactly where the process cannot know them; debug names ask for nothing |
| `Scheduler.RequestServes` | src/runner/request.rs:20-34 | an atom asks for exactly the requests it answers |
| `Scheduler.Initial` | src/runner/supervisor.rs:40-65 | initial counts and queues are those of the empty run, every queue in increasing order |
| `Scheduler.CountBelowMax` | src/runner/supervisor.rs:35-35 | a count never collides with the done marker |
| `Scheduler.NeighbourWaits` | src/runner/supervisor.rs:67-71 | every neighbour of a finishing atom is undone, untaken and still counts it, so no decrement underflows |
| `Scheduler.CountdownKeeps` | src/runner/supervisor.rs:71-77 | counting one neighbour down keeps counts and queues exact, and queues it exactly at zero |
| `Scheduler.Release` | src/runner/supervisor.rs:68-78 | visiting all neighbours keeps them exact, and every queue is the old one followed by the freed neighbours of its request in list order |
| `Scheduler.SelectedSorted` | src/runner/supervisor.rs:68-78 | a part of an increasing list is increasing, so on compiled setups newly ready atoms are queued in increasing order |
| `Scheduler.Supervisor.constructor` | src/runner/supervisor.rs:40-65 | the supervisor starts in the state of the empty run, every queue in increasing order |
| `Scheduler.Supervisor.MarkDone` | src/runner/supervisor.rs:67-81 | moves to the state of the run extended by this completion: counts are the undone neighbours, the marker means done, and every queue is the old one followed by the atoms of its request that this completion makes ready, in the order of the after graph |
| `Scheduler.Supervisor.GetTask` | src/runner/supervisor.rs:193-198 | hands out the last atom of that request's queue, with the queue's length, as a step of the run; it answers the request by its data; None exactly when no atom whose data answers the request may be taken |
| `Scheduler.Supervisor.Queued` | src/runner/supervisor.rs:67-81 | an atom is queued exactly while it may be handed out, and under exactly the request its data answers |
| `Scheduler.Supervisor.IterUndone` | src/runner/supervisor.rs:83-88 | lists exactly the atoms not marked done, in increasing order |
| `EndToEnd.CompiledRunnable` | src/runner/supervisor.rs:40-65 | a description that puts no atom before itself and has no debug names compiles to a setup the scheduler accepts, however many atoms it has: no count can equal the done marker |
| `EndToEnd.DescriptionRespected` | src/runner/supervisor.rs:67-81 | in every run on a compiled setup, an atom is handed out only after everything the description orders before it is done |
| `EndToEnd.FreedInOrder` | src/runner/supervisor.rs:68-78 | on a compiled setup, completions queue the atoms they free in increasing order |
| `EndToEnd.Drive` | src/runner/supervisor.rs:67-88 | taking and finishing atoms on the supervisor itself ends with none undone, after exactly n completions |
| `EndToEnd.CompileAndRun` | src/runner/supervisor.rs:40-88 | compiling, constructing the supervisor and driving it finishes every atom, in an order that respects the description; it fails exactly when compilation does |
| `EndToEnd.StrictIff` | src/compiler.rs:265-322 | the compiled order is strictly forward exactly when the description puts no atom before itself |
| `EndToEnd.FinishesIff` | src/compiler.rs:265-322 | a compiled setup can be run to the end by answering requests exactly when the description puts no atom before itself and has no debug names |
| `EndToEnd.StuckRunsAreComplete` | src/runner/supervisor.rs:67-88 | a run in which nothing more can be answered or finished has finished every atom, again exactly under that condition; so no choice of atoms leads astray |
| `EndToEnd.SharedAtomNeverFinishes` | src/compiler.rs:288-293 | the setup compiled from a concrete description with a shared atom, which no run can finish |
| `EndToEnd.DebugNameNeverFinishes` | src/runner/supervisor.rs:52-54 | the setup compiled from a lone debug name, which no run can finish |
| `EndToEnd.CompileUnserviceable` | src/compiler.rs:265-322 | every accepted description that misses the condition compiles to a setup that no run can finish |
| `Startup.Advance` | src/runner/spawn.rs:282-456 | every step of every party keeps the startup invariant and uses up work, whether its call succeeds or fails, receives and waits included |
| `Startup.ExecutionInv` | src/runner/spawn.rs:282-555 | the invariant holds in every state of every interleaving |
| `Startup.SuccessMeans` | src/runner/spawn.rs:284-345 | success implies, in this order and once each: listener created, exec crossed, tracer attached, listener sent, spawned, done published, spawner exited 0; the received listener is the target's, the pid the target's |
| `Startup.SuccessSkipsNothing` | src/runner/spawn.rs:369-555 | success means that every call of spawner and target was made, in its place, and succeeded |
| `Startup.SmoothStartupSucceeds` | src/runner/spawn.rs:282-555 | if no call fails and nobody is killed, a supervisor that returns reports success, in every interleaving |
| `Startup.SmoothMoves` | src/runner/spawn.rs:282-555 | until then some party can move without any call failing, unless the program was over before the tracer attached |
| `Startup.SmoothExecutionsSucceed` | src/runner/spawn.rs:282-555 | so an execution without failures that cannot go on has succeeded, or the program was over too early |
| `Startup.StartupCanSucceed` | src/runner/spawn.rs:282-555 | from every starting state there is an execution without failures that ends in success |
| `Startup.FailureKept` | src/runner/spawn.rs:369-456 | a recorded failure is never overwritten, neither by a later failure nor by success |
| `Startup.FirstFailureReported` | src/runner/spawn.rs:317-329 | once done is published, the failure on record is the one reported, unless attaching the tracer failed |
| `Startup.SpawnerFailureReported` | src/runner/spawn.rs:369-456 | call by call of the spawner: if it fails and done is published, its own step is the one reported, unless attaching failed |
| `Startup.TargetFailureReported` | src/runner/spawn.rs:515-555 | the same for the target, unless it is killed before it can record the failure |
| `Startup.CutShortReported` | src/runner/spawn.rs:411-433 | and only then: killed before that, it leaves another step to be reported, and which one |
| `Startup.SupervisorFailureReported` | src/runner/spawn.rs:284-345 | call by call of the supervisor: an attachment that fails is reported as such; a lost message is, unless the others recorded a failure |
| `Startup.SilenceReported` | src/runner/spawn.rs:308-315 | without done, or when waiting for the spawner fails, the clone is blamed |
| `Startup.FailureKills` | src/runner/spawn.rs:411-452 | whenever startup fails after exec, the target has been sent a kill |
| `Startup.FailureCleansUp` | src/runner/spawn.rs:347-352 | after done, a failure leaves no target behind (never created, or exited and waited for) exactly when no wait for the target returned a stop or an error |
| `Startup.FailureCleansUpUndisturbed` | src/runner/spawn.rs:308-352 | the same for every failure, unless the spawner is killed from outside or waiting for it fails |
| `Startup.StoppedTargetSurvives` | src/runner/spawn.rs:799-811 | an execution that fails and leaves the target running, neither killed nor reaped |
| `Startup.NeverStuck` | src/runner/spawn.rs:303-306 | until the supervisor returns, some party can move without help from outside, without a failing wait and without a receive that fails while its peer is still there |
| `Startup.ExecutionsEnd` | src/runner/spawn.rs:282-555 | every execution, under every interleaving, takes at most 42 steps |
| `UnionFinds.UnionFind.FindRoot` | src/index.rs:479-487 | terminates on every forest, returns the root, points exactly the elements on the path at it and leaves the others alone, and moves nobody's root |
| `UnionFinds.CompressKeepsRoots` | src/index.rs:484-486 | pointing an element at its root changes no element's root |
| `UnionFinds.Number` | src/index.rs:501-514 | equal numbers exactly for equal roots, numbers exactly 0..count, increasing with the roots, although the last pass rewrites the table it reads |
| `UnionFinds.UnionFind.CompressAll` | src/index.rs:496-499 | every element ends up pointing at its old root |
| `UnionFinds.UnionFind.ClusterMap` | src/index.rs:489-515 | the numbering of the old roots, with every root unchanged |
| `FileTables.ProcessTable.Lookup` | src/runner/supervisor.rs:90-92 | reads the process's own table |
| `FileTables.ProcessTable.MakeMut` | src/runner/fd.rs:167-167 | the process gets an unshared cell and no process sees a change |
| `FileTables.ProcessTable.InsertFile` | src/runner/fd.rs:157-190 | afterwards the process finds this file there, and every other lookup is as before |
| `FileTables.ProcessTable.RemoveFile` | src/runner/fd.rs:192-194 | afterwards the process finds nothing there, every other lookup is as before, and what was there is returned |
| `FileTables.ProcessTable.RegisterProcess` | src/runner/supervisor.rs:94-102 | enters a new process with the given table, or refuses a taken pid and changes nothing |
| `FileTables.ProcessTable.HandleCreation` | src/runner/supervisor.rs:141-180 | a created child gets the parent's table; failed, rejected and untracked creations leave all tables as they were |
| `FileTables.ProcessTable.ReapExited` | src/runner/supervisor.rs:182-191 | exactly the exited process is tracked no more, and all other tables are as before |
| `FileTables.ProcessTable.PerformAll` | src/runner/fd.rs:141-195 | every run of operations has the effect it would have on private tables, whatever cells are shared |
| `FileTables.LookupIff` | src/runner/fd.rs:141-195 | over every run: a process finds a file exactly if the last insertion there put it, or its fork handed it over, and nothing has removed, replaced or reaped it since |
| `FileTables.TrackedIff` | src/runner/supervisor.rs:94-191 | over every run: a process is tracked exactly if it was registered, or forked off a tracked one, and has not been reaped since |
| `FileTables.Isolated` | src/runner/fd.rs:141-195 | a process's table is unaffected by any run of operations on others |
| `FileTables.SnapshotAtFork` | src/runner/supervisor.rs:145-180 | a child keeps the parent's table as of the fork, whatever the parent does later |
| `PageBuffers.ScanExactly` | src/buffer.rs:279-305 | the byte-wise reference finds a path, a range full of text, or a hole, each exactly when there is one |
| `PageBuffers.AgreesIff` | src/buffer.rs:314-318 | the reader gives the byte-wise answer exactly outside the last page, or where that answer is EFAULT too |
| `PageBuffers.LastPageDiffers` | src/buffer.rs:314-318 | an empty path at the last address: found byte-wise, EFAULT from the reader |
| `PageBuffers.AgreesEverywhereIff` | src/buffer.rs:314-318 | over one memory they agree everywhere exactly when the last page holds no NUL and is not mapped as a whole |
| `PageBuffers.ReadOnce` | src/buffer.rs:307-344 | one read returns bytes of the range, or EFAULT only for a range past the address space or a missing first byte |
| `PageBuffers.ChunkLength` | src/buffer.rs:291-292 | a chunk ends with its page or with the path range, whichever comes first, and leaves the address space only from the last page |
| `PageBuffers.ReadCPath` | src/buffer.rs:279-305 | however reads are cut short, the chunked reader's answer is determined by memory and address, with the bytes stored; it is the byte-wise answer exactly outside the last page or where that is EFAULT too |
| `PageBuffers.ReadMemory` | src/buffer.rs:261-277 | reads all the bytes, or gives EFAULT only if some byte is missing or out of range |
| `PageBuffers.PageBuffer.Truncate` | src/buffer.rs:104-116 | keeps the prefix and forgets every byte after it |
| `PageBuffers.PageBuffer.EnsureCapacity` | src/buffer.rs:231-242 | grows by whole pages, by no more than needed, keeping the contents |
| `PageBuffers.PageBuffer.CopyFromProcessCPath` | src/buffer.rs:169-177 | the contents are the path without its NUL, or empty on error, with the byte-wise error under the same exact condition |
| `PageBuffers.PageBuffer.CopyFromProcessBytes` | src/buffer.rs:179-194 | the contents are the bytes asked for, or empty on error |

## Left out

- `build.rs` and `src/seccomp_filters.rs`: finite syscall tables and embedded filters.
- `src/runner/tracker.rs`, `src/runner/errno.rs`, `src/runner/error.rs`: thin system-call wrappers and display code.
- `src/runner/ptrace.rs` and the decoding of clone flags: a process creation is one step whose outcome is a parameter.
- `src/index.rs` outside union-find, `BasicOrder` and `VecGraph::from_graph` in `src/graph.rs`: indexing wrappers.
- `RangeFileSpace` (`src/runner/fd.rs:52-139`): offset arithmetic on mock descriptors.
- `UnionFind::push_singleton` and the raw index access that merges sets: parent tables are taken as given, if acyclic.
- `set_path`, `set_bytes`, `copy_from_process_path_with_len` and `write_path_with` in `src/buffer.rs`: easy members beside the two modelled copies.
- Raw pointers, alignment and `MaybeUninit`: a byte that was never written is `None`.
- The descriptor messages, `mmap`, the clone stack, memory orderings, interrupted calls and errno values of `src/runner/spawn.rs`: sends, receives, closes and shared words are single steps in one total order.
- Failures before the fork in `spawn_seccomp_target`: nothing has been started by then.
- Debug names inside the supervisor: it does not handle them yet (`src/runner/supervisor.rs:52-54`), so the class is constructed for setups without them.
- More than `u32::MAX` tasks, task ids that name no task, and setups in which an atom waits for `u32::MAX` atoms: the source would truncate, panic or take the count for the done marker.  The last cannot arise unless an atom is put before itself.
- Growing machine integers: stack positions, node indices and edge counts are unbounded.
- The source's one `Supervisor` is modelled as two classes, `Scheduler.Supervisor` for atoms and `FileTables.ProcessTable` for processes; no operation of the source touches both halves.
- Nested edge loops in the two depth-first searches take one iteration per edge; the iterators are counters into the adjacency lists.
- The search states of `topological_order` and `tarjan` are records replaced at every step, not vectors updated in place; they are local to the functions, so no aliasing is lost.
- Hash iteration order: where the source iterates a hash set before sorting, the model may take any order.
