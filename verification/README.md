# Verified model of an LLVM transform backend and its runtimes

The repository turns annotated pipelines into LLVM IR that runs on a small set of C-ABI runtimes: a work-stealing task
pool, an arena allocator and an adaptive JIT controller. This project models the parts where a mistake would silently
change what a program computes, or free memory that is in use, and proves what those parts are for. LLVM itself is
replaced by small languages (loops, straight-line SSA, a CFG over arrays, a def-use graph, a call graph), threads by
atomic steps taken in any order.

Where a fault of the code was found the model keeps the code as it is: a concrete input shows the fault, and a lemma
says exactly when the code is right.

| files | what they model |
|---|---|
| `TaskRuntime`, `TaskSafety`, `TaskProgress`, `WorkQueues` | the task pool: spawn, stealing, work-helping await, detach, exceptions |
| `InlineClosure` | the forced-inline closure: a depth-first search with an explicit stack |
| `PartitionRanges`, `LoopIr`, `LoopValues`, `LoopWorkers`, `LoopPartition`, `LoopEquivalence` (over `Words`, `Reductions`) | the loop partitioner: the gate, the slices, the workers on shared memory, the combine |
| `SoaRewrite`, `SoaLayout` | array-of-structs to struct-of-arrays: inside one function, and in place for the whole module |
| `AdaptiveSteps`, `AdaptiveController`, `AdaptiveLaws`, `AdaptiveVerdicts` | the adaptive controller: monitor passes interleaved with forced specializations, and what a whole run decides |
| `AlignMask`, `Arena` | the arena allocator in 64-bit arithmetic, and the lowering of calloc to it |
| `EscapeWalk`, `EscapeRuns`, `EscapeLimits`, `ArenaConversion` | which allocations move to the arena and which frees are erased, what that means when the code runs, and where the walk falls short |
| `StageSpawn` | pipeline stages turned into spawned and joined tasks |
| `DispatchBalance`, `DispatchPaths`, `CostSamples` | the dispatch given to pipeline functions, the paths it keeps, and the cost samples its calls record |
| `TypeText`, `TypeParser`, `TypeGrammar` | the parser of demangled type names, and the language it reads |
| `JitPruning` | edges and stages left by a specialization context |

`Paths`, `Sequences` and `Options` are shared helpers. `dafny verify dfyconfig.toml` checks everything.

## How the pieces are modelled

**Task pool.** Every atomic step of a worker, an awaiting thread or a detaching thread is one action; a run is any
sequence of enabled actions, for any number of workers, any nesting and any fan-out. "Done becomes visible" and "the
mutex is released" are separate steps, and so are reading `done`, stealing, and taking the mutex for the timed wait. A
deleted task has no record and guards on it are true, so a use after free is never hidden by a disabled step. A handle is
a token that its spawner may keep or leave for any body of any thread to take; whoever has it may consume it, once, by
an await, an await_all or a detach. A body carries the number of spawns it still has; every finite run has such numbers.
The deques' own discipline (round robin, front or back, where a scan begins) is `WorkQueues`; in the step system a push
or a pop may hit any deque. Safety is proved for all these runs. Progress depends on who waits for whom: a *trap* is a
set of bodies each of which cannot end before another of the set; a state can be completed if and only if it has none,
and programs whose bodies wait only for tasks spawned after they began never have one.

**Loop partitioner.** A loop is a header of phis with the exit test and one straight-line body block. Workers execute
body instructions one at a time on one shared memory, in any schedule. Integers are w-bit words.

**Data layout.** In `SoaRewrite` a body is a CFG whose loads, stores and other instructions are functions of the
environment; runs are compared for every number of blocks executed, so non-termination and out-of-bounds accesses
correspond too. In `SoaLayout` memory is bytes and struct layout is LLVM's.

**Adaptive controller.** Each section of code under the lock is one step; the first section of a forced specialization
changes nothing, so only its second appears as an event, and anything may happen in between. Ratio tests in floating
point are arbitrary booleans, compile results arbitrary pointers. The configuration is fixed for a run, and a pipeline is
registered with a dispatch pointer of its own, null where a theorem says so. `tally` counts commits that landed on an
active or verifying entry and lists pointers registered non-null; the code keeps no such records. The life of an entry,
its first sample and the sampled passes since an install, is computed from the events alone.

**Arena.** What malloc returns is a parameter: null, or a region apart from the blocks owned whose end is representable.

**Escape walk.** The def-use graph lists a value's users in any order. "Tracked" is the closure of the walk's own edges,
spills to and reloads from local slots included. Independently of the walk, `EscapeRuns` executes the graph: values are
pointers known by what made their object, offsets, casts, phis and selects pass them on, stores put them into objects, loads
give what was stored there or something unrelated, calls may copy between their arguments' objects, and some may hand an
argument back. Instructions come in any order and any number of times. An allocation is a source.

**Stages.** Bodies are straight-line single-assignment code over pure functions; the tasks of a stage run in an order the
environment chooses, and may run more than once as long as each has run before the join. What a rewritten body looks like
is said in terms of its operations, where its first call stood and what became of every other operation.

**Dispatch.** A run of an instrumented pipeline is a path from entry to return, or to where it is unwound: a block that
ends otherwise or an operation that throws. Inside each call it makes are further runs, nested to any depth, of the same
pipeline or others, returning or unwound; whatever the caller does after that counts as catching.

**Type names.** The parser's scans count depth as they go. The language is written down without them: brackets are counted
in whole prefixes, white space is cut off as a prefix and a suffix, a name is segments joined by double colons, an integer
is zeros and the digits of its magnitude.

## Model

| member | source | states |
|---|---|---|
| TaskSafety.StepKeeps | runtime/topo_parallel.cpp:505-602 | every step of spawn, hand-over, pop, steal, help, park, finish, await, detach and free keeps the runtime's invariant |
| TaskSafety.NoUseAfterFree | runtime/topo_parallel.cpp:505-602 | in no run, wherever handles go, does a step read, lock, write or delete a task that was deleted |
| TaskSafety.DeletedOnce | runtime/topo_parallel.cpp:216-240 | a task is deleted at most once, only after it is done, while nobody holds its mutex and no other frame still has its body |
| TaskSafety.AllDeletedAtRest | runtime/topo_parallel.cpp:577-602 | when a run has come to rest every task made has ended and has been deleted exactly once, unless its handle was abandoned |
| TaskSafety.AwaitAllRethrowsFirst | runtime/topo_parallel.cpp:559-575 | await_all drains every handle whatever its tasks threw and then hands over the exception of the lowest index that threw |
| TaskSafety.FirstThrownIsFirst | runtime/topo_parallel.cpp:566-574 | the exception kept over the handles is that of the first one that threw |
| TaskSafety.NoneThrown | runtime/topo_parallel.cpp:566-574 | if no task threw nothing is rethrown |
| TaskSafety.ThrownReaches | runtime/topo_parallel.cpp:216-240 | what a task's body throws, or that it returns, is what the task is recorded to have ended with in all that follows, so what its awaiter is handed |
| TaskSafety.EndReaches | runtime/topo_parallel.cpp:216-240 | the same for an exception the body's own wait rethrew |
| TaskProgress.Progress | runtime/topo_parallel.cpp:516-535 | unless everything is at rest or there is a trap some step other than parking and handing over is enabled, for any number of workers |
| TaskProgress.NeverStuck | runtime/topo_parallel.cpp:505-557 | bodies that wait only for tasks spawned after they began: a reachable state with an unfinished task or a waiting body is never deadlocked |
| TaskProgress.NeverStuckOnOwnTasks | runtime/topo_parallel.cpp:505-557 | the same for bodies that wait only for tasks they spawned |
| TaskProgress.TrapStays | runtime/topo_parallel.cpp:505-557 | no step gets a trap's bodies out of it |
| TaskProgress.StaysFree | runtime/topo_parallel.cpp:505-557 | no step but the beginning of a wait makes a trap |
| TaskProgress.StartWaitTrapsExactly | runtime/topo_parallel.cpp:505-557 | and that makes one if and only if the body of a task waited for is held up, through any number of bodies, by the waiting one |
| TaskProgress.CompletesExactly | runtime/topo_parallel.cpp:505-557 | a state can be completed if and only if it has no trap |
| TaskProgress.SelfWaitTraps | runtime/topo_parallel.cpp:505-557 | a run that ends in a trap: a body waits for its own handle, left for it by its spawner |
| TaskProgress.StepWeight | runtime/topo_parallel.cpp:505-557 | every step but parking and handing over decreases a measure, a park raises it by two and handing over keeps it |
| TaskProgress.RunBounded | runtime/topo_parallel.cpp:505-557 | the steps of any run, parking and handing over aside, are bounded by its parks and the state it began in |
| TaskProgress.ComesToRest | runtime/topo_parallel.cpp:505-557 | from every state without a trap the run can be completed without parking |
| TaskProgress.ForkJoinCompletes | runtime/topo_parallel.cpp:505-557 | so it can from every state such a program reaches |
| WorkQueues.ThreadPool.Submit | runtime/topo_parallel.cpp:166-181 | one task is added to the deque the counter points at: in front if its priority is critical or high, else at the back |
| WorkQueues.ThreadPool.TryStealAny | runtime/topo_parallel.cpp:192-206 | takes the back of the first non-empty deque from the counter on, and nothing only if all are empty |
| WorkQueues.ThreadPool.NextTask | runtime/topo_parallel.cpp:256-282 | own front first, else the back of the first non-empty deque from the one drawn on, and nothing only if all are empty |
| WorkQueues.ScanCovers | runtime/topo_parallel.cpp:195-204 | a scan that wraps around from any start visits every deque |
| WorkQueues.VictimGoesRound | runtime/topo_parallel.cpp:195-204 | such a scan begins where it is told, goes up one deque at a time, and from the last to the first |
| InlineClosure.CollectTransitiveCallees | lib/Transforms/TopoInlinePass.cpp:16-61 | gains exactly the defined functions the root reaches by calls; marks exactly what the order of calls decides, only functions on cycles, and both ends of some call of every cycle reached |
| InlineClosure.CyclesBroken | lib/Transforms/TopoInlinePass.cpp:26-60 | finishing order: a cycle of finished functions has a call both ends of which are marked |
| InlineClosure.CollectFunctorCallees | lib/Transforms/TopoInlinePass.cpp:151-163 | the same over any number of roots in turn |
| InlineClosure.TriangleMarks | lib/Transforms/TopoInlinePass.cpp:26-60 | of a cycle of three functions the search marks two |
| InlineClosure.UnmarkedAcyclic | lib/Transforms/TopoInlinePass.cpp:165-171 | unmarked collected functions never call each other in a circle |
| InlineClosure.UpgradeFunctorCallees | lib/Transforms/TopoInlinePass.cpp:151-189 | upgraded are exactly the private or internal callees not marked; they form no call cycle, marked ones are on one; no other attribute changes |
| InlineClosure.AnnotateByVisibility | lib/Transforms/TopoInlinePass.cpp:110-143 | step 1 newly forces exactly functions with a body and no inline attribute that are internal, or private and named by at most one call instruction; hints at exactly such that are private and named more often, or protected when optimizing; gives noinline to none |
| InlineClosure.Run | lib/Transforms/TopoInlinePass.cpp:63-193 | a public function keeps its attributes and no protected one is newly forced; every function forced was so before, is forced by step 1, or is an unmarked private or internal functor callee. A call cycle ends up forced throughout if and only if it is forcible and no marked function on it is held back: so if step 1 forces all of it, and only if it has a call with both ends forced before step 2; attributes conflict if and only if a function came with noinline and came or is made alwaysinline |
| InlineClosure.StepTwoClosesCycle | lib/Transforms/TopoInlinePass.cpp:165-189 | a cycle of which step 1 forces two functions and step 2 the third |
| InlineClosure.NoInlineForced | lib/Transforms/TopoInlinePass.cpp:169-186 | a functor callee that ends up with noinline and alwaysinline |
| InlineClosure.CountCallSites | lib/Transforms/TopoInlinePass.cpp:94-106 | the number of call instructions that name each function with a body |
| InlineClosure.SiteCount | lib/Transforms/TopoInlinePass.cpp:94-106 | that number is at most one exactly if no two different call instructions of the module name it |
| InlineClosure.SelfCallForced | lib/Transforms/TopoInlinePass.cpp:121-125 | an internal function that calls itself ends up forced |
| PartitionRanges.TripCountExact | lib/Transforms/LoopParallelizePass.cpp:686-727 | a trip count used is the number of body executions and a positive signed word; it is refused only if the body never runs or the back-edge count reads negative or overflows |
| PartitionRanges.SpawnRanges | lib/Transforms/LoopParallelizePass.cpp:823-911 | the slices tile [0, n) without gap, overlap, empty slice or 64-bit wrap; at most 16 if static and 64 if dynamic, and as many as that and the chunk size permit; all but the last of equal size |
| LoopIr.DetectReduction | lib/Transforms/LoopParallelizePass.cpp:400-462 | finds a reduction exactly if the phi is carried by one associative operation and nothing else in the loop reads either |
| LoopIr.ReductionExactly | lib/Transforms/LoopParallelizePass.cpp:400-462 | such a phi is exactly one that a single instruction reads, of an operation to which order and grouping do not matter, whose result only that phi reads |
| LoopIr.CandidateReductions | lib/Transforms/LoopParallelizePass.cpp:325-343 | admits a loop exactly if it does not mix loads and stores and all its phis are reductions, and lists them |
| Reductions.IdentityApplies | lib/Transforms/LoopParallelizePass.cpp:360-382 | the seed is the identity of its operation on w-bit words |
| Reductions.ApplyAssociates | lib/Transforms/LoopParallelizePass.cpp:385-398 | the accepted integer operations are associative on wrapping words |
| Reductions.ApplyCommutes | lib/Transforms/LoopParallelizePass.cpp:385-398 | and commutative |
| Reductions.AcceptedExactly | lib/Transforms/LoopParallelizePass.cpp:385-398 | the accepted operations are exactly those that do both at every width |
| Reductions.AccumulateSlices | lib/Transforms/LoopParallelizePass.cpp:947-983 | an identity-seeded fold of the second slice counts as one more value after the first |
| Reductions.AccumulateFromIdentity | lib/Transforms/LoopParallelizePass.cpp:979-984 | folding from the loop's initial value is applying it once to the fold from the identity |
| LoopValues.EvalFree | lib/Transforms/LoopParallelizePass.cpp:439-455 | an instruction that does not accumulate has the same value whatever the accumulators and whatever others stored |
| LoopWorkers.HonestStep | lib/Transforms/LoopParallelizePass.cpp:615-650 | executing one more body instruction keeps the iteration's values those of the original loop |
| LoopWorkers.SequentialMeaning | lib/Transforms/LoopParallelizePass.cpp:400-462 | the original loop: each phi is its fold over all iterations, each address holds the last value stored |
| LoopPartition.StepKeeps | lib/Transforms/LoopParallelizePass.cpp:570-679 | any worker's step keeps every accumulator the fold of its slice so far and every address explained by somebody's last store |
| LoopPartition.LastWorkerWins | lib/Transforms/LoopParallelizePass.cpp:885-925 | every job has a schedule that finishes, with any chosen worker last to store |
| LoopEquivalence.Combine | lib/Transforms/LoopParallelizePass.cpp:940-984 | folds the partials in order from the identity and applies the initial value once |
| LoopEquivalence.ReductionMatches | lib/Transforms/LoopParallelizePass.cpp:576-679 | in every finished schedule the combined value is the sequential loop's |
| LoopEquivalence.SelfReduction | lib/Transforms/LoopParallelizePass.cpp:429-437 | an accumulation of a phi with itself comes out of the combine as it went in, while the loop applies it n times |
| LoopEquivalence.PhiMatchesExactly | lib/Transforms/LoopParallelizePass.cpp:429-437 | a phi is right from all initial values and in all schedules if and only if it is not combined with itself, or by an idempotent operation |
| LoopEquivalence.MemoryMatchesExactly | lib/Transforms/LoopParallelizePass.cpp:313-343 | every schedule ends in the sequential memory if and only if slices that store at the same address store the same value there last |
| LoopEquivalence.SharedAddressDisagrees | lib/Transforms/LoopParallelizePass.cpp:313-343 | a loop the gate admits, all of whose iterations store at one address, does not meet that condition |
| LoopEquivalence.SelfSumDisagrees | lib/Transforms/LoopParallelizePass.cpp:429-437 | an admitted loop over s = s + s that ends with 2, and with 1 when partitioned |
| LoopEquivalence.PartitionedLoopIsSequential | lib/Transforms/LoopParallelizePass.cpp:744-989 | when last stores agree every schedule gives the sequential memory, and the sequential value of every phi not combined with itself or by an idempotent operation |
| LoopEquivalence.DisjointLoopIsSequential | lib/Transforms/LoopParallelizePass.cpp:744-989 | so it does when no two slices store at one address |
| SoaRewrite.CollectLiveFields | lib/Transforms/DataLayoutPass.cpp:634-729 | the live fields are exactly those some load or store touches through a field pointer, and field 0 if one does at the element itself, a pointer loaded off it aside |
| SoaRewrite.Scatter | lib/Transforms/DataLayoutPass.cpp:765-826 | after the do-while loop every column holds its field of every element |
| SoaRewrite.Gather | lib/Transforms/DataLayoutPass.cpp:863-908 | after the do-while loop live fields hold their columns and the others what they held |
| SoaRewrite.RewriteInPlace | lib/Transforms/DataLayoutPass.cpp:828-861 | every recognised access, and only those, goes to its column |
| SoaRewrite.BodySimulates | lib/Transforms/DataLayoutPass.cpp:828-861 | original and rewritten body agree block by block, however many are run, until a stale pointer is loaded, and at the first one they part |
| SoaRewrite.RewriteExactly | lib/Transforms/DataLayoutPass.cpp:599-908 | any body and its rewriting agree register for register if and only if no pointer is loaded straight off an element whose field 0 has changed; then the calls agree |
| SoaRewrite.RewritePreserves | lib/Transforms/DataLayoutPass.cpp:599-908 | without such loads, or stores to field 0, scatter, rewritten body and gather return the same array, state and result, fail where the original fails and run on where it does |
| SoaRewrite.DeadFieldsUntouched | lib/Transforms/DataLayoutPass.cpp:742-826 | neither call changes a field that is not live |
| SoaRewrite.RawLoadIsStale | lib/Transforms/DataLayoutPass.cpp:716-727 | store to field 0 and load it as a pointer straight off the element: the calls agree if and only if the store changed nothing |
| SoaLayout.OffsetBound | lib/Transforms/DataLayoutPass.cpp:1504-1512 | column f starts no later than n times the offset of field f in the element |
| SoaLayout.ColumnsFit | lib/Transforms/DataLayoutPass.cpp:1504-1512 | the struct of columns is no larger than the n elements allocated |
| SoaLayout.InBounds | lib/Transforms/DataLayoutPass.cpp:1673-1684 | in both layouts every cell lies inside the allocation |
| SoaLayout.Disjoint | lib/Transforms/DataLayoutPass.cpp:1673-1684 | in both layouts two cells never share a byte |
| SoaLayout.LayoutLeast | lib/Transforms/DataLayoutPass.cpp:1504-1512 | no other aligned layout with the fields in this order puts a field earlier or takes less room |
| SoaLayout.LayoutPlaces | lib/Transforms/DataLayoutPass.cpp:1504-1512 | and the struct is such a layout itself |
| SoaLayout.Strides | lib/Transforms/DataLayoutPass.cpp:1673-1684 | elements are whole structs apart in one layout; in the other the cells of a column stand side by side and the columns in field order |
| SoaLayout.Aligned | lib/Transforms/DataLayoutPass.cpp:1673-1684 | in both layouts every cell is aligned for its field |
| SoaLayout.ReplaySame | lib/Transforms/DataLayoutPass.cpp:1673-1700 | any run of loads and stores reads the same in both layouts and leaves the same array |
| SoaLayout.ReinterpretExactly | lib/Transforms/DataLayoutPass.cpp:1673-1700 | all runs over one allocation read the same if and only if what it holds at first is the same array in both layouts |
| SoaLayout.ZeroInitialised | lib/Transforms/DataLayoutPass.cpp:1673-1700 | an allocation that starts all zero reads the same through all runs |
| SoaLayout.InitialisedMisread | lib/Transforms/DataLayoutPass.cpp:1673-1700 | an initialiser and a read that gives 1, and 0 after the rewrite |
| AdaptiveController.Controller.Register | runtime/topo_adaptive_register.cpp:16-31 | appends an entry in warm-up without versions or future |
| AdaptiveController.Controller.VisitEntry | runtime/topo_adaptive.cpp:229-359 | one case of the monitor's switch does exactly its step, 32-bit counters included |
| AdaptiveController.Controller.MonitorPass | runtime/topo_adaptive.cpp:224-361 | a monitor round is that step for every entry in order |
| AdaptiveController.Controller.ForceBegin | runtime/topo_adaptive.cpp:507-525 | compiles only for a registered pipeline within budget with no compile of the monitor's in flight |
| AdaptiveController.Controller.ForceFinish | runtime/topo_adaptive.cpp:463-543 | after the unlock window the entry is found and tested again before the commit |
| AdaptiveController.Controller.Shutdown | runtime/topo_adaptive.cpp:412-453 | entries and counters are gone, dispatch pointers are not touched |
| AdaptiveLaws.StepKeeps | runtime/topo_adaptive.cpp:229-543 | every event keeps the invariant of all entries and the counter laws |
| AdaptiveLaws.PointerMatchesPhase | runtime/topo_adaptive.cpp:255-357 | pointers registered null: in every reachable state a dispatch pointer is non-null if and only if its entry is verifying or active, and if and only if its last switch was to the JIT |
| AdaptiveLaws.PointerMatchesExactly | runtime/topo_adaptive.cpp:229-543 | pointers registered with anything: that holds if and only if the entry has a version of its own or its pointer was null when registered |
| AdaptiveLaws.FutureIsTheMonitors | runtime/topo_adaptive.cpp:496-541 | exactly the specializing entries hold a future, and no registration or forced commit changes them |
| AdaptiveLaws.VersionBudget | runtime/topo_adaptive.cpp:241-284 | versions never exceed the budget, and a pipeline switches at most twice per version of it |
| AdaptiveLaws.CountersConserved | runtime/topo_adaptive.cpp:444-484 | specializations are the versions; less deoptimizations they are the live count and recommits on active entries; the live count is the live pointers and commits on verifying entries, never negative |
| AdaptiveLaws.ActiveCountExact | runtime/topo_adaptive.cpp:463-484 | the live count is the number of live pointers if and only if no forced commit landed on a verifying entry |
| AdaptiveLaws.CountersFit | runtime/topo_adaptive_internal.h:56-58 | while all budgets together fit in 32 bits no counter wraps |
| AdaptiveLaws.ForcedWhileVerifyingOvercounts | runtime/topo_adaptive.cpp:463-484 | a run in which one pipeline is live and two are counted |
| AdaptiveLaws.RestartMatches | runtime/topo_adaptive.cpp:424-453 | after a shutdown a dispatch pointer registered again does not match its entry if and only if the old entry was live |
| AdaptiveLaws.RestartWhileLive | runtime/topo_adaptive.cpp:424-453 | a run in which a pipeline is dispatched to old code from its second registration on |
| AdaptiveVerdicts.VerdictsExact | runtime/topo_adaptive.cpp:229-359 | in every run a monitor pass withdraws a version exactly if it ends a verification, both costs are positive and it found the version not better, or if an active one with a positive recorded cost has degraded; accepts exactly those whose verification ends otherwise; starts a compile exactly within budget, above the trigger cost or deviating from a recorded baseline; installs exactly what a compile gave |
| AdaptiveVerdicts.AcceptedAfterEnough | runtime/topo_adaptive.cpp:296-346 | an active version was sampled by at least a tenth of the configured calls, and one pass, since its install, unless a forced commit came since |
| AdaptiveVerdicts.RequiredExactly | runtime/topo_adaptive.cpp:302-305 | the passes the code waits for are that many if and only if rounding the configured calls up does not wrap 32 bits |
| AdaptiveVerdicts.RunRemembers | runtime/topo_adaptive.cpp:229-359 | in every run the baselines and counts of an entry are its first sample, the sampled passes since its install and the last of those samples |
| AdaptiveVerdicts.PassPublishesVerdicts | runtime/topo_adaptive.cpp:255-357 | a pass stores a compile's pointer for exactly the versions it installs, null for exactly those it withdraws, and leaves every other pointer |
| AdaptiveVerdicts.ForcedLands | runtime/topo_adaptive.cpp:463-543 | a forced version lands on the first entry of the name, if that is within budget with no compile in flight, and makes it active with that pointer; else nothing changes |
| AlignMask.MaskUpRange | runtime/topo_arena.cpp:54-56 | below the wrap the mask formula moves an address up by less than the alignment, whatever that is |
| AlignMask.MaskUpRounds | runtime/topo_arena.cpp:54-56 | with a power of two it is rounding up to a multiple |
| AlignMask.MaskUpAlignsExactly | runtime/topo_arena.cpp:54-56 | it aligns every address it does not wrap on if and only if the alignment is a power of two |
| AlignMask.ThreeMisses | runtime/topo_arena.cpp:54-56 | address 1 aligned to 3 stays 1 |
| Arena.RoomMeansRoom | runtime/topo_arena.cpp:50-65 | behind the overflow guard no sum wraps, and the fast-path test holds if and only if the aligned request ends inside the block |
| Arena.RoomIfFits | runtime/topo_arena.cpp:50-65 | for a power of two it holds if and only if the unused part has an aligned place for the request |
| Arena.NewBlockHasRoom | runtime/topo_arena.cpp:67-81 | a block made for a request has room for it: the defensive branch is never taken |
| Arena.TopoArena.AddBlock | runtime/topo_arena.cpp:29-35 | adds one block of at least the default size, or nothing if malloc fails |
| Arena.TopoArena.Alloc | runtime/topo_arena.cpp:37-83 | null if and only if there is no block, the guard refuses or there is neither room nor memory, and then nothing changes; otherwise memory inside one block, apart from all other memory handed out, aligned for a power of two |
| Arena.TopoArena.Reset | runtime/topo_arena.cpp:85-96 | the first block stays, unused; every other block is freed once |
| Arena.TopoArena.Destroy | runtime/topo_arena.cpp:20-24 | every address is freed as often as it was obtained |
| Arena.TopoArena.BytesUsed | runtime/topo_arena.cpp:98-103 | the sum in machine words is the sum, at most the capacity |
| Arena.TopoArena.TotalCapacity | runtime/topo_arena.cpp:105-110 | the sum in machine words is the sum |
| Arena.TotalsFit | runtime/topo_arena.cpp:98-110 | blocks that do not overlap never add up to the word size |
| Arena.TopoArenaCreate | runtime/topo_arena.cpp:119-126 | a new arena owns what malloc gave for the capacity asked or the default, and has handed out nothing |
| Arena.TopoArenaAlloc | runtime/topo_arena.cpp:128-132 | null if and only if there is no arena, the request is empty or the arena denies it; a zero alignment means the default one |
| Arena.Calloc | lib/Transforms/LifetimeArenaPass.cpp:552-591 | memory for the whole product, or null; bytes are zeroed at null if and only if the product is positive, does not overflow, and there is no arena or it is denied |
| Arena.CallocZeroesAtNull | lib/Transforms/LifetimeArenaPass.cpp:552-591 | calloc(2^64 - 1, 1): in every arena, whatever malloc answers, null with 2^64 - 1 bytes zeroed |
| Arena.CallocWithoutArena | lib/Transforms/LifetimeArenaPass.cpp:552-591 | before an arena is stored every calloc that does not overflow zeroes its bytes at null |
| EscapeWalk.WalkSlot | lib/Transforms/LifetimeArenaPass.cpp:146-172 | a slot leaks if and only if its address is used other than to load, store into it or offset it; otherwise all reloads are found, in the walk's order |
| EscapeWalk.EscapesScope | lib/Transforms/LifetimeArenaPass.cpp:98-217 | the verdict is exact over the tracked graph; the frees are those seen when the walk returns, for a safe site exactly those of tracked values, each once |
| EscapeWalk.FirstFreesSeen | lib/Transforms/LifetimeArenaPass.cpp:98-217 | whatever the verdict, frees among the allocation's own users before the first at which it escapes are seen |
| EscapeRuns.EscapesExactly | lib/Transforms/LifetimeArenaPass.cpp:98-217 | with no tracked value stored into itself or handed back by a call: an allocation escapes if and only if some run gives it to a return, an indirect call, a call out of the scope or any other use, or stores it where the address is not a slot's, or does more with the address of a slot that holds it than load, offset or store into it |
| EscapeRuns.EscapeIsReal | lib/Transforms/LifetimeArenaPass.cpp:98-217 | that some run does so whenever an allocation escapes needs no condition |
| EscapeRuns.StaysIn | lib/Transforms/LifetimeArenaPass.cpp:98-217 | no run gives away an allocation judged safe, stores it outside local slots, or gives away or stores the address of a slot that holds it |
| EscapeRuns.FreesExactly | lib/Transforms/LifetimeArenaPass.cpp:190-199 | the frees found for it are exactly those that free it in some run |
| EscapeRuns.BaseExactly | lib/Transforms/LifetimeArenaPass.cpp:137-139 | stripping an address finds a slot exactly if in-bounds offsets and casts lead from that slot to it |
| EscapeRuns.SelfStoreMissed | lib/Transforms/LifetimeArenaPass.cpp:133-135 | an allocation stored into itself, loaded back and returned, judged safe |
| EscapeRuns.PassedOnMissed | lib/Transforms/LifetimeArenaPass.cpp:202-203 | an allocation a function of the scope hands back and its caller returns, judged safe |
| EscapeLimits.SelfStoredExactly | lib/Transforms/LifetimeArenaPass.cpp:133-135 | of an allocation judged safe, some tracked value is stored into itself if and only if the verdict is wrong of the graph that also loads through some tracked value and returns that |
| EscapeLimits.HandedBackExactly | lib/Transforms/LifetimeArenaPass.cpp:202-203 | of one not stored into itself, a call that may hand an argument back gets a tracked one if and only if the verdict is wrong of the graph that also returns what such a call gives |
| ArenaConversion.Discover | lib/Transforms/LifetimeArenaPass.cpp:305-322 | sites are classified by their walks, and recorded are exactly the frees the walks of escaping sites saw |
| ArenaConversion.CountClaims | lib/Transforms/LifetimeArenaPass.cpp:525-530 | the map counts the sites that claim each free |
| ArenaConversion.Convert | lib/Transforms/LifetimeArenaPass.cpp:532-605 | a site is converted exactly if each free is its alone and unrecorded; exactly the frees of converted sites are erased, each once |
| ArenaConversion.ConvertScope | lib/Transforms/LifetimeArenaPass.cpp:305-605 | a site converts if and only if it is safe and each free of it is its own and unseen by escaping walks; erased are exactly the frees of converted sites; none is an escaping site's if and only if every safe site sharing a free with one has a free that is not its own or was seen. In every run a converted allocation the walk follows is never let go and every free of it is erased, and no free of a safe one left on the heap is |
| ArenaConversion.EarlyEscapeLosesFree | lib/Transforms/LifetimeArenaPass.cpp:114-217 | a graph in which a free of an escaping allocation is erased, its walk having returned before it saw the free |
| StageSpawn.RunTasksResult | lib/Transforms/TopoParallelPass.cpp:443-498 | whatever the order, a task that has run leaves its call's value in its buffer |
| StageSpawn.SpawnedAgrees | lib/Transforms/TopoParallelPass.cpp:443-542 | the rewritten body computes every original value, results of the stage under their loads, and the same return value, in any task order |
| StageSpawn.SpawnedOk | lib/Transforms/TopoParallelPass.cpp:443-542 | and is single-assignment code with definitions before uses |
| StageSpawn.CheckExact | lib/Transforms/TopoParallelPass.cpp:338-366 | the operand check accepts a stage if and only if rewriting it uses no value before its definition |
| StageSpawn.ParallelizeStage | lib/Transforms/TopoParallelPass.cpp:313-542 | done exactly if there is a call and all operands are available at the first; then no call of the stage is left, one spawn-and-await more stands where the first stood, naming callees and arguments of all of them in order, and all other operations follow in order up to renamed operands; if not done the body is as it was |
| StageSpawn.StagesPreserve | lib/Transforms/TopoParallelPass.cpp:278-545 | all stages one after the other keep the return value |
| StageSpawn.StagesGone | lib/Transforms/TopoParallelPass.cpp:278-545 | after all stages the calls of one that shares no function with later ones are gone if and only if there were none or the check accepted it when its turn came |
| StageSpawn.OtherCallsKept | lib/Transforms/TopoParallelPass.cpp:278-545 | rewriting one stage takes away no other stage's calls |
| CostSamples.CostRecorder.CostBegin | runtime/topo_parallel.cpp:610-617 | if instrumented the thread is enrolled and the begin pushed; other threads see nothing |
| CostSamples.CostRecorder.CostEnd | runtime/topo_parallel.cpp:619-651 | the last pending begin of the name is recorded and erased, and without one nothing happens |
| CostSamples.CostRecorder.ResetCostSamples | runtime/topo_parallel.cpp:415-420 | all records are forgotten |
| CostSamples.CostRecorder.ResetScoped | runtime/topo_parallel.cpp:428-443 | exactly the records under the pipeline's name, and under that followed by double colons and anything, are forgotten |
| CostSamples.CostRecorder.GetCostSamples | runtime/topo_parallel.cpp:378-413 | each name's floor mean over everything living threads recorded since the last reset covering it, of the total in 64 bits, however it was spread over threads |
| CostSamples.CostRecorder.ThreadExit | runtime/topo_parallel.cpp:105-111 | an exiting thread takes its records and pending begins along |
| CostSamples.WithoutThreadCounts | runtime/topo_parallel.cpp:105-111 | and the totals and counts of every name lose exactly what it recorded |
| CostSamples.MeanExactly | runtime/topo_parallel.cpp:408-411 | that is the mean if and only if the total fits 64 bits |
| CostSamples.WithoutCounts | runtime/topo_parallel.cpp:428-443 | a scoped reset takes its own names' totals and counts to zero and leaves all others |
| DispatchBalance.InstrumentPipeline | lib/Transforms/AdaptiveDispatchPass.cpp:174-305 | the loop over blocks adds the begin and, off the JIT path, an end before every return |
| DispatchBalance.PathRegion | lib/Transforms/AdaptiveDispatchPass.cpp:179-215 | a path stays on the JIT blocks or on the original ones, and passes the original entry once |
| DispatchBalance.RunsKeepBegins | lib/Transforms/AdaptiveDispatchPass.cpp:278-305 | however deeply runs nest, returning or unwound, a run keeps its thread's pending begins and puts on top exactly those it and runs inside it lose |
| DispatchBalance.RunsBalanced | lib/Transforms/AdaptiveDispatchPass.cpp:278-305 | a run that returns restores the pending begins if and only if no run inside it was unwound with its begin pending; no cost call of its own on the JIT path, else one begin first and one end last |
| DispatchBalance.EndTakesItsBegin | lib/Transforms/AdaptiveDispatchPass.cpp:278-305 | that end takes that very begin if and only if no run of the same pipeline inside lost its own, and one lost above it otherwise |
| DispatchBalance.UnwoundBeginTaken | lib/Transforms/AdaptiveDispatchPass.cpp:288-305 | a pipeline that calls itself and catches: its end takes the inner begin and its own stays pending |
| DispatchPaths.OriginalPathTaken | lib/Transforms/AdaptiveDispatchPass.cpp:174-305 | a run off the JIT path executes, cost calls aside, a path of the original function operation for operation, and returns or is unwound as that does |
| DispatchPaths.OriginalPathKept | lib/Transforms/AdaptiveDispatchPass.cpp:174-305 | every path of the original function is such a run's |
| DispatchPaths.JitPathCallsOnce | lib/Transforms/AdaptiveDispatchPass.cpp:179-215 | a run on the JIT path that returns calls the variant once and does nothing else but, perhaps, report it first |
| TypeText.SplitTopLevelArgs | lib/Decompile/LLVMLifter.cpp:167-185 | succeeds if and only if the text is balanced, and then gives its pieces between commas outside brackets |
| TypeText.PiecesRejoin | lib/Decompile/LLVMLifter.cpp:167-185 | the pieces rejoin with commas to the text |
| TypeText.PiecesBalanced | lib/Decompile/LLVMLifter.cpp:167-185 | no piece has a comma outside brackets, and pieces of balanced text are balanced |
| TypeText.TrimWs | lib/Decompile/LLVMLifter.cpp:187-192 | cuts white space at both ends, as the trimmed text |
| TypeGrammar.TrimExact | lib/Decompile/LLVMLifter.cpp:187-192 | that is the text without some white space before and after it, and is empty or has none at either end |
| TypeGrammar.TrimUnique | lib/Decompile/LLVMLifter.cpp:187-192 | and no other text is |
| TypeParser.ScanIntLiteral | lib/Decompile/LLVMLifter.cpp:206-229 | recognises an optional sign, digits and suffix letters, and their value |
| TypeParser.ScanAngles | lib/Decompile/LLVMLifter.cpp:231-246 | finds the last clause opening at depth zero, or that the brackets do not match |
| TypeParser.ParseDemangledType | lib/Decompile/LLVMLifter.cpp:202-298 | the recursive descent computes the parse |
| TypeParser.RoundTrip | lib/Decompile/LLVMLifter.cpp:202-298 | parsing the text of any well-formed tree gives the tree; name parts may hold brackets, spaces, commas and colons as far as brackets match and enclose what separates |
| TypeGrammar.ParseExactly | lib/Decompile/LLVMLifter.cpp:202-298 | for every text and tree: the parse gives the tree if and only if the text is one of that tree's, with any white space around the whole, around name parts, before the clause and around arguments |
| TypeGrammar.NameExact | lib/Decompile/LLVMLifter.cpp:258-278 | a name's parts are what stands between its double colons outside angle brackets, without the white space around |
| TypeGrammar.MagnitudeExact | lib/Decompile/LLVMLifter.cpp:206-229 | an integer's value is the number its digits are the decimal digits of, zeros before them aside |
| TypeParser.IntLiteral | lib/Decompile/LLVMLifter.cpp:206-229 | every int in range has a text of its own among these |
| TypeParser.EmptyClauseFails | lib/Decompile/LLVMLifter.cpp:281-289 | a name with an empty argument list does not parse |
| TypeParser.RecoverTemplateArgs | lib/Decompile/LLVMLifter.cpp:319-330 | parts and arguments are swapped in exactly if the name parses with arguments; nothing else changes |
| JitPruning.ApplyConstraints | lib/JitEngine/topo_jit_engine.cpp:272-290 | erasing pattern by pattern leaves, in order, exactly the edges for which no pattern has at both ends a star or the stage's name |
| JitPruning.PruneUnreachable | lib/JitEngine/topo_jit_engine.cpp:477-495 | keeps exactly the stages some source reaches over the edges left, with their numbers |
| JitPruning.KeptHasPath | lib/JitEngine/topo_jit_engine.cpp:477-495 | a kept stage has a path from a source through reachable stages only |

## What was found

- A phi combined with itself (`s = s + s`) passes the reduction scan (lib/Transforms/LoopParallelizePass.cpp:429-437);
  partitioned, the loop leaves it at its initial value: `LoopEquivalence.SelfSumDisagrees`, and `PhiMatchesExactly` for
  which operations that is right.
- Store-only loops are admitted without a look at their addresses, which the comment at
  lib/Transforms/LoopParallelizePass.cpp:313-324 calls conservative; `LoopEquivalence.MemoryMatchesExactly` gives the
  condition, `SharedAddressDisagrees` an admitted loop that does not meet it.
- Loads of pointer type straight off an element are not rewritten (lib/Transforms/DataLayoutPass.cpp:716-720), although
  stores there are: `SoaRewrite.RawLoadIsStale`. `RewriteExactly` says for any body when that shows.
- The module-wide re-layout moves accesses but no data, so an array with a non-zero initialiser is read in the wrong
  places unless its bytes happen to mean the same: `SoaLayout.InitialisedMisread`, `ReinterpretExactly`.
- The comment at lib/Transforms/TopoInlinePass.cpp:12-15 says functions in call cycles are excluded from the result;
  only the two ends of each back call are marked, and marked functions stay in the set. One marked call per cycle is
  enough, which is what is proved; only the comment is off.
- Step 1 of the inline pass forces internal functions and private ones with one call site without a look at cycles
  (lib/Transforms/TopoInlinePass.cpp:121-130), so the final set may hold a recursive inline: `InlineClosure.SelfCallForced`;
  step 2 may complete one: `StepTwoClosesCycle`. `Run` says which cycles are in it, in terms of the marks, which
  `InlineClosure.Marks` computes from the order of calls and functors.
- Step 2 does not look at noinline (lib/Transforms/TopoInlinePass.cpp:169-186), which excludes alwaysinline:
  `InlineClosure.NoInlineForced`; `Run` says which functions get both.
- A pipeline run that is unwound leaves its begin pending (lib/Transforms/AdaptiveDispatchPass.cpp:288-305 emits ends
  before returns only), and an enclosing run of the same pipeline takes it: `DispatchBalance.UnwoundBeginTaken`, with the
  conditions in `RunsBalanced` and `EndTakesItsBegin`.
- `commitSpecialization` tests only for the active state (runtime/topo_adaptive.cpp:471), so a forced commit on a
  verifying entry counts it twice: `AdaptiveLaws.ForcedWhileVerifyingOvercounts`, `ActiveCountExact`.
- The comment at runtime/topo_adaptive.cpp:424-429 says shutdown leaves the state of "never initialized"; installed
  dispatch pointers stay: `AdaptiveLaws.RestartWhileLive`, `RestartMatches`; `PointerMatchesExactly` says until when it shows.
- The recorded frees of escaping sites are those seen before the walk returned, so the intent stated at
  lib/Transforms/LifetimeArenaPass.cpp:226-231 holds for recorded frees only: `ArenaConversion.EarlyEscapeLosesFree`.
  `ConvertScope` says when it holds for all; it does whenever no escaping site shares a free with one that does not escape.
- A product that does not overflow but gets no memory makes the lowered calloc zero the whole product at null: because its
  scope has no arena yet or the arena could not be made, for want of a block or of memory, or because the allocator's own
  guard refuses it. The comment at lib/Transforms/LifetimeArenaPass.cpp:556-566 covers overflow of the product only.
  `Arena.Calloc` gives the condition, `CallocZeroesAtNull` a case that no memory helps, `CallocWithoutArena` the null arena.
- A store through the allocation counts as safe without a look at what is stored (lib/Transforms/LifetimeArenaPass.cpp:133-135),
  so an allocation stored into itself can be loaded back and let go: `EscapeRuns.SelfStoreMissed`. A function of the scope
  is trusted with it (lines 202-203) and may hand it back: `PassedOnMissed`. `EscapesExactly` is the verdict's meaning
  without the two; `EscapeLimits.SelfStoredExactly` and `HandedBackExactly` say that both matter whenever they occur.
- Rounding the configured calls up wraps (runtime/topo_adaptive.cpp:304): from 2^32 - 9 calls on one pass is enough:
  `AdaptiveVerdicts.RequiredExactly`.
- The mask formula rounds up only for powers of two, and the allocator takes any alignment; containment and disjointness
  hold for every alignment all the same: `AlignMask.ThreeMisses`, `MaskUpAlignsExactly`, `Arena.TopoArena.Alloc`.

## Left out

- Pool start and stop, shutdown racing with await or spawn, wall-clock time-outs, condition-variable wake-ups and
  memory-order details: steps are sequentially consistent and the pool is running.
- A wait with a null handle, which returns at once; fences.
- Floating-point reductions; loops whose header does work beyond the phis and the exit test. A loop that is one block has
  header and body in one, and the outliner, which clones no header, would leave its body out.
- Calls in a loop body that write memory without reading it, and exit values of phis that are no reduction.
- LoopIr.CandidateReductions: exits, preheaders, synchronisation names and the block count of the gate are not modelled, the loop form already fixes them.
- Several arrays in one function, nested aggregates as fields, and accesses the layout pass does not recognise: every
  access goes to the array and names a field or an element.
- The legacy per-node layout transform, column allocation failing, and the base-pointer stripping of layered addresses.
- The ratio tests and cost-derived contexts of the adaptive controller: arbitrary outcomes.
- Exceptions out of a compile's future, and two live pipelines registered with one dispatch pointer.
- CostSamples.CostRecorder.GetCostSamples: nothing is claimed of a name with 2^64 measurements.
- Allocations of a scope made after its arena was destroyed.
- What functions of the scope do with a pointer they get, other than hand it back: they are trusted as the code trusts them.
- Control flow in the runs of a def-use graph: instructions come in any order, so a run may do what no path of the code does.
- Stage bodies with branches or impure functions, and results returned through a hidden pointer.
- Events, registration constructors, priorities of spawned stage tasks, reports and verbose output.
- Symbol mapping, verification and visibility passes, pipeline orchestration, section reading, JSON, and the rest of the lifter.
