# A verified model of the concurrency analyzer

The analyzer reads a C++ translation unit as LLVM IR and reports data races, lock-order deadlocks and thread-lifetime
mistakes. This project models the algorithms that decide those reports and proves what they decide. A function is a
finite graph of blocks of instructions; lock effects, spawns, joins, calls, fences and accesses are finite tables over
it. Code that works step by step is imperative Dafny, proved against a specification stated without it; code that
computes is functions. Nothing was executed; `dafny verify dfyconfig.toml` checks the whole project.

| part | modules |
|---|---|
| deadlocks | `LockCycles`, `LockGraphs`, `CycleSearch`, `SearchEffort`, `LockOrderAnalyzer`, `LockMachine` |
| held locks | `LockEffects`, `LockFlow`, `LockScopeTracker`, `LockOrderCollector`, `LockStatePropagator`, `LockIds` |
| thread liveness | `ThreadFlood`, `Handles`, `HandleSummaries`, `SummaryDepths`, `JoinedActivations`, `StartedActivations`, `InheritedThreads`, `HandleGroups` |
| call cycles | `Reachability`, `CallCycles` |
| memory | `MemoryEffects`, `MemoryRegions`, `ParameterFootprints` |
| publication through atomic flags | `LiveDominance`, `Publication`, `PublicationFinder`, `PublicationLimits` |
| races | `Facts`, `DataRaces`, `RaceMachine` |
| shared | `Strings`, `ControlFlow` |

The main theorems, hardest first:

- `LockMachine.DeadlockReported`: in every state a machine of threads, owners and waits can reach with a circular wait,
  the report has a cycle on exactly the edges of the wait, or says the search was incomplete. `LockOrderAnalyzer.Run`
  gives the report: when complete it names exactly the edge sets of the elementary cycles some choice of orders may
  deadlock on, each once and from its lowest-numbered lock, the numbers being those of a depth-first walk; and it is
  incomplete exactly when some lock has more than 65536 partial choices of orders to look at
  (`SearchEffort.EffortCounts`). Even then every circular wait whose lowest lock has no more than that is reported
  (`LockMachine.DeadlockReportedWithinShare`).
- `RaceMachine.RaceReported`: in every state of tasks and lock owners coherent with the entry facts in which two tasks are
  about to touch a common byte of one object, one of them writing and one plainly, the object's symbol has a diagnostic;
  `DataRaces.RacesIff` says of the filters, both ways, what they let through.
- `InheritedThreads.GoneIsJoined`: where the flood no longer follows a thread that was running on entry, every run of
  the function has waited, itself or however deep in its calls, for a thread in its handle, and every start before that
  wait, at any depth, is one whose name does not arrive as the handle. It rests on `ThreadFlood.ContainsIsExact` (the
  flood against paths), `JoinedActivations.SummariesHold` (the joined summaries against activations, recursion
  included) and its dual `StartedActivations.NamedStartInSummary`. That the wait was for the inherited thread does not
  follow alone: `StartedActivations.StartMissed` is a run whose refill the analysis cannot see, and
  `InheritedThreads.InheritedIsJoined` proves it when every started name crosses the calls it meets, nothing else names
  the storage, and spawns keep what they start.
- `Publication.DroppedPairsAreOrdered`: a pair of accesses dropped as ordered by a publication is ordered by
  happens-before in every execution, each run of the one against each run of the other, when every branch that folds for
  the published constant goes another way for the initial value. The code folds the published constant only;
  `PublicationLimits.TagsWithoutOrder` is a unit and an execution where both go one way and the tags order nothing.
- `CallCycles.ComponentsOf`: the iterative component search gives two functions one component exactly when each calls
  the other, directly or not.
- `MemoryEffects.LeastEffects` and `MemoryEffects.NoWriteLost`: the effect iteration ends at the least effects for every
  call graph, the cap loses no byte some chain of calls may write, and every flag, write and whole object in the result
  is one some chain of calls comes to. `SummaryDepths.SummariesSayWhatCallsDo` says the same of the handle summaries.
- `LockScopeTracker.CollectHeldLocks` (exactly the locks every path takes, or is entered with, and keeps),
  `LockOrderCollector.Collect` (orders and gates between what every path and what one path holds),
  `LockStatePropagator.Collect` (the least entry locks).
- `DataRaces.LocationsStableIff`: whether a symbol is reported never depends on the order of the accesses
  (`DataRaces.ReportedWhateverTheOrder`), but on which locations does, exactly when two accesses race precisely and two
  race on a location that no precise pair and no precise access racing with itself names;
  `DataRaces.OrderDecidesALocation` is an input that shows it.

## Model

| member | source | states |
|---|---|---|
| `Facts.MayHappenInParallelSymmetric` | src/internal/analysis/fact_queries.hpp:23-83 | The may-happen-in-parallel relation, with its initial-thread, self-concurrent and sequenced cases, does not depend on which point is named first |
| `Facts.ParallelIff` | src/internal/analysis/fact_queries.hpp:23-83 | Two points may run at once exactly when the initial thread is at one while an entry reaching the other is alive, or two entries no join orders, or one started more than once, reach them |
| `Facts.NeverInParallel` | src/internal/analysis/fact_queries.hpp:23-52 | Off the initial thread, entries a join orders, and a lone instance of one entry, are never in parallel |
| `LockCycles.RotationInvariant` | src/internal/analysis/lock_order_analyzer.cpp:114-175 | Where a cycle is listed from changes neither its key, nor whether it is address-ordered, nor, both ways, whether it is an ungated choice of pairwise parallel orders |
| `LockCycles.KeyDeterminesLocks` | src/internal/analysis/lock_order_analyzer.cpp:163-175 | Two elementary cycles with one key, listed from one lock, run through the same locks in the same order |
| `LockCycles.InParallelIff` | src/internal/analysis/lock_order_analyzer.cpp:236-249 | What lets two acquisitions run at once, said of their functions, entries and live entries |
| `LockGraphs.NumberLocks` | src/internal/analysis/lock_order_analyzer.cpp:186-215 | Every lock of the orders gets one number, 0 to n-1, in the order an agenda-driven depth-first walk from the roots, along the orders as collected, first reaches them |
| `LockGraphs.SuccessorsOf` | src/internal/analysis/lock_order_analyzer.cpp:214-229 | A lock's successors are listed once each, with all its orders to them in the order collected |
| `LockGraphs.BuildLockGraph` | src/internal/analysis/lock_order_analyzer.cpp:186-232 | For every order of the roots, the locks are numbered so and the graph holds each order in its place and nothing else |
| `CycleSearch.HasCommonGateLock` | src/internal/analysis/lock_order_analyzer.cpp:114-143 | True exactly when some lock is held at every order of the cycle and is none of the locks they join |
| `CycleSearch.IsAddressOrdered` | src/internal/analysis/lock_order_analyzer.cpp:153-161 | True exactly when every order of the cycle takes the lower address first |
| `CycleSearch.MayHappenInParallelWithEach` | src/internal/analysis/lock_order_analyzer.cpp:236-249 | True exactly when the order may run in parallel with every order already taken |
| `CycleSearch.Predecessors` | src/internal/analysis/lock_order_analyzer.cpp:272-277 | The predecessors of each lock are exactly the locks with an order to it |
| `CycleSearch.LeadingTo` | src/internal/analysis/lock_order_analyzer.cpp:342-357 | The worklist marks exactly the higher locks from which orders lead back to the start through higher locks |
| `CycleSearch.Search.EmitOnce` | src/internal/analysis/lock_order_analyzer.cpp:284-288 | A cycle is reported unless one on the same edges is; reported keys stay distinct |
| `CycleSearch.Search.Close` | src/internal/analysis/lock_order_analyzer.cpp:319-325 | A closed choice without a gate is reported, or set aside when wholly address-ordered |
| `CycleSearch.Search.TryOrder` | src/internal/analysis/lock_order_analyzer.cpp:306-332 | Within the share, every choice going on with this order is reported; the share is spent exactly by the orders the recursion examines |
| `CycleSearch.Search.Walk` | src/internal/analysis/lock_order_analyzer.cpp:298-336 | Within the share, every choice that extends the path and may deadlock is reported, and the path and marks are restored; false exactly when the orders to examine pass the bound |
| `CycleSearch.Search.ReportDeadlockingCycles` | src/internal/analysis/lock_order_analyzer.cpp:269-367 | Complete exactly when no walk has more than 65536 orders to examine; every choice from a start whose walk does not is reported, complete or not, but for address-ordered ones, which only a complete search leaves out |
| `SearchEffort.EffortCounts` | src/internal/analysis/lock_order_analyzer.cpp:252-256 | The work of the walk from a lock is the number of its partial choices: orders that continue one another through locks that lead back, all but the last in parallel with those before and short of the start |
| `LockOrderAnalyzer.GroupByFirstLock` | src/internal/analysis/lock_order_analyzer.cpp:401-408 | Each first lock has exactly its orders between two locks that some task executes, as collected |
| `LockOrderAnalyzer.SearchJudges` | src/internal/analysis/lock_order_analyzer.cpp:252-268 | From the search's coverage: reported cycles are real, once per edge set, from their lowest lock, and all of them when complete or when the walk from the lowest lock stays within its share |
| `LockOrderAnalyzer.Run` | src/internal/analysis/lock_order_analyzer.cpp:383-421 | The self-deadlocks listed are exactly the collected reacquisitions of non-recursive locks, each as often as collected; every order of a reported cycle was collected between two locks in code some task executes, and every two may be taken at once; the cycles reported are exactly those some choice may deadlock on, when complete, from the lock a depth-first walk by name reaches first; incomplete exactly when the work from some lock passes 65536, and even then with every ungated cycle whose lowest lock does not |
| `LockMachine.StepKeepsDescribed` | src/internal/analysis/lock_order_collector.cpp:248-303 | Starting, exiting, asking, being granted, trying and releasing keep every waiting thread described by the orders it asked under |
| `LockMachine.RunKeepsDescribed` | src/internal/analysis/lock_order_collector.cpp:248-303 | So in every state of every run |
| `LockMachine.SelfWaitReported` | src/internal/analysis/lock_order_analyzer.cpp:387-398 | In every reachable state in which a thread waits for a lock it owns itself, of a type that may not be taken again, the report lists an order on that lock |
| `LockMachine.ListedIsSelfDeadlock` | src/internal/analysis/lock_order_analyzer.cpp:387-398 | Every order listed as a self-deadlock was collected, on one lock, which is not recursive |
| `LockMachine.WaitMayDeadlock` | src/internal/analysis/lock_order_analyzer.cpp:114-161 | The orders behind a circular wait form a choice that is pairwise parallel, ungated and not address-ordered: the three prunings drop no real deadlock |
| `LockMachine.ChoiceOnEdges` | src/internal/analysis/lock_order_analyzer.cpp:163-175 | That choice has exactly the edges of the wait as its key |
| `LockMachine.DeadlockReported` | src/internal/analysis/lock_order_analyzer.cpp:269-421 | Every reachable circular wait of two or more threads is reported on exactly its edges, or the report says the search is incomplete |
| `LockMachine.DeadlockReportedWithinShare` | src/internal/analysis/lock_order_analyzer.cpp:252-367 | A reachable circular wait is reported even by an incomplete search when the walk from its lowest-numbered lock has at most 65536 orders to examine |
| `ThreadFlood.WalkBlock` | src/internal/analysis/task_concurrency_analyzer.cpp:255-273 | The first instruction of a block at which the thread no longer runs, always-kills and by-handle kills up to a refill included, and whether the handle still names it past the block |
| `ThreadFlood.Flood` | src/internal/analysis/task_concurrency_analyzer.cpp:252-323 | The two-state worklist ends after walking each block at most twice, at a result closed under every step of a running thread and holding only what one reaches |
| `ThreadFlood.ContainsIsExact` | src/internal/analysis/task_concurrency_analyzer.cpp:105-137 | A point is contained exactly when some path from the start has the thread running there |
| `ThreadFlood.NamedAt` | src/internal/analysis/task_concurrency_analyzer.cpp:139-166 | Reads the answer off the flood's two maps and the refills on the way to the point |
| `ThreadFlood.NamedAtIsExact` | src/internal/analysis/task_concurrency_analyzer.cpp:139-166 | That answer holds exactly when the point is reached and no path with the thread still alive there has refilled the handle |
| `ThreadFlood.FloodSaysOfTraces` | src/internal/analysis/task_concurrency_analyzer.cpp:105-166 | The answers in terms of the instructions run: contained exactly when the thread is alive along some trace to the point, a kill by handle counting only before a refill, by instruction and by edge; named exactly when no such trace refills the handle |
| `Handles.CalleeAndBack` | src/internal/analysis/task_concurrency_analyzer.cpp:513-563 | Naming a handle in the callee and back in the caller gives it back exactly when it is a global or nameable |
| `Handles.HandleAtCalleeIff` | src/internal/analysis/task_concurrency_analyzer.cpp:536-563 | The callee's name: a global's own, or the steps left past the first nameable argument that holds the storage |
| `Handles.CallerAndBack` | src/internal/analysis/task_concurrency_analyzer.cpp:511-563 | A callee's handle named in the caller can be handed down again, to a name of the same storage |
| `Handles.TranslatedInUniverse` | src/internal/analysis/task_concurrency_analyzer.cpp:478-485 | Translating at calls, however often, stays in one finite set of handles: a passed root and at most 16 steps the unit writes |
| `HandleSummaries.AddSites` | src/internal/analysis/task_concurrency_analyzer.cpp:940-957 | Adds what a function's own starts and joins give, keeping every entry accounted for and below every stable solution |
| `HandleSummaries.AddCalls` | src/internal/analysis/task_concurrency_analyzer.cpp:959-1001 | Adds what its calls give, started, reported and joined handles alike, recursive calls reading the summary being extended |
| `HandleSummaries.SummarizeHandles` | src/internal/analysis/task_concurrency_analyzer.cpp:921-1004 | The rounds end for every call graph, recursion included, at the least stable summaries, each entry accounted for by a site or a call |
| `HandleSummaries.LeastIsUnique` | src/internal/analysis/task_concurrency_analyzer.cpp:919-929 | The result does not depend on the order the functions are visited in |
| `SummaryDepths.SummariesSayWhatCallsDo` | src/internal/analysis/task_concurrency_analyzer.cpp:921-1004 | The summaries hold exactly the handles some chain of calls starts, joins at places every normal return has passed, or reports |
| `JoinedActivations.PassesCovered` | src/internal/analysis/task_concurrency_analyzer.cpp:931-939 | A run to a normal return passes every place that covers all returns |
| `JoinedActivations.SameStorage` | src/internal/analysis/task_concurrency_analyzer.cpp:511-533 | A translated handle names, in the caller's frame, the storage the callee's handle names in its own |
| `JoinedActivations.SummariesHold` | src/internal/analysis/task_concurrency_analyzer.cpp:887-998 | Every activation that returned has joined each handle in its joined summary, at any depth of calls; one that reports success has joined those in its reported summary |
| `StartedActivations.NamedStartInSummary` | src/internal/analysis/task_concurrency_analyzer.cpp:941-971 | A start at any depth of a run is in the started summary under the name it arrives by |
| `StartedActivations.NamedStorage` | src/internal/analysis/task_concurrency_analyzer.cpp:511-533 | The name a start arrives by names, in the frame, the storage it fills |
| `StartedActivations.CrossesIff` | src/internal/analysis/task_concurrency_analyzer.cpp:513-533 | A name crosses a call exactly when it is a global's, or a parameter's whose argument is named, with no unknown index and at most 16 steps in all |
| `StartedActivations.NamedUnlessLost` | src/internal/analysis/task_concurrency_analyzer.cpp:513-533 | A start has a name in the frame exactly when it crosses every call on the way |
| `StartedActivations.StartSites` | src/internal/analysis/task_concurrency_analyzer.cpp:1197-1228 | Exactly the points of own spawns and adoptions into the handle, and of calls, no spawns themselves, whose started summary translates to it |
| `StartedActivations.FillsUnlessEscapes` | src/internal/analysis/task_concurrency_analyzer.cpp:1197-1228 | A start whose name arrives as the handle, and that no spawn counts into another handle, is made at one of those points |
| `StartedActivations.NoneEscapes` | src/internal/analysis/task_concurrency_analyzer.cpp:1197-1228 | When started names cross, the handle alone names its storage and spawns keep what they start, no start into the storage escapes |
| `StartedActivations.StartMissed` | src/internal/analysis/task_concurrency_analyzer.cpp:513-533 | A run with a start into the handle's storage that no summaries can see: the call passes the storage under no name |
| `InheritedThreads.JoinsOf` | src/internal/analysis/task_concurrency_analyzer.cpp:1006-1092 | The kills of a handle end a thread exactly past its joins in place and the calls whose summary joins or reports it |
| `InheritedThreads.ReachOnEntry` | src/internal/analysis/task_concurrency_analyzer.cpp:1127-1157 | The flood of a thread running on entry, ended by the joins of its handle up to where the handle is filled again; without a handle nothing ends it |
| `InheritedThreads.GoneIsJoined` | src/internal/analysis/task_concurrency_analyzer.cpp:853-870 | At a point the flood does not contain, every run has waited for a thread in that storage, by a join or in a call; up to that wait no point of the run fills the handle, and every start of the run, at any depth, escapes the handle's name |
| `InheritedThreads.InheritedIsJoined` | src/internal/analysis/task_concurrency_analyzer.cpp:853-870 | With started names crossing every call, the storage named by the handle alone and spawns keeping what they start, nothing was started into the storage before the wait: it was for the inherited thread |
| `HandleGroups.HandleGroupAliases.Find` | src/internal/analysis/missing_join_detector.cpp:65-73 | Returns the least linked name that is no parameter's, or the least when all are; path compression changes no root |
| `HandleGroups.HandleGroupAliases.Unite` | src/internal/analysis/missing_join_detector.cpp:44-63 | Adds one link; the forest still represents exactly the links made |
| `HandleGroups.SharedRootIsLinked` | src/internal/analysis/missing_join_detector.cpp:41-77 | Two groups share a root exactly when unites link them |
| `HandleGroups.RootRepresents` | src/internal/analysis/missing_join_detector.cpp:50-62 | The root is the least name of its class without the parameter prefix, or the least name when all have it |
| `HandleGroups.RepresentativeUnique` | src/internal/analysis/missing_join_detector.cpp:41-77 | A class has one such name, so the result is independent of the order of calls |
| `CallCycles.LookAtCall` | src/internal/analysis/interprocedural_bindings.cpp:105-115 | Entering a callee or lowering the top keeps the search invariant, and either a function is met or work shrinks |
| `CallCycles.EndVisit` | src/internal/analysis/interprocedural_bindings.cpp:117-135 | Ending a visit, closing its component when it leads no further back, keeps the invariant |
| `CallCycles.PopComponent` | src/internal/analysis/interprocedural_bindings.cpp:127-134 | Takes off the stack exactly what lies above and at the root |
| `CallCycles.VisitFrom` | src/internal/analysis/interprocedural_bindings.cpp:101-136 | The explicit visit stack empties, with everything the root leads to in a component |
| `CallCycles.ComponentsOf` | src/internal/analysis/interprocedural_bindings.cpp:66-137 | Every function of the graph gets a component, and two the same one exactly when each reaches the other |
| `CallCycles.CallsClosingCycles` | src/internal/analysis/interprocedural_bindings.cpp:66-149 | A call is returned exactly when its callee reaches its caller again |
| `LockEffects.CollectFunctionLockEffects` | src/internal/analysis/lock_effect_application.cpp:13-48 | Each call with effects keeps them, and a guard is bound, without repetition, to exactly the locks some acquisition through it takes |
| `LockEffects.LockStateChangeFor` | src/internal/analysis/lock_effect_application.cpp:50-105 | Each field of the change holds exactly the locks some effect of the instruction takes, waits for, may retake, or releases by name or through its guard; in the order of the effects |
| `LockFlow.MeetPredecessorStates` | src/internal/analysis/lock_scope_tracker.cpp:35-62 | The intersection of the states of the reachable predecessors that have one; none when none has |
| `LockFlow.StepKeeps` | src/internal/analysis/lock_scope_tracker.cpp:134-166 | Visiting a block keeps states shrinking and each state held on some path to its block |
| `LockFlow.StepFalls` | src/internal/analysis/lock_scope_tracker.cpp:128-167 | A visit that changes a state shrinks the measure, so the iteration ends |
| `LockFlow.StableIsExact` | src/internal/analysis/lock_scope_tracker.cpp:118-170 | At a fixed point, a lock is in the state at an instruction exactly when it is held there on every path from the entry |
| `LockFlow.HeldAtMeans` | src/internal/analysis/lock_scope_tracker.cpp:141-153 | The locks computed along a path are those some instruction of it takes, or it is entered with, and no later instruction drops without taking again |
| `LockScopeTracker.WalkBlock` | src/internal/analysis/lock_scope_tracker.cpp:143-154 | Runs a block's releases then acquisitions, recording what is held before each tracked instruction and nothing elsewhere |
| `LockScopeTracker.CollectHeldLocks` | src/internal/analysis/lock_scope_tracker.cpp:77-170 | For every reachable tracked instruction, the recorded locks are exactly those every path to it takes and keeps |
| `LockOrderCollector.RecordOrder` | src/internal/analysis/lock_order_collector.cpp:271-302 | One fact per held lock, acquired lock and location; later visits only add their instruction |
| `LockOrderCollector.Collect` | src/internal/analysis/lock_order_collector.cpp:213-325 | Each lock every path holds at a blocking acquisition has a fact listing it; each fact has one path to an acquisition at its location on which its first lock and all its recorded locks are held, which are none of an object kept for lack of proof and otherwise leave out no lock every path holds there; two facts never name the same locks, file, line and column, and every instruction a fact stands for takes its second lock there with its first held on some path |
| `LockStatePropagator.MergeCalls` | src/internal/analysis/lock_state_propagator.cpp:116-146 | What every call of a function lets it assume, parameter names stripped |
| `LockStatePropagator.Collect` | src/internal/analysis/lock_state_propagator.cpp:109-158 | Ends at the least solution, in which a lock enters a function exactly when it names no parameter and following the calls back always meets a call at which the caller itself holds it |
| `LockStatePropagator.HeldAlongChain` | src/internal/analysis/lock_state_propagator.cpp:30-44 | On every chain of direct calls from a function nobody calls, each entry lock is held locally at some call, and names no parameter |
| `LockStatePropagator.ParameterLocksStay` | src/internal/analysis/lock_state_propagator.cpp:30-35 | No lock a caller names after one of its parameters enters a callee |
| `LockIds.ParameterRoundTrip` | src/internal/analysis/ir_utils.cpp:911-945 | A lock named after a parameter is read back as that parameter at its place, negative and unknown offsets included |
| `LockIds.ParameterPlaceIff` | src/internal/analysis/ir_utils.cpp:911-932 | Exactly which names are read as a parameter's: the prefix, a number, and nothing, an unknown index, or a sign and a number |
| `LockIds.GlobalRoundTrip` | src/internal/analysis/ir_utils.cpp:934-977 | A lock named after a global is read back exactly when its name is no parameter's and, at the start of the object, the symbol ends in neither `[*]` nor `+` and a number |
| `LockIds.ReprintsTheSame` | src/internal/analysis/ir_utils.cpp:934-977 | Reading a well-formed name and printing it again gives the name |
| `LockIds.TwoFramesAreOne` | src/internal/analysis/ir_utils.cpp:934-977 | Placing a lock through two frames is placing it once at the summed offset, an unknown one making the sum unknown |
| `LockIds.UnprefixedIsNoParameter` | src/internal/analysis/ir_utils.cpp:911-932 | A symbol without the parameter prefix names no parameter, wherever the lock lies in it |
| `MemoryEffects.Record` | src/internal/analysis/held_member_analysis.cpp:241-264 | The list keeps the writes so far, sorted: the set itself, or the whole object once it is among them or they exceed 8 |
| `MemoryEffects.KeptOnce` | src/internal/analysis/held_member_analysis.cpp:252-263 | What is kept does not depend on the order of the writes |
| `MemoryEffects.EffectsOf` | src/internal/analysis/held_member_analysis.cpp:277-337 | A function's effects keep exactly what its stores, intrinsics, defined calls shifted by their arguments, and opaque calls write |
| `MemoryEffects.EffectsMonotone` | src/internal/analysis/held_member_analysis.cpp:211-213 | More effects of the callees give at least as much in the caller, the cap included |
| `MemoryEffects.LeastEffects` | src/internal/analysis/held_member_analysis.cpp:204-337 | The iteration ends for every call graph, at a fixed point below every other, which says exactly what calls do: a pointer escapes when some chain keeps it, memory is written elsewhere when some chain does, a list holds the writes some chain makes, and the whole object stands only past 8 of them or for a write that comes to it |
| `MemoryEffects.EffectsUnique` | src/internal/analysis/held_member_analysis.cpp:319-337 | The effects of a function are determined by those of its callees |
| `MemoryEffects.NoWriteLost` | src/internal/analysis/held_member_analysis.cpp:179-187 | Every byte some chain of calls may write through a parameter is covered by the effects, offsets growing with recursion included |
| `MemoryRegions.MayOverlapSymmetric` | src/internal/analysis/facts.hpp:105-123 | Overlap and the order with an element's owner do not depend on which region is named first |
| `MemoryRegions.MayOverlapIsExact` | src/internal/analysis/facts.hpp:105-123 | Two regions may overlap exactly when some byte may be touched by both, elements of instances apart |
| `MemoryRegions.RebasingCovers` | src/internal/analysis/facts.hpp:125-142 | The bytes an access touches are covered by its region in every frame of a chain of calls of any length |
| `MemoryRegions.RebasedIsExact` | src/internal/analysis/facts.hpp:125-142 | Along arguments known to the byte, a region known to the byte covers exactly its bytes moved by the sum of the offsets |
| `MemoryRegions.SharedByteOverlaps` | src/internal/analysis/facts.hpp:105-142 | Two accesses that share a byte in the root frame, each through its own chain, have regions there that may overlap |
| `ParameterFootprints.MergeOverlapping` | src/internal/analysis/parameter_footprints.cpp:68-79 | Sorted ranges merge into disjoint ones of exactly the same bytes, no plain byte left only atomic, and a merged range plain only when some plain range lies inside it; ranges that only touch stay apart |
| `ParameterFootprints.Span` | src/internal/analysis/parameter_footprints.cpp:81-90 | One range from the first begin to the last end, atomic only when all are |
| `ParameterFootprints.MergeRanges` | src/internal/analysis/parameter_footprints.cpp:59-93 | At most 16 sorted disjoint ranges: exactly the bytes given, or past the cap the one span over them; no plain byte left only atomic |
| `LiveDominance.LiveBlocks` | src/internal/analysis/publication_analysis.cpp:220-248 | Exactly the blocks some path reaches once constant switches are resolved |
| `LiveDominance.LiveDominates` | src/internal/analysis/publication_analysis.cpp:253-279 | Exact: in one block, position decides; otherwise true exactly when the earlier block is live and every live path to the later instruction passes it |
| `LiveDominance.RunIsTrace` | src/internal/analysis/publication_analysis.cpp:217-248 | Every run that takes the arms its constants select stays among the paths dominance is about |
| `LiveDominance.NeverAfter` | src/internal/analysis/publication_analysis.cpp:534-539 | What dominates a point off every cycle never runs after it |
| `LiveDominance.MiddleBetween` | src/internal/analysis/publication_analysis.cpp:549-556 | An access that dominates a fence that dominates the store is followed by the fence before the store, on every run |
| `PublicationFinder.RunsAtMostOnce` | src/internal/analysis/publication_analysis.cpp:487-506 | True exactly for an entry nothing calls, started by one spawn of `main` outside any loop |
| `PublicationFinder.FindPublication` | src/internal/analysis/publication_analysis.cpp:510-544 | True exactly when the flag has one atomic store, of a constant other than its initial value, run at most once |
| `PublicationFinder.ReleasePoints` | src/internal/analysis/publication_analysis.cpp:545-556 | The store when it releases, and exactly the releasing fences on every path to it |
| `PublicationFinder.PublishedAccesses` | src/internal/analysis/publication_analysis.cpp:562-579 | Exactly the accesses on every path to the store and to one of its release points |
| `PublicationFinder.ObservingAccesses` | src/internal/analysis/publication_analysis.cpp:583-638 | Exactly the accesses an observed arm dominates that the load, or a fence after it, acquires for |
| `PublicationFinder.Analyze` | src/internal/analysis/publication_analysis.cpp:357-405 | Tags exactly the accesses before a release and after an acquire, for every flag that publishes |
| `Publication.OneActivation` | src/internal/analysis/publication_analysis.cpp:485-506 | A function so started has one activation in every execution |
| `Publication.ReleaseSide` | src/internal/analysis/publication_analysis.cpp:545-579 | Each run of a before-release access is followed by a release for the store that was read, the store or a fence sequenced before it |
| `Publication.OrderedOnSomeArm` | src/internal/analysis/publication_analysis.cpp:596-608 | The arms collected are those of the branches that fold for the published constant |
| `Publication.ArmTaken` | src/internal/analysis/publication_analysis.cpp:601-609 | When the initial value opens another arm, the published arm is taken only once the load has returned the published constant |
| `Publication.AcquireSide` | src/internal/analysis/publication_analysis.cpp:583-638 | Each run of an after-acquire access follows a load that returned the published constant and an acquire for it |
| `Publication.PublicationOrders` | src/internal/analysis/publication_analysis.cpp:510-641 | In every execution a before-release access happens before an after-acquire access of the same flag, directly or through fences, when the branches tell the two values of the flag apart |
| `Publication.DroppedPairsAreOrdered` | src/internal/analysis/data_race_checker.cpp:42-54 | So every pair the race checker drops for a publication is ordered, one way or the other |
| `PublicationLimits.TagsWithoutOrder` | src/internal/analysis/publication_analysis.cpp:601-609 | A unit and an execution, with a condition true of both values, where the tags are there and the accesses are not ordered |
| `DataRaces.RacesSymmetric` | src/internal/analysis/data_race_checker.cpp:468-494 | The filters as a whole do not depend on which access comes first |
| `DataRaces.RacesIff` | src/internal/analysis/data_race_checker.cpp:468-494 | Two accesses race exactly when one writes, one is plain, a mixed pair is known to the byte, some byte may be in both, they may be made at once, no lock is held at both, no flag publishes one to the other, and no ownership tells them apart |
| `DataRaces.SelfRacesIff` | src/internal/analysis/data_race_checker.cpp:171-191 | A plain write races with itself exactly when the initial thread makes it beside an entry, or two entries no join orders reach it, with no lock held and no spawn binding it |
| `DataRaces.SelfConcurrentIff` | src/internal/analysis/data_race_checker.cpp:605-626 | A plain write two instances make, exactly when an entry started more than once reaches it, with no lock held and no ownership apart |
| `RaceMachine.AccessesRace` | src/internal/analysis/data_race_checker.cpp:468-494 | Two tasks about to race at two accesses: the accesses pass every filter |
| `RaceMachine.RaceReported` | src/internal/analysis/data_race_checker.cpp:416-631 | In every coherent state in which two tasks are about to race, at two recorded accesses or at one, the symbol has a diagnostic |
| `DataRaces.ComparedPairs` | src/internal/analysis/data_race_checker.cpp:461-466 | The pairs compared are exactly the two-element parts of the symbol's accesses |
| `DataRaces.ComparedOnce` | src/internal/analysis/data_race_checker.cpp:461-463 | The scan is a bijection from pairs of positions to its places |
| `DataRaces.AdmittedAre` | src/internal/analysis/data_race_checker.cpp:496-506 | Admitted pairs race; every precise racing pair is admitted, and every racing pair when none is precise |
| `DataRaces.ComparePair` | src/internal/analysis/data_race_checker.cpp:468-536 | One more pair keeps the grouping, the total and the precise-symbol set right |
| `DataRaces.GroupPairs` | src/internal/analysis/data_race_checker.cpp:458-550 | One conflict per location and contexts, holding the first pair no other stands above in the tuple order, and counting the rest: together, 1 + additional pairs sum to the admitted pairs |
| `DataRaces.StandingMeans` | src/internal/analysis/data_race_checker.cpp:501-516 | What the four fields that rank a pair say of its accesses |
| `DataRaces.AboveIsHeavier` | src/internal/analysis/data_race_checker.cpp:518-521 | The tuple order: precision, then the lowered origin, then the confidence, then two writes |
| `DataRaces.SameLocationIff` | src/internal/analysis/data_race_checker.cpp:133-155 | Two pairs share a location exactly when they start at the same byte, or both at an unknown one, and are raced by the same two contexts |
| `DataRaces.AddSelfRaces` | src/internal/analysis/data_race_checker.cpp:552-583 | Adds one conflict, from the first access that races with itself, for each location the pairs leave unreported, and changes no other |
| `DataRaces.FirstSelfConcurrent` | src/internal/analysis/data_race_checker.cpp:602-627 | The first write two instances of an entry may run at once, if any |
| `DataRaces.CheckSymbol` | src/internal/analysis/data_race_checker.cpp:455-628 | A symbol gets a diagnostic exactly when two of its accesses race, or one races with itself or another instance |
| `DataRaces.Run` | src/internal/analysis/data_race_checker.cpp:416-631 | So for every symbol of the unit, over the accesses some task executes |
| `DataRaces.ReportedWhateverTheOrder` | src/internal/analysis/data_race_checker.cpp:428-438 | Whether a symbol gets a diagnostic is unchanged by permuting the accesses |
| `DataRaces.ReportLocations` | src/internal/analysis/data_race_checker.cpp:458-583 | A location is in a report exactly when an admitted pair names it, or an access that races with itself and is precise or meets no precise pair |
| `DataRaces.LocationsStableIff` | src/internal/analysis/data_race_checker.cpp:496-583 | The reports of all orders are on the same locations exactly when no two accesses race precisely, or every racing location has a precise pair or a precise access racing with itself |
| `DataRaces.OrderDecidesALocation` | src/internal/analysis/data_race_checker.cpp:496-583 | Four accesses of one symbol whose order decides whether a second location is reported |

## Left out

- LLVM itself: dominator trees, loop information, constant folding, offsets and storage names are inputs. Dominance is
  taken as the path property it means, a branch as going where the value its load returned takes it, and a block outside
  every loop as on no cycle, which loop information does not promise for irreducible graphs.
- Integer widths: byte offsets and counters are unbounded, so 64-bit overflow in `mayOverlap`, `rebasedOn` and
  `recordCall` is not modelled. Lock ids do model the 32- and 64-bit ranges of the numbers they read, and a number out
  of range as a failed read, after which the collector's gate filter goes on as for a name without a symbol.
- String keys: `cycleKey`, `conflictLocationKey` and the collector's fact key are sets and tuples, and handle names a
  root with its steps; two names made equal by a separator inside them are not modelled.
- The order of unordered containers: the functions are visited in any given order, the roots of the lock graph in the
  sorted order of their names, and the order in which several symbols' diagnostics come out is not stated.
- Diagnostic text, severities, source locations, related sites, report sorting and weak-publication warnings.
- Where the address-order mark of a lock-order fact comes from (`ordersLowerAddressFirst`), and the merging of facts
  across units.
- The symbol classifier, the atomic-operation recognizer, lock-wrapper summaries, spawn and escape collection, thread
  completion proofs and correlated branches: their results are inputs.
- What functions leave running and start (`settleLeaks`, `settleInheritance`, `settleStarts`): only the flood, the
  handle summaries and a thread inherited on entry are followed to runs.
- The walk that builds parameter footprints; only the merging of their ranges is modelled.
- JoinedActivations.SummariesHold: a join counts as having waited where the analyzer reads it as successful; a status
  the program never reads is such a place, as it is in the source.
- LockOrderAnalyzer.Run: which choice of orders stands for a reported cycle is not pinned, nor, past the bound, which
  of the cycles are found whose lowest lock exceeds its share.
