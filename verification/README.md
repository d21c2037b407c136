# A verified model of the controller-testing toolkit

This project models the parts of the repository whose correctness everything else leans on, and
proves what they promise:

- **The model checker** (`modelcheck`): the chunked breadth-first exploration, its open-addressing
  index, trap detection by backward reachability, replay of traces, and the work-sharing loop.
  `Systems` says what a system under test is; `Search` is the exploration as a function;
  `GraphInvariant`, `Expansion`, `BreadthFirst`, `Marks`, `Coverage`, `Traps` and `BoundedTraps` say
  what that function's graph means, what a bound takes from it included; `KeyIndex`, `Explorer`,
  `Replay` and `ModelCheck` are the imperative engine, shown to compute it; `ParallelFor` is the shared
  loop as a step machine, which the explorer runs under an arbitrary scheduling.
- **The event script** (`ctrltest/script.go`): `Matching` and `OrderedFit` assign events to declared
  permissions and say how large the search for an assignment gets, `Declarations` says
  which declarations are accepted, what they mean and what they flatten to, `Interleaving` and `ScriptStep` say what a verdict means as interleavings of the
  declared leaves.
- **The garbage collector** (`ctrltest/gc.go`): `Cluster` and `Landings` are the API server, the
  other writers and the effects of writes, `Judgement` is what a sweep decides, `History` what the
  writes of a collector can and cannot do in any history of stores, `Foreground` when a foreground
  deletion ends, and `GarbageCollector` the collector itself, interrupted by others before every call
  it makes.
- **The workload simulators** (`deployment_sim.go`, `statefulset_sim.go`, `workload.go`, `datasim.go`,
  `podfault.go`): `Ordinals`, `PodOrder`, `PodStore`, `Deployments`, `StatefulSets`,
  `Retirements` and `Rollouts` (what a sweep creates and deletes, and in which order),
  `StatefulSetClaims`, `DataPlaneSim`, `PodStatus`, and `PodFaults`, what a fault does to a pod.
- **The streams and logs**: `FilteredWatch` (`fakeapi/watch.go`), `ReorderBuffer`
  (`ctrltest/events.go`), and `OpLog`, `Cursors` and `Passes` (`recorder.go`, `matchers.go`,
  `interceptor.go`).

Each imperative part is a class or method proved against a specification, and the promises are
lemmas about that specification.

## How the source's terms are modelled

- **States and identity.** A system's states are of an arbitrary type; a state is identified by its
  key in exact-key mode and by the 128-bit hash of its key otherwise. `Systems.IdentityDecides` is the
  one assumption: reachable states with equal identities behave alike. It holds of keys that tell the
  reachable states apart, and in hash mode when no two of them collide (`Systems.InjectiveKeysDecide`).
- **Bounds.** A configuration holds the bounds after their defaults are filled in. `x & mask` for a
  table length that is a power of two is written as a remainder. The panics at 2^31 nodes, 2^32
  edges and 65536 like-named moves from one state abort a search and are not reached here.
- **Other writers.** The collector's `World` is any function of the tick and the store that keeps
  the API server's laws: identities and versions are never reused, and a deletion begun is not taken
  back. Any call of the collector may fail.
- **Histories.** A collector carries the history of its run: every store it met and what led from
  each to the next, which is a read, something the others did, or a write of its own. A write names
  the positions of the reads and lookups it rests on; `History.Genuine` says that the store never
  changed in any other way and that every write is justified by what was met at those positions.
- **Time** is a number. Mutexes are atomic steps; between two of them anything else may happen.
- **Template hashes and revisions** are strings; equal templates have equal ones.

## Where the code and what is said about it part ways

- The retry of a delete under the UID alone can hit an object adopted after its confirming read
  (`History.RetryCanDeleteAdopted`). Exactly when it is right is `History.RetryIsRightUnlessAdopted`.
- Stripping goes by UID, so a reference to a living owner is dropped along with one that shares its
  UID but names something gone (`Judgement.StripCanDropLivingOwner`), and in no other case
  (`History.StripDropsLivingOnlyByUid`).
- Owners that hold each other in foreground deletion are held for good (`Foreground.HeldForGood`, as in
  `Judgement.ForegroundCycleWaits`); what any owner may still wait for is `Judgement.WaitingMeaning`, and
  below an owner without such a cycle the deletion ends (`Foreground.ForegroundFinishes`). Between the
  two there is no condition on the first store alone: a dependent with a second owner that is about to
  be collected is stripped or deleted according to which of the two the list shows first
  (`Foreground.ListOrderDecides`).
- A rolling update keeps all but one wanted pod ready from sweep to sweep, but a scale-down in the
  middle of a rollout can leave none ready until the pod status tick (`Deployments.ScaleDownCanDip`);
  exactly when it does not is `Deployments.ScaleDownAvailability`.
- A claim whose name pads the ordinal with zeros is taken for the claim wanted, which is then never
  made (`StatefulSetClaims.PaddedClaimIsTaken`); the exact condition is
  `StatefulSetClaims.ClaimsProvidedExactly`.
- A consumer that listed before the watch was opened can keep objects that left the selector before
  the seeding list, and exactly those (`FilteredWatch.OlderListKeepsMissed`,
  `FilteredWatch.MissedCanHappen`).
- An event accepted a whole reorder window after one with a higher version can come out after it, any
  sooner and it cannot, as long as stamping and queueing an event is one step and so is draining and
  checking. With delays between them the window is shorter by as much (`ReorderBuffer.WindowIsExact`).
- A status is not always a fixed point of its own computation: a readiness gate on a condition the
  kubelet itself sets settles a sweep late (`PodStatus.GateOnOwnConditionLags`). The exact condition
  is `PodStatus.StatusIsFixpoint`, and one sweep is all it takes (`PodStatus.LagsOnce`).
- The arrivals a script step has accepted need not be how an interleaving of the declaration starts: an
  ordering binds only leaves that both have an event (`ScriptStep.PartNeedNotStart`). What they are is
  `Interleaving.OrderedFitsIffPart`, and exactly when they are such a start is
  `ScriptStep.StartsIffNothingSkipped`. Whole fits and interleavings agree
  (`Interleaving.FitIffInterleaving`).
- A name about to be given to a new pod can be taken, also by a pod of the Deployment's own that is named
  for the current revision but marked with another; exactly when is `Deployments.NewNamesAreNew`. The
  creation then fails, and if all of them do the Deployment is short for good
  (`Deployments.ScaleUpStalls`, `Deployments.StalledForGood`, `Deployments.MislabelledPodStalls`).
  Convergence is therefore claimed of stores in which no pod is marked otherwise than it is named.

## Model

| member | source | states |
|---|---|---|
| `Index.KeyIndex.Lookup` | modelcheck/index.go:51-66 | finds node i if and only if i was inserted under that identity, in exact-key and hash mode |
| `Index.KeyIndex.Probe` | modelcheck/index.go:58-65 | linear probing ends and finds exactly the nodes with that hash, because load stays at most one half |
| `Index.KeyIndex.Insert` | modelcheck/index.go:68-78 | after any insert, with or without growing, the index holds exactly one more node |
| `Index.KeyIndex.InsertHashed` | modelcheck/index.go:73-77 | doubling keeps the load at most one half, so an empty slot always remains |
| `Index.KeyIndex.Place` | modelcheck/index.go:80-86 | the slot written ends every probe chain it is on; all other nodes are still found |
| `Index.KeyIndex.Grow` | modelcheck/index.go:88-95 | re-placing every node in a table twice the size loses and duplicates none |
| `Index.EmptySlotExists` | modelcheck/index.go:58-65 | a table loaded at most half has an empty slot, by counting |
| `Index.PlaceKeepsTableOk` | modelcheck/index.go:80-86 | filling the first free slot of a chain keeps every node reachable from its home |
| `Explore.Explorer.constructor` | modelcheck/explore.go:72-84 | a new explorer is the empty graph |
| `Explore.Explorer.AddNode` | modelcheck/explore.go:306-316 | all columns grow together and the index learns the node |
| `Explore.Explorer.Intern` | modelcheck/explore.go:293-304 | equal labels get equal numbers, new ones the next |
| `Explore.Explorer.NumberSucc` | modelcheck/explore.go:253-276 | finds or adds the label of a successor, counts it, and numbers the move by how many before it carry the same label |
| `Explore.Explorer.Link` | modelcheck/explore.go:278-289 | a successor becomes an edge to the node of its identity, a new node, or a mark on a refused one |
| `Explore.Explorer.Merge` | modelcheck/explore.go:253-291 | merging a node's successors yields the graph of the sequential search |
| `Explore.Explorer.ExpandState` | modelcheck/explore.go:230-247 | yields the successors of a state actor by actor in move order |
| `Explore.Explorer.Evaluate` | modelcheck/explore.go:322-356 | goal columns and first violations are those of all states found so far |
| `Explore.Explorer.ExpandAll` | modelcheck/explore.go:212-216 | expanded inline or by workers sharing the loop under any scheduling, every slot holds the expansion of its own state |
| `Explore.Explorer.ExpandChunk` | modelcheck/explore.go:212-226 | expanding a chunk and merging it in order equals expanding its nodes one by one |
| `Explore.Explorer.AddRootNode` | modelcheck/explore.go:167-180 | a new initial state becomes a root, a known one nothing, one over the limit truncates |
| `Explore.Explorer.AddInitialStates` | modelcheck/explore.go:164-182 | the roots are the initial states, each identity once |
| `Explore.Explorer.CutLevel` | modelcheck/explore.go:187-195 | at the depth bound exactly the waiting nodes are marked unknown, besides those marked already, and get empty rows |
| `Explore.Explorer.ExpandLevel` | modelcheck/explore.go:196-205 | a level expanded in chunks of any size is the level expanded node by node |
| `Explore.Explorer.Run` | modelcheck/explore.go:164-208 | for every worker count, scheduling and chunk size the engine computes exactly the sequential exploration; a node is marked exactly if it lies at the depth bound or a successor was refused, its row holds what was not, and nodes are numbered in the order they are met |
| `Explore.ExpandNodesSplit` | modelcheck/explore.go:196-203 | chunk boundaries do not matter |
| `Expansion.OrdinalIsOccurrence` | modelcheck/explore.go:264-275 | the ordinal counted by the merge is the occurrence among the actor's like-named moves |
| `Expansion.SuccYields` | modelcheck/explore.go:253-291 | label and ordinal recorded for a successor identify it among the moves |
| `Expansion.SuccIffStep` | modelcheck/explore.go:230-247 | the successors of a state are exactly the states one step away |
| `Expansion.ExpandIsOffers` | modelcheck/explore.go:230-247 | the successors of a state are all its moves, each once, actor by actor and each actor's in its own order, with the identity each leads to |
| `Systems.IdentityMeaning` | modelcheck/index.go:51-66 | states are told apart by their keys in exact-key mode and by their keys' hashes otherwise |
| `GraphInvariant.MergeOneKeeps` | modelcheck/explore.go:253-291 | merging one successor keeps the whole graph invariant: identities distinct, rows and marks right |
| `BreadthFirst.ExplorationFinishes` | modelcheck/explore.go:164-208 | every exploration, bounded or not, ends in a graph right about nodes, depths, rows and truncation |
| `BreadthFirst.ShortestTraces` | modelcheck/explore.go:253-291 | each parent chain is a shortest run whatever bound cut the search, and depths never fall along the indices |
| `BreadthFirst.NodesAreTheReachableStates` | modelcheck/explore.go:49-61 | without truncation the nodes are exactly the reachable identities, once each |
| `BreadthFirst.RowsListSuccessors` | modelcheck/explore.go:284-289 | an unmarked node's row lists exactly its successors in yield order |
| `Marks.MarksAreExact` | modelcheck/explore.go:184-193 | a node is marked unknown if and only if it lies at the depth bound or a state one step away from it is not held, and above the bound that happens only in a full graph |
| `Marks.TruncatedIffLost` | modelcheck/explore.go:174-177 | a search is truncated if and only if an initial state is missing or some node is marked, and never holds more states than allowed |
| `Marks.RowsListHeldSuccessors` | modelcheck/explore.go:278-290 | the row of a node at the depth bound is empty and that of any other, marked or not, lists exactly its successors that are held, in yield order |
| `Marks.NumbersInOrderMet` | modelcheck/explore.go:164-182 | roots are the first initial states of each identity held, in order, and every other node is numbered by the edge that first leads to it |
| `Marks.NodesAreTheStatesWithin` | modelcheck/explore.go:164-208 | while there is room the search holds exactly the identities that runs within the depth bound reach |
| `Coverage.CoverageIsExact` | modelcheck/explore.go:144-146 | whatever was refused and whichever bound cut the search, any choice of labels is counted once for every move under them of every node within the depth bound, and for no other |
| `Coverage.CoverageIsTally` | modelcheck/explore.go:92-95 | the counts added up by actor and verb hold exactly the keys counted at all, each with the total of its labels |
| `Coverage.KeyMeaning` | modelcheck/explore.go:476-479 | a key names the actor and what stands before the first space of the move |
| `Coverage.ReportCoverage` | modelcheck/explore.go:92-95 | adds the label counts up by key |
| `Traps.CountSources` | modelcheck/explore.go:400-407 | counts, two slots up, the allowed edges into every node |
| `Traps.SumSources` | modelcheck/explore.go:408-410 | prefix sums give each node a slot for every allowed edge into it |
| `Traps.FillSources` | modelcheck/explore.go:411-420 | the filled table lists, per node, the sources of its allowed edges, and the offsets end where the next begin |
| `Traps.MarkEscapes` | modelcheck/explore.go:422-437 | the backward search marks exactly the nodes with an allowed walk to a target |
| `Traps.FindTrap` | modelcheck/explore.go:385-457 | returns the first node from which no allowed walk reaches a goal or unknown node, if there is one |
| `Traps.TrapsAreReal` | modelcheck/explore.go:382-384 | a reported trap can reach the goal by no allowed run of any length in the whole system, despite every bound |
| `Traps.TrapsAreFound` | modelcheck/explore.go:439-455 | without truncation a trap is reported if and only if some reachable state cannot recover, and none is nearer |
| `BoundedTraps.AllowedActorsAre` | modelcheck/explore.go:360-380 | a property speaks of the actors it names, or of all if it names none |
| `BoundedTraps.MarkedIffGivenUp` | modelcheck/explore.go:184-193 | a node is marked exactly when no run shorter than the depth bound reaches its state, or a state one step away was refused |
| `BoundedTraps.StuckIffConfined` | modelcheck/explore.go:382-457 | a node cannot escape in the graph if and only if every allowed run of the whole system from its state keeps off the goal and off states whose future was given up |
| `BoundedTraps.FindsFirstConfined` | modelcheck/explore.go:382-457 | under every bound, truncated or not, the trap search finds exactly the first node whose state is so confined, and none if there is none |
| `Replay.TraceIsGenuine` | modelcheck/replay.go:153-168 | a node's trace is a run from an initial state, one step longer than the node is deep |
| `Replay.Replayer.Step` | modelcheck/replay.go:125-148 | the recorded occurrence of the recorded move leads to the explored state; the mismatch panic is unreachable |
| `Replay.Replayer.Missing` | modelcheck/replay.go:48-60 | collects the ancestors not yet rebuilt, down to one that is |
| `Replay.Replayer.State` | modelcheck/replay.go:48-76 | rebuilds exactly the state explored at the node |
| `Replay.Replayer.Trace` | modelcheck/replay.go:153-168 | returns the node's trace, never failing |
| `ModelCheck.InvariantReportMeaning` | modelcheck/explore.go:98-112 | a violation in the report is a genuine run into a violating state and no shorter run ends in one |
| `ModelCheck.ReportedExactly` | modelcheck/explore.go:97-126 | an invariant is reported if and only if some explored state breaks it, a recoverable property if and only if some explored state is confined away from its goal; invariants first, each kind in order, none twice |
| `ModelCheck.ReportedWithoutTruncation` | modelcheck/explore.go:97-126 | without truncation an invariant is reported if and only if some reachable state breaks it, and a recoverable property if and only if some reachable state cannot recover |
| `ModelCheck.ExitsAreMoves` | modelcheck/explore.go:448-454 | a trap's exits are all moves of the system from its state, in order, each with the identity it leads to |
| `ModelCheck.TrapReportMeaning` | modelcheck/explore.go:114-124 | a trap in the report is a genuine run to a state that cannot recover; no explored state confined away from the goal is nearer, and without truncation no state at all that cannot recover |
| `ModelCheck.CoverageReportMeaning` | modelcheck/explore.go:86-95 | a key is reported if and only if some expanded node yields a move under it, with the number of such moves |
| `ModelCheck.FirstTrapIs` | modelcheck/explore.go:443-455 | there is only one first trap |
| `ModelCheck.ReportInvariants` | modelcheck/explore.go:99-112 | the replay never fails, and the report is the one `ModelCheck.ReportedExactly` speaks of: in the order of the invariants and each once, those with a violating node, with the first such node's trace |
| `ModelCheck.ReportTrap` | modelcheck/explore.go:114-124 | the replay never fails, and the report is the one `ModelCheck.ReportedExactly` and `ModelCheck.ExitsAreMoves` speak of: the first trap of the property with its trace and its exits in yield order, and nothing if there is none |
| `ModelCheck.ExploreSystem` | modelcheck/explore.go:61-126 | the result is one report, a function of system and bounds for any workers, scheduling and chunk size; it reports exactly the invariants some explored state breaks and the recoverable properties some explored state is confined away from, in order |
| `ParallelFor.Loop.NeverTwice` | modelcheck/index.go:135-191 | under every schedule no item is run twice |
| `ParallelFor.Loop.OutcomeIsSequential` | modelcheck/index.go:135-191 | when all workers have left, the recorded failure is the lowest-numbered failing item, all items up to it ran once, and those before it left their results in their slots |
| `ParallelFor.Loop.NoDeadlock` | modelcheck/index.go:150-185 | some worker can always step until all have left |
| `ParallelFor.Loop.SchedulesEnd` | modelcheck/index.go:150-185 | in no schedule, however long, do the workers step more than 6(n + workers) times |
| `ParallelFor.Loop.StepShrinks` | modelcheck/index.go:150-185 | every step uses up some of a bounded amount of work |
| `ParallelFor.Fork` | modelcheck/index.go:135-191 | run to its end under any scheduling, the loop fails at the lowest-numbered failing item or leaves every item's result in its slot |
| `ParallelFor.Loop.RunInv` | modelcheck/index.go:150-185 | every step keeps claims apart, publishes only real failures and loses none |
| `Matching.Augment` | ctrltest/script.go:700-712 | success gives the event a leaf and keeps the others served; failure leaves the assignment as it was and the visited leaves closed |
| `Matching.DeadEndMeansNoFit` | ctrltest/script.go:696-712 | the leaves visited by a failed search violate Hall's condition, so no assignment of all events exists |
| `Matching.AssignEvent` | ctrltest/script.go:688-694 | one more event is served or no assignment of all events exists |
| `Matching.MatchAll` | ctrltest/script.go:683-698 | returns an assignment of all events to distinct matching leaves if and only if there is one |
| `OrderedFit.CheckOrder` | ctrltest/script.go:753-761 | an assignment breaks no ordering if and only if no pair with both sides assigned is inverted |
| `OrderedFit.SearchIsComplete` | ctrltest/script.go:717-742 | without a budget the search finds a completion if and only if there is one |
| `OrderedFit.SearchIsBounded` | ctrltest/script.go:721-742 | the search tries no more leaves than a tree that depends on the numbers of leaves and events alone |
| `OrderedFit.WholeSearchIsExact` | ctrltest/script.go:714-751 | the whole search succeeds if and only if some assignment breaks no ordering, and below the budget in tree size it is never over budget |
| `OrderedFit.Fit` | ctrltest/script.go:721-742 | finds a completion if and only if the unbudgeted search does within the budget, and pays exactly what that costs or all there is |
| `OrderedFit.SearchOrderedFit` | ctrltest/script.go:717-751 | undecided if and only if the search is larger than the budget; decided, it succeeds if and only if some assignment breaks no ordering |
| `OrderedFit.AssignEvents` | ctrltest/script.go:664-673 | decided, it succeeds if and only if some assignment breaks no ordering; undecided only where an ordering rules out an assignment and the search is larger than the budget |
| `OrderedFit.OrderViolated` | ctrltest/script.go:786-805 | whenever events fit only without orderings, some declared pair is inverted and one is named |
| `Declarations.OrderIsWrittenOrder` | ctrltest/script.go:587-614 | a declaration orders every two of its leaves as written and no others |
| `Declarations.Walk` | ctrltest/script.go:590-608 | the recursive walk appends exactly the leaves and pairs of the declaration |
| `Declarations.FlattenAllows` | ctrltest/script.go:587-614 | flattening yields the leaves and orderings of all top-level permissions |
| `Declarations.ValidAllowIff` | ctrltest/script.go:558-582 | one declaration is refused exactly if an unset part occurs in it at some depth, silence occurs inside an ordering at some depth, or a change it permits lacks a kind or a name |
| `Declarations.RefusedIffIllFormed` | ctrltest/script.go:540-582 | a step is refused exactly if its declaration is empty, has silence beside something else or inside an ordering, an unset part at any depth, or a change without kind or name |
| `Declarations.ComposedIsWellFormed` | ctrltest/script.go:497-506 | orderings written with Before between named changes are never refused |
| `Declarations.MeansItsLeaves` | ctrltest/script.go:584-614 | the leaves a declaration flattens to, taken in turn, are what it means: the events of each part, one part after the other |
| `Matching.NamingPathsNarrows` | ctrltest/script.go:523-536 | one permission covers another exactly when both name the same object, the first asks for no other type, and the second names every path the first does |
| `Interleaving.FlatOrder` | ctrltest/script.go:587-614 | a pair is ordered if and only if both leaves belong to one top-level permission, in written order |
| `Interleaving.FitIffPartInterleaves` | ctrltest/script.go:246-312 | an assignment that breaks no ordering and uses certain leaves exists if and only if the events are an interleaving of the permissions with all other leaves left out |
| `Interleaving.OrderedFitsIffPart` | ctrltest/script.go:664-673 | some assignment breaks no ordering if and only if the events are an interleaving of some of the leaves |
| `Interleaving.FitIffInterleaving` | ctrltest/script.go:246-312 | a full fit exists if and only if the events are an interleaving of the declared sequences |
| `Interleaving.OneInterleaves` | ctrltest/script.go:497-506 | the interleavings of a single permission are exactly the event sequences it means |
| `ScriptStep.PrefixFits` | ctrltest/script.go:262-300 | what fits as a whole fits at every prefix |
| `ScriptStep.StartsIffNothingSkipped` | ctrltest/script.go:753-761 | accepted arrivals can be completed to an interleaving of the declaration if and only if they interleave leaves of which none is skipped before another of its permission |
| `ScriptStep.PartNeedNotStart` | ctrltest/script.go:753-761 | after Before(a, b) the event of b alone breaks no ordering, although no interleaving starts with it |
| `ScriptStep.TryStep` | ctrltest/script.go:246-312 | it answers Malformed if and only if the declaration is ill-formed, and every outcome of the event-by-event loop means what it says of all arrivals and of interleavings of the declaration's leaves |
| `ScriptStep.GoodArrivalsPass` | ctrltest/script.go:246-312 | an interleaving of a declaration that is not ill-formed, whose events pass the invariants, passes, unless the search of one of its prefixes is larger than the budget |
| `ScriptStep.SmallStepsPass` | ctrltest/script.go:246-312 | with a declaration that is not ill-formed, a search tree below the budget and events that pass the invariants, a step passes if and only if its arrivals are an interleaving of the declaration |
| `ScriptStep.OrderingsPass` | ctrltest/script.go:246-312 | orderings written with Before between named changes pass their interleavings, unless the search of a prefix is larger than the budget |
| `ScriptStep.OnePermissionPasses` | ctrltest/script.go:246-312 | a single permission passes only the events it means, and those unless the search is too large |
| `Cluster.SameVersionSameObject` | ctrltest/gc.go:327-339 | an object met again at a version handed out before is untouched |
| `Cluster.OwnerStaysGone` | ctrltest/gc.go:271-305 | an owner found gone stays gone, whatever others do |
| `History.GenuineThen` | ctrltest/gc.go:49-103 | a history stays genuine if the next event is a read, something the others do, or a write with exactly its effect that earlier reads justify and, where an owner's finalizer is at stake, an earlier list |
| `History.LookupStands` | ctrltest/gc.go:277-298 | an owner not solid when looked up is gone when a write that rests on the lookup lands |
| `History.DeletedForOwnersThatLetGo` | ctrltest/gc.go:271-305 | in any history a delete lands only for an object read live, each of whose owners was looked up after that read and was then absent, replaced, or being deleted in the foreground |
| `History.StrippedForOwnersThatLetGo` | ctrltest/gc.go:277-301 | in any history a strip lands on the object as read, some owner of which had not let it go at its lookup, and drops exactly the references whose UID an owner carries that had |
| `History.LockedDeleteIsSafe` | ctrltest/gc.go:339-345 | in every genuine history the locked delete meets an object with owners, all of them gone at that moment |
| `History.OnlyTheAbandonedAreDeleted` | ctrltest/gc.go:339-351 | no write of the collector's deletes or marks an object that has a living owner or none, but for a retry that meets one adopted or freed since its confirming read |
| `History.RetryIsRightUnlessAdopted` | ctrltest/gc.go:339-351 | the retry deletes the incarnation judged, which at the confirming read still had exactly the judged owners, all gone; the delete is right if and only if the object still has an owner and nobody gave it a living one since that read |
| `History.RetryCanDeleteAdopted` | ctrltest/gc.go:346-351 | a genuine history in a lawful world that ends with the retry deleting a pod adopted since the confirming read |
| `History.StripDropsLivingOnlyByUid` | ctrltest/gc.go:359-377 | a strip drops a reference whose owner is not gone if and only if another reference of the object has the same UID and was not solid when looked up |
| `History.StripDropsOnlyTheGone` | ctrltest/gc.go:359-377 | where equal UIDs mean equal references, a strip drops only references whose owner is gone |
| `History.OrphanStripDropsOnlyTheGone` | ctrltest/gc.go:194-212 | a strip for an orphaning owner drops only references whose owner is gone or of an unknown kind |
| `Judgement.StripCanDropLivingOwner` | ctrltest/gc.go:359-377 | a concrete object from which collecting takes the reference to a living owner |
| `Landings.DeleteAdvances` | ctrltest/gc.go:271-305 | a delete leaves less work and spares a dependent being orphaned |
| `Landings.StripAdvances` | ctrltest/gc.go:359-377 | a strip leaves less work and never harms a dependent being orphaned |
| `Landings.UnfinalizeAdvances` | ctrltest/gc.go:230-248 | taking a finalizer off leaves less work; only the orphan finalizer needs its dependents freed first |
| `Judgement.ReferencesUid` | ctrltest/gc.go:380-387 | true if and only if some reference carries the UID |
| `Judgement.CollectedChanges` | ctrltest/gc.go:271-305 | with no other writers, collecting a candidate changes the store if and only if there is something to delete or to strip |
| `Judgement.LetsGoIsNotSolid` | ctrltest/gc.go:416-471 | an owner of a known kind is not solid exactly when it is absent, replaced under its name, or being deleted with the foreground finalizer |
| `Judgement.CollectedIsOutcome` | ctrltest/gc.go:268-305 | collecting deletes an object exactly if every owner is in one of those states, and otherwise keeps exactly the references whose UID no such owner carries; an owner of an unknown kind leaves all as it is |
| `Judgement.RestMeaning` | ctrltest/gc.go:67-101 | a store is at rest exactly when no watched object has only vanished owners, but for those held by finalizers of their own, and every owner under deletion waits for dependents nothing can be done about or orphans none |
| `Landings.KeepInOrder` | ctrltest/gc.go:359-377 | dropping references leaves the order of the others as it is |
| `History.JudgedNext` | ctrltest/gc.go:277-298 | one more owner looked up extends the judgement, which tells solid owners from the others at the moments of their lookups |
| `Judgement.WaitingMeaning` | ctrltest/gc.go:130-171 | what a foreground deletion still waits for at rest: dependents held by their own finalizers or naming an unknown kind |
| `Judgement.ForegroundCycleWaits` | ctrltest/gc.go:154-171 | two owners of each other under foreground deletion are at rest |
| `Foreground.HeldForGood` | ctrltest/gc.go:154-171 | in any history without other writers, objects in foreground deletion each with a dependent among them and owned by none but them are never changed |
| `Foreground.CycleHoldsItself` | ctrltest/gc.go:154-171 | two owners of each other are such objects |
| `Foreground.ListOrderDecides` | ctrltest/gc.go:154-171 | from one store, collecting two dependents in one order frees the owner being deleted, in the other it waits at rest |
| `Foreground.QuietShrinks` | ctrltest/gc.go:49-103 | left alone, the collector only ever takes objects, owner references and finalizers away |
| `Foreground.ForegroundFinishes` | ctrltest/gc.go:130-171 | left alone and come to rest, an owner below which ownership has no cycle, all owners are of known kinds and all finalizers the collector's is no longer held by its foreground finalizer |
| `GarbageCollector.Collector.Interleave` | ctrltest/gc.go:49-103 | between any two calls the others do to the store whatever they like within the server's laws |
| `GarbageCollector.Collector.Get` | ctrltest/gc.go:312-326 | a live read, after whatever others did, noted in the history |
| `GarbageCollector.Collector.Land` | ctrltest/gc.go:339-377 | a write changes the store by exactly its effect and needs a justification in the history |
| `GarbageCollector.Collector.ResolveOwner` | ctrltest/gc.go:416-471 | a fresh lookup is right at the moment it is made: the owner counts unless it is absent, replaced or being deleted in the foreground; a cached one as long as nobody writes; unknown kinds and failures decide nothing |
| `GarbageCollector.Collector.Judge` | ctrltest/gc.go:277-298 | whether some owner had not let the object go at its own lookup, and the UIDs of those that had; an owner that cannot be looked up ends the attempt |
| `GarbageCollector.Collector.DeleteLocked` | ctrltest/gc.go:339-345 | under any interleaving the answer and the store are exactly what the API server makes of a delete under UID and version |
| `GarbageCollector.Collector.DeleteConfirmed` | ctrltest/gc.go:346-351 | under any interleaving the retry deletes exactly if the call succeeds and the incarnation is still there |
| `GarbageCollector.Collector.DeleteLive` | ctrltest/gc.go:339-351 | at most one delete, justified by the judgement and, for the retry, by the confirming read; an object merely written to in between is still deleted; alone, exactly the server's answer to a delete |
| `GarbageCollector.Collector.StripOwnerRefs` | ctrltest/gc.go:359-377 | under any interleaving a strip writes exactly if the object is still as it was read, leaving exactly the references with other UIDs |
| `GarbageCollector.Collector.RemoveFinalizer` | ctrltest/gc.go:230-248 | at most one write, taking this finalizer off this incarnation as it was read, once a list shows that it has nothing left to wait for; it stays on only if a call failed or five attempts met conflicts; alone, exactly that |
| `GarbageCollector.Collector.Collect` | ctrltest/gc.go:271-305 | under any interleaving at most one write, to this object and justified by lookups made since its live read; alone, the object is deleted exactly if every owner is absent, replaced or being deleted in the foreground, and else keeps exactly the references of the others |
| `GarbageCollector.Collector.Disown` | ctrltest/gc.go:194-212 | done means the dependent is gone or does not name the owner now; at most one write, the strip |
| `GarbageCollector.Collector.OrphanDependents` | ctrltest/gc.go:188-217 | writes only strips of listed dependents and the release of this owner, the latter only after every dependent listed was once gone or free of the owner since the start; alone, it always makes progress |
| `GarbageCollector.Collector.ForegroundDeleteDependents` | ctrltest/gc.go:154-171 | collects listed dependents, or releases this owner if the list shows none; alone, it changes nothing if and only if dependents remain and none can be collected |
| `GarbageCollector.Collector.FinalizerPass` | ctrltest/gc.go:73-83 | alone, it changes nothing if and only if no listed owner's finalizer has work left |
| `GarbageCollector.Collector.OwnerDangling` | ctrltest/gc.go:395-409 | alone and with a right cache, true if and only if the reference is dangling |
| `GarbageCollector.Collector.Reap` | ctrltest/gc.go:85-102 | one listed object: collected if its owners all seem to dangle; alone, it changes nothing if and only if that is not so or nothing is left to delete |
| `GarbageCollector.Collector.BackgroundPass` | ctrltest/gc.go:85-102 | alone, it changes nothing if and only if no listed object has only dangling owners |
| `GarbageCollector.Collector.SweepGC` | ctrltest/gc.go:67-103 | a sweep over a list of any age keeps the history genuine, writes only to watched objects and keeps every orphaned dependent alive |
| `GarbageCollector.Collector.ListWatched` | ctrltest/gc.go:109-130 | the list shows exactly what each kind held at a moment of its own since the call |
| `GarbageCollector.Collector.TickGC` | ctrltest/gc.go:49-59 | alone, a tick changes nothing if and only if the store is at rest, and otherwise leaves less work |
| `GarbageCollector.Collector.Run` | ctrltest/gc.go:49-103 | over any run the store changes only by the others and by justified writes to watched objects, and a dependent being orphaned is never deleted; alone, rest comes within as many ticks as there is work, unwinding foreground deletions are finished, and those that hold each other when the collector starts never are |
| `Ordinals.NextOrdinals` | ctrltest/workload.go:117-125 | the n smallest unused numbers in ascending order |
| `Ordinals.SmallestFreeIsUnique` | ctrltest/workload.go:110-125 | there is only one such choice |
| `Ordinals.SmallestFreeHas` | ctrltest/workload.go:110-125 | a number is chosen if and only if it is unused and fewer than n unused numbers are smaller |
| `Ordinals.NameRoundTrip` | ctrltest/workload.go:131-141 | a prefix and an ordinal made into a name read back as that ordinal |
| `Ordinals.SuffixOrdinal` | ctrltest/workload.go:131-141 | any dash-terminated prefix reads off a name ending in a numeral that numeral or nothing |
| `Ordinals.NamesReadAs` | ctrltest/workload.go:131-141 | a name reads as an ordinal exactly if it is the prefix, a sign or none, any zeros and the numeral |
| `PodOrder.DeletionPrioritySorts` | ctrltest/workload.go:149-162 | sorting permutes and puts every pod before those less deletable |
| `Retirements.DeletionPriorityMeaning` | ctrltest/workload.go:143-162 | pods at old revisions come before current ones, unready before ready ones, and higher names before lower ones |
| `Deployments.StepIsDeterministic` | ctrltest/deployment_sim.go:47-101 | a step has one possible outcome, names and victims included |
| `Retirements.SweepDeletesInOrder` | ctrltest/deployment_sim.go:70-103 | of the stores before and after a sweep: too many pods lose exactly the excess in that order, too few none, and the wanted number only old ones, all at once to recreate them or one at a time while all are ready |
| `Retirements.SweepCreatesLowest` | ctrltest/deployment_sim.go:112-148 | every new pod is named for the current revision and the lowest ordinals no pod of it bears |
| `Deployments.SweepShowsHealth` | ctrltest/datasim.go:184-209 | after a sweep new pods are not ready, pods being deleted are as they were, and all others show their health |
| `Deployments.NewNamesAre` | ctrltest/deployment_sim.go:112-148 | a name is about to be given out if and only if it is made of an unused ordinal with fewer than n unused ones below it |
| `Deployments.NewNamesAreNew` | ctrltest/deployment_sim.go:112-148 | an owned pod takes a name about to be given out if and only if it is named for such an ordinal of the current revision, and then it is marked with another; a pod named by the Deployment never does |
| `Deployments.ScaleUpStalls` | ctrltest/deployment_sim.go:78-79 | with too few active pods a step changes nothing if and only if every name about to be given out is taken |
| `Deployments.StalledForGood` | ctrltest/deployment_sim.go:78-79 | from such a store sweeps alone never make or delete a pod again, whatever the pods' health, and never converge |
| `Deployments.MislabelledPodStalls` | ctrltest/deployment_sim.go:112-148 | one pod named for the current revision and marked with another keeps a Deployment one pod short in every later sweep |
| `Deployments.NewNamesAreFree` | ctrltest/deployment_sim.go:119-131 | a created name is no pod's of the current revision, whatever other pods are called |
| `Deployments.StepKeepsAvailable` | ctrltest/deployment_sim.go:80-101 | whatever the pods' health, a rolling update retires one pod only when all are ready |
| `Deployments.SweepKeepsAvailable` | ctrltest/deployment_sim.go:80-101 | once all wanted pods are ready, never fewer than one short of that are ready after a sweep |
| `Deployments.ScaleDownAvailability` | ctrltest/deployment_sim.go:69-75 | after a scale-down all but one wanted pod are ready if and only if the unready pods counted before it, old ones first, say so |
| `Deployments.ScaleDownCanDip` | ctrltest/deployment_sim.go:69-75 | a scale-down in the middle of a rollout of properly named pods that leaves none ready until the tick |
| `Deployments.StepScalesDown` | ctrltest/deployment_sim.go:67-101 | after a step no more pods are active than wanted |
| `Deployments.SweepConverges` | ctrltest/deployment_sim.go:47-101 | undisturbed and with no pod marked otherwise than it is named, every sweep comes closer until exactly the wanted pods are current and ready, and that is a fixpoint |
| `DataPlaneSim.Simulator.CreatePod` | ctrltest/datasim.go:174-182 | a taken name makes the creation fail; a created pod is noted as born |
| `DataPlaneSim.Simulator.CreateDeploymentPods` | ctrltest/deployment_sim.go:112-148 | creates pods at the smallest free ordinals of the current revision |
| `DataPlaneSim.Simulator.RetireOldPods` | ctrltest/deployment_sim.go:80-101 | Recreate deletes all old pods, RollingUpdate the most deletable one if all are ready |
| `DataPlaneSim.Simulator.ReconcileDeploymentPods` | ctrltest/deployment_sim.go:47-101 | performs exactly one step |
| `DataPlaneSim.Simulator.TickPods` | ctrltest/datasim.go:184-209 | every pod not terminating and not born in this sweep shows its health |
| `DataPlaneSim.Simulator.UpdateDeploymentStatus` | ctrltest/deployment_sim.go:174-256 | the counts and conditions of the Deployment's active pods |
| `DataPlaneSim.StatusTellsConvergence` | ctrltest/deployment_sim.go:203-240 | the status reports a complete rollout of the wanted pods if and only if the store has converged |
| `DataPlaneSim.StatusCounts` | ctrltest/deployment_sim.go:174-239 | the numbers reported are those of the Deployment's pods that are not being deleted, and it is available if no more are missing than tolerated |
| `DataPlaneSim.ToleratedMeaning` | ctrltest/deployment_sim.go:206-219 | a percentage tolerates the largest number of missing pods not above it, a number itself; recreating and a malformed percentage tolerate none |
| `DataPlaneSim.Simulator.Sweep` | ctrltest/datasim.go:152-170 | step, tick, then status, which says complete exactly when nothing is left to do; what is deleted, created and shown is as `Retirements` and `PodStore` say of the stores before and after |
| `DataPlaneSim.Simulator.Run` | ctrltest/datasim.go:122-170 | undisturbed, converges within three sweeps an old pod and two more; availability, once reached, lasts; stalled, it never converges |
| `StatefulSets.CreatesInOrder` | ctrltest/statefulset_sim.go:134-160 | OrderedReady creates ordinal k only when all before it exist, are ready and not terminating |
| `StatefulSets.KeepsBelowPartition` | ctrltest/statefulset_sim.go:168-200 | no step deletes a wanted pod below the partition, nor under OnDelete any wanted pod |
| `StatefulSets.StepDeletes` | ctrltest/statefulset_sim.go:82-200 | a step deletes only unwanted pods, or a stale one when all are ready |
| `Rollouts.SweepRollsInOrder` | ctrltest/statefulset_sim.go:94-200 | a wanted pod goes in a sweep only alone, at or above the partition and not at the update revision, with every wanted ordinal ready and every higher one at that revision; an unwanted one, unless in parallel, only alone and from the top |
| `Rollouts.StepActsAtOnce` | ctrltest/statefulset_sim.go:100-161 | in parallel all that is too much goes in one sweep, and, when nothing is, all that is missing comes in one |
| `Rollouts.SweepRollsDown` | ctrltest/statefulset_sim.go:163-200 | once all pods from an ordinal on are updated and none below, a sweep leaves it so or takes it down by one |
| `StatefulSets.SweepConverges` | ctrltest/statefulset_sim.go:82-200 | undisturbed, every sweep comes closer until exactly the wanted ordinals are ready and updated from the partition on |
| `DataPlaneSim.Simulator.StatefulSetPodOrdinals` | ctrltest/statefulset_sim.go:58-72 | one pod for every ordinal that a pod of the set has |
| `DataPlaneSim.Simulator.ScaleDownStatefulSet` | ctrltest/statefulset_sim.go:104-127 | deletes the highest unwanted active pod, or all of them in parallel |
| `DataPlaneSim.Simulator.CreateStatefulSetPods` | ctrltest/statefulset_sim.go:134-160 | creates the lowest missing pod or waits for it, or fills all in parallel |
| `DataPlaneSim.Simulator.RollStatefulSetPod` | ctrltest/statefulset_sim.go:168-200 | deletes, once all are ready, the one pod at or above the partition that is not at the update revision while all higher ones are |
| `DataPlaneSim.Simulator.ReconcileStatefulSetPods` | ctrltest/statefulset_sim.go:82-98 | performs exactly one step |
| `DataPlaneSim.Simulator.ReconcileStatefulSetClaims` | ctrltest/statefulset_sim.go:281-343 | provides and retires the claims of every template on one list |
| `DataPlaneSim.Simulator.SweepStatefulSet` | ctrltest/statefulset_sim.go:30-54 | claims, then pods, then pod status; pods go and come in the order of `Rollouts` |
| `DataPlaneSim.Simulator.RunStatefulSet` | ctrltest/statefulset_sim.go:30-200 | over any run pods below the partition stay, pods keep their claims, and a rollout comes down from the highest ordinal without ever going back; healthy and alone, the set converges in a bounded number of sweeps |
| `StatefulSetClaims.ClaimsInUseAreKept` | ctrltest/statefulset_sim.go:325-342 | no sweep touches a claim that ends in the ordinal of an existing or wanted pod |
| `StatefulSetClaims.ClaimsProvidedExactly` | ctrltest/statefulset_sim.go:292-324 | a wanted claim is there after a sweep if and only if it was before or no listed claim reads as it |
| `StatefulSetClaims.PaddedClaimIsTaken` | ctrltest/statefulset_sim.go:292-324 | a claim padded with a zero keeps the wanted one from being made |
| `StatefulSetClaims.OnlySuperfluousClaimsGo` | ctrltest/statefulset_sim.go:325-342 | a claim is touched only to delete it, and only if claims scaled away are to go, it reads as one of a template at an ordinal not wanted, and no pod is left there |
| `StatefulSetClaims.SuperfluousClaimsGo` | ctrltest/statefulset_sim.go:325-342 | where claims scaled away are to go, one goes for each such ordinal of each template that has any |
| `StatefulSetClaims.ScaledAwayExactly` | ctrltest/statefulset_sim.go:325-342 | where every name reads as at most its own claim, a claim at an ordinal scaled away goes exactly if such claims are to go and no pod is left there |
| `StatefulSetClaims.NewClaimsAreWanted` | ctrltest/statefulset_sim.go:281-324 | a claim that was not there is that of a wanted ordinal of a template, and goes with the set if the set says so |
| `StatefulSetClaims.PodsKeepTheirClaims` | ctrltest/statefulset_sim.go:281-343 | if only the set's claims read as such, every pod has all its claims after every sweep |
| `PodStatus.CrashLoopBackoff` | ctrltest/podfault.go:168-174 | equals min(10 * 2^(restarts-1), 300) seconds |
| `PodFaults.BackoffDoubles` | ctrltest/podfault.go:168-174 | the first two waits are ten seconds, each further one twice as long, up to five minutes |
| `PodStatus.PodSim.PodStatus` | ctrltest/podfault.go:180-279 | the loops compute the status function, and an address is handed out once |
| `PodStatus.SetSays` | ctrltest/podfault.go:299-327 | the first condition of the type takes the verdict, others stay |
| `PodStatus.SetDates` | ctrltest/podfault.go:299-327 | a condition keeps its time while its verdict stays what it was and takes the new time otherwise |
| `PodStatus.ReadyMeaning` | ctrltest/podfault.go:180-279 | Ready is true if and only if the pod is scheduled, every container of every kind healthy and every gate true |
| `PodFaults.PhaseMeaning` | ctrltest/podfault.go:180-279 | a pod runs if and only if it is on a node and no init container holds the rest back, and its conditions say so |
| `PodFaults.PlaceMeaning` | ctrltest/podfault.go:183-203 | address and start time are given once and kept while the pod is on a node; off it there is neither, nor any container |
| `PodFaults.ContainersMeaning` | ctrltest/podfault.go:205-249 | each container waits, runs, has completed or is backing off exactly as the fault and the init containers before it have it; one that crash-loops is never overdue |
| `PodStatus.StatusIsFixpoint` | ctrltest/podfault.go:176-279 | applied to its own result under the same fault it changes nothing if and only if no crash-loop backoff is over and the pod was not held back only by gates the computation itself opens |
| `PodStatus.LagsOnce` | ctrltest/podfault.go:176-279 | such a pod settles one sweep later: from the second result on only a restart changes the status |
| `PodStatus.GateOnOwnConditionLags` | ctrltest/podfault.go:254-278 | a gate on a kubelet condition for which the second application changes the status |
| `PodStatus.RestartsArePaced` | ctrltest/podfault.go:356-390 | by the r-th restart since its pod was last off its node the backoffs between the restarts have gone by, whatever the faults did |
| `PodStatus.PodRestartsArePaced` | ctrltest/podfault.go:180-279 | so it is for every regular container over any sequence of faults, unscheduling included |
| `PodStatus.PodInitRestartsArePaced` | ctrltest/podfault.go:180-279 | and for every init container |
| `FilteredWatch.Watch.constructor` | fakeapi/watch.go:124-150 | the seed is the listed objects that match |
| `FilteredWatch.Watch.Filter` | fakeapi/watch.go:231-265 | membership and delivery of one event |
| `FilteredWatch.Watch.Run` | fakeapi/watch.go:193-228 | filters the upstream events in order |
| `FilteredWatch.MembersAgree` | fakeapi/watch.go:45-70 | seeded after k of n changes, after all n the members are exactly the store's matching objects |
| `FilteredWatch.ReplayIsMembers` | fakeapi/watch.go:231-265 | a consumer starting from the seed always sees the members |
| `FilteredWatch.EmittedMeans` | fakeapi/watch.go:231-265 | Added, Modified and Deleted are sent exactly for objects entering, staying in and leaving the selector |
| `FilteredWatch.RequirementsAdd` | fakeapi/watch.go:267-274 | a selector holds exactly the objects that meet each of its requirements |
| `FilteredWatch.NoticesPass` | fakeapi/watch.go:231-265 | bookmarks and statuses come through as they are and in order, and nothing else becomes one |
| `FilteredWatch.WatchAgreesWithStore` | fakeapi/watch.go:45-70 | from the seeding list on, view and store agree after every event and every later event is sent as what it is |
| `FilteredWatch.OlderListKeepsMissed` | fakeapi/watch.go:54-64 | an older view differs from the store at exactly the keys that left in the seeding window and never came back |
| `FilteredWatch.MissedCanHappen` | fakeapi/watch.go:54-64 | under every selector an object can leave, one that leaves in the seeding window stays in such a view |
| `ReorderBuffer.InsertByResourceVersion` | ctrltest/events.go:394-400 | binary search inserts into the sorted buffer, before all events that already have the version, keeping all else |
| `ReorderBuffer.Merge.DrainQueued` | ctrltest/events.go:383-392 | moves every queued event into the buffer |
| `ReorderBuffer.Merge.TakeHead` | ctrltest/events.go:367-375 | publishes the head |
| `ReorderBuffer.TakingKeeps` | ctrltest/events.go:364-380 | what is taken has the lowest version of all accepted and not yet taken, and the books are kept |
| `ReorderBuffer.Merge.EmitRipe` | ctrltest/events.go:364-380 | takes ripe heads, draining before every check, until the head is unripe, the clock being read after the drain |
| `ReorderBuffer.Merge.Run` | ctrltest/events.go:320-343 | publishes exactly the output of the feed, as a function |
| `ReorderBuffer.OutputIsAccounted` | ctrltest/events.go:320-343 | every accepted event of a feed is held or published, exactly once |
| `ReorderBuffer.TakeAccounted` | ctrltest/events.go:364-380 | taking keeps the books: what is lower than something taken missed the drain before that was taken |
| `ReorderBuffer.InversionIsLate` | ctrltest/events.go:370-375 | an event published out of order was accepted at least a window late, less the time from stamp to queue and from drain to check |
| `ReorderBuffer.PunctualFeedComesOutSorted` | ctrltest/events.go:20-37 | on every feed whose events are less late than that the output is in ascending order |
| `ReorderBuffer.WindowIsExact` | ctrltest/events.go:364-380 | of any two events with ascending versions the second can be published first if and only if the first was accepted so late that, with the delays there may be, it can miss the drain before the second is taken; without delays, a whole window later |
| `OpLog.CompareMultiset` | ctrltest/matchers.go:128-160 | nothing missing and nothing unexpected if and only if the multisets are equal, and what is named is the difference |
| `OpLog.ScopesWiden` | ctrltest/matchers.go:221-231 | one scope shows all that another does exactly when both have the same namespace, the first asks for no other controller, and shows refused writes if the second does |
| `OpLog.KindSuffixIs` | ctrltest/recorder.go:402-407 | the suffix is what follows the last dot, or everything |
| `OpLog.KeysTellApart` | ctrltest/matchers.go:29-35 | unless a verb or kind contains a bar, keys are equal exactly when verb, the kind's suffix and name are |
| `Cursors.Cursor.FirstMatchFrom` | ctrltest/recorder.go:241-256 | the first write in scope, with nothing in scope before it |
| `Cursors.Cursor.Take` | ctrltest/recorder.go:371-379 | hands out the next write in scope while others append |
| `Cursors.Cursor.ScanInScope` | ctrltest/matchers.go:236-261 | the next writes in scope, and a floor below which there is none |
| `Cursors.Cursor.AdvanceTo` | ctrltest/matchers.go:314-320 | moves forward only |
| `Cursors.Cursor.WaitForAll` | ctrltest/matchers.go:87-121 | consumes the next n writes in scope and succeeds if and only if they are the wanted multiset; it times out only after all polls, consuming nothing |
| `Passes.Interceptor.Start` | ctrltest/interceptor.go:384-389 | a pass notes where in the log it starts |
| `Passes.Interceptor.AddKey` | ctrltest/recorder.go:139-160 | a write inside a pass keeps all books |
| `Passes.Interceptor.Stop` | ctrltest/interceptor.go:391-394 | a pass ends where the log ends when its reconciler returns |
| `Passes.Interceptor.File` | ctrltest/interceptor.go:395-425 | the record is filed later, with the stretch between start and stop and a number one above its controller's earlier passes, whatever others wrote since |
| `Passes.Interceptor.Ops` | ctrltest/interceptor.go:482-487 | the accepted writes of the pass's controller in its stretch of the log |
| `Passes.Interceptor.ReconcileOf` | ctrltest/interceptor.go:492-504 | finds the pass a write belongs to; an idle controller's writes all have one |
| `Passes.WritesArePartitioned` | ctrltest/interceptor.go:464-487 | an idle controller's writes lie in exactly one pass each, and its passes' writes one after the other are all of them |
| `Passes.PassHolds` | ctrltest/matchers.go:291-303 | a pass is credited with exactly the accepted writes of its controller between its start and its stop |
| `Passes.CreditedOncePerPass` | ctrltest/interceptor.go:464-487 | in any log, overlapping passes included, every accepted write of a controller is attributed exactly as often as there are passes of it that span the write |
| `Passes.OverlapCreditsTwice` | ctrltest/interceptor.go:475-481 | a write is credited to both of two passes of its controller if and only if it was accepted and lies in both stretches |

## Left out

- Replay checks of impure systems, error texts and histograms: they say nothing
  about a system that is as `Systems` describes one. A recoverable property that names an unknown
  actor stops the original before it searches and is not modelled.
- State cloning: states are values here, so mutating one handed out cannot be expressed.
- ParallelFor.Fork: what an item leaves in its slot is a function of the item, written in one step. That
  an expansion touches nothing shared is read off its contract; the per-worker scratch buffers are not
  modelled.
- Script timeouts and the terminal error of a stream: a step's arrivals are given, and it times out
  when they run out. Finishing a script is a step that permits nothing.
- ScriptStep.TryStep: takes declarations of the shapes the constructors build; groups of other than
  two parts cannot be constructed.
- History.OnlyTheAbandonedAreDeleted: leaves out the retry that meets an object adopted or freed since its
  confirming read, because such a retry does delete it.
- Foreground.HeldForGood: one way only, and from the start of a history, because what was read before
  could still be acted on.
- GarbageCollector.Collector.Run: protects a dependent of a watched kind that was owned by nothing
  but the orphaning owner from the start of the run, because a list taken before an adoption
  cannot show it.
- Several Deployments or StatefulSets in one sweep, other namespaces, and writers between the calls
  of a workload step: a step meets the store it listed. A negative replica count, which the API
  server refuses, is not modelled.
- StatefulSet status, claim binding and the synthetic status without the workload option: single
  assignments from counts.
- Deployments.SweepConverges: asks for a store with pods of this Deployment alone, none of them terminating
  or marked otherwise than it is named; a stalled store does not converge.
- Condition times of a Deployment: only statuses and reasons of its conditions are modelled.
- DataPlaneSim.Simulator.Run: asks for healthy pods; which pods are healthy is `PodStatus`.
- Strings of digits too large for a machine integer: ordinals are unbounded.
- Which pods a fault applies to, and the reports about unknown container names.
- Projection of events into changed paths: it is not an equivalence on absent and empty values.
- A bound on when a held event becomes visible: a late event with a lower version at the head can
  hold back a riper one.
- The tolerant matcher that skips writes, next-write expectations and the poll delays of cursors.
- The reconcile gate (activate, deactivate, pause) and requeue compression: single-branch facts. A
  refused request appears only as a pass without writes.
- Cursors.Cursor.WaitForAll: a deadline is a number of polls.
