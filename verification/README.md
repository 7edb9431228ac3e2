# PANGS call-graph closure, resolvers, certificates and disposition policy

PANGS analyses whole C programs. Once its solver has produced a call graph and the mod/ref rows of every
function, a series of passes closes, narrows, certifies and finally disposes of what was found. This project
models those passes and proves what they promise, for every input and every run.

- **Closure** (`Tarjan`, `CallGraph`, `ModRefs`, `Closure`): strongly connected components, and the memoised
  bottom-up collection of mod/ref rows with its high-fanout collapse. The collapse is lossless for the
  question it must answer: which globals a function may read or write.
- **Components and plans** (`UnionFind`, `Components`, `Rewrite`): localization components by union-find, and
  the least fixpoint of functions and callsites through which a context must be threaded.
- **Emission** (`Emission`, `SlotTables`, `Rows`, `RowContents`, `Flushing`, `Interleaving`): coalescing mod/ref rows in direct-indexed
  tables before they are pushed.
- **Edge order** (`Chunks`): comparing labels piece by piece, and the order in which edges are exported.
- **Simple-flow resolver** (`Pir`, `Places`, `Producers`, `Chains`, `Preanalysis`, `IndexBuilder`, `Simple`,
  `Escapes`, `Resolver`): the backward walk to the producers of an indirect-call operand and the forward walk that looks
  for escapes, both cutting cycles only on the stack.
- **Initial values** (`InitVal`, `InitialValues`, `InitValQuery`, `Stationarity`): executing the initializer, the verdict on
  which globals keep their initial values, and the calls this settles.
- **Coupling and mutex certificates** (`Coupling`, `CouplingGroups`, `Search`, `Mutex`).
- **Disposition** (`Guards`, `Manifests`, `Policy`, `PolicyLaws`, `PolicySafety`, `PolicyOutcomes`,
  `PolicyTwice`,
  `Demotions`, `DemotionLaws`): cascade, groups, overrides and demotion as operations on a manifest.

`Paths` (reachability), `Sorting` and `Basics` are shared. Code that updates fields or tables in place is modelled by
classes and methods whose contracts give the new state; the laws about these states are lemmas.

## Where the code differs from what it says

- The comment on `str_cmp_chunks` calls it equivalent to comparing the concatenations. It is, except between
  equal concatenations with different numbers of empty chunks at the end (`Chunks.ChunkOrderIsLex`). The only
  place where this can show is an unknown end without a reason beside a function called `unknown:`.
- Guards and pins agree on what is available for facts that pass validation. On facts that were never
  validated a localization that is not blocked and still lists a source blocker is accepted by its guard and
  refused as a pin (`Guards.ApplicableIsAvailable`).
- A group without a pin is given a mutex although its joint certificate failed exactly when that certificate
  lists no witness, because missing support is counted by witnesses; as a pin the same mutex is refused
  (`PolicySafety.UnpinnedSupport`, `PolicySafety.UncertifiedMutexIsTaken`).

## Reading the model

Names, keys, ids and witnesses that only matter through identity or order are natural numbers where no text
is inspected, and strings where it is. A hash table filled in statement order is a lookup of the last
matching entry. Sorting is insertion sort; its results are characterised by order and content, so the
algorithm does not matter. Loops over ordered sets take their elements in any order where the result is
proved not to depend on it. `fsa_compatible` is an arbitrary predicate on functions.

Three assumptions come from the passes that build the inputs: ids of functions, callsites and globals are in
range; record keys and group ids are distinct, which the manifest checks; and coupling groups are disjoint,
which `CouplingGroups.AssembleCouplingGroups` proves of the groups the same program assembles.

## Model

| member | source | states |
|---|---|---|
| `Tarjan.StronglyConnectedComponents` | crates/pangs-api/src/lib.rs:7350-7415 | For every graph with in-range successors: the components partition the nodes, two nodes share one exactly when each reaches the other, and every edge between components goes to a smaller number |
| `Tarjan.Visitor.Visit` | crates/pangs-api/src/lib.rs:7376-7405 | One visit keeps the whole visitor invariant and leaves the node with the least number it reaches on the stack; it terminates on the nodes not yet numbered |
| `Tarjan.Visitor.PopComponent` | crates/pangs-api/src/lib.rs:7392-7404 | The nodes popped are the top of the stack down to the root of the component, which becomes the next component |
| `Tarjan.CloseComponent` | crates/pangs-api/src/lib.rs:7392-7404 | When no number below the node is reachable, popping its component keeps the invariant: the component is complete and closed downwards |
| `Tarjan.TreeSuccessor` | crates/pangs-api/src/lib.rs:7384-7386 | A newly visited successor hands its low number up without breaking the loop invariant |
| `ModRefs.KeysIdentifyFacts` | crates/pangs-api/src/lib.rs:6717-6737 | The interned key of a fact determines the fact, so interning never confuses two |
| `ModRefs.Interner.Intern` | crates/pangs-api/src/lib.rs:6739-6751 | Interning returns the row of the fact, keeping the better witness for a known fact and appending a new one otherwise |
| `ModRefs.ScopeOfUnion` | crates/pangs-api/src/lib.rs:7221-7245 | The globals a union of fact sets may touch are the join of what each may touch, module-wide absorbing everything |
| `Closure.MergeSortedUnique` | crates/pangs-api/src/lib.rs:7324-7348 | Merging two ascending lists gives the ascending list of exactly their elements |
| `Closure.TransitiveCandidateUnion` | crates/pangs-api/src/lib.rs:7221-7245 | The candidates of a row list are the sorted globals its facts of one access touch, or module-wide exactly when one of them is |
| `Closure.CollapseKeepsScope` | crates/pangs-api/src/lib.rs:7189-7219 | Replacing rows by at most one row per access with the joint candidates never changes which globals may be read or written |
| `Closure.CollapsedRowsAre` | crates/pangs-api/src/lib.rs:7189-7219 | The rows of a collapse are one for each access there was, to an unknown target, with the given detail and no address or pointees |
| `Closure.Collector.CompactTransitiveRows` | crates/pangs-api/src/lib.rs:7189-7219 | The collapsed rows stand for a fact set of the same scope, at most two of them |
| `Closure.Collector.CollectSccPayloadIds` | crates/pangs-api/src/lib.rs:7268-7322 | The memoised recursion fills the entry of a component with rows that match what it reaches, keeps all other entries, and terminates on the component number |
| `Closure.SccFactsAreReachableFacts` | crates/pangs-api/src/lib.rs:6942-7036 | What the recursion over components collects is exactly the local facts of the functions reachable in the call graph |
| `Closure.ComputeTransitiveModrefs` | crates/pangs-api/src/lib.rs:6942-7102 | For every limit a function's rows touch exactly the globals that the local rows of all functions it reaches touch; without a limit they are exactly those rows in ascending order, none missing and none added; with one there are at most max(limit, 2) |
| `Components.Parents.Find` | crates/pangs-api/src/lib.rs:7425-7430 | Recursive path compression ends at the root of the class and changes no class |
| `Components.Parents.Union` | crates/pangs-api/src/lib.rs:7417-7423 | Linking two roots merges exactly their classes |
| `Components.ComputeComponents` | crates/pangs-api/src/lib.rs:6527-6564 | The components partition the functions; two functions share one exactly when undirected internal call edges connect them, and every external function is alone; members are in the order of their keys, components in that of their first members |
| `UnionFind.MergedClasses` | crates/pangs-api/src/lib.rs:7417-7423 | After linking, two nodes are in one class exactly when they were or when they were in the two classes linked |
| `Rewrite.CloseField` | crates/pangs-api/src/lib.rs:6248-6273 | The worklist computes the least pair of functions and callsites that holds the accessors and is closed under callers with their callsites and all targets of a rewritten callsite |
| `Rewrite.LeastIsUnique` | crates/pangs-api/src/lib.rs:6251-6273 | The least pair does not depend on the order in which work is taken up |
| `Rewrite.LeastIsForced` | crates/pangs-api/src/lib.rs:6251-6273 | The same pair without a fixpoint: the functions are those that the accessors force along callers and shared callsites, the callsites are exactly those with a target among them |
| `Rewrite.SitesHaveTargets` | crates/pangs-api/src/lib.rs:6306-6310 | Every rewritten callsite has a rewritten target, so the inner test of the unknown-callee blocker always succeeds |
| `Rewrite.SiteBlockers` | crates/pangs-api/src/lib.rs:6290-6318 | The callsite blockers are exactly the unlocated callsites and those with an unresolved alternative, although the code also asks for a rewritten target |
| `Rewrite.CallerBlockers` | crates/pangs-api/src/lib.rs:6275-6289 | The caller blockers are exactly the functions with an unknown caller, the entry point of an executable excepted |
| `Rewrite.NoBlockersMeansRewritable` | crates/pangs-api/src/lib.rs:6275-6328 | A field has no blocker exactly when no unknown caller (but the executable entry), no unknown callee, no inexact callsite location and no initializer user is left in its slice |
| `Rewrite.BuildIndex` | crates/pangs-api/src/lib.rs:6204-6231 | The caller, target and unknown tables hold exactly what the edges say |
| `Rewrite.ComputeContextRewritePlan` | crates/pangs-api/src/lib.rs:6192-6361 | One field per mutable, defined global with accessors, in order; the sets of the plan are the unions over the fields |
| `Chunks.StrCmpChunks` | crates/pangs-api/src/lib.rs:3187-3222 | The cursor loop ends and compares the joined strings, equal ones by the number of empty chunks at the end |
| `Chunks.ChunkOrderIsLex` | crates/pangs-api/src/lib.rs:3187-3189 | The documented equivalence with comparing the concatenations holds exactly when these differ or both sides have equally many empty chunks at the end |
| `Chunks.NoEmptyChunks` | crates/pangs-api/src/lib.rs:3187-3189 | Without empty chunks the exception cannot arise |
| `Chunks.CallerOrder` | crates/pangs-api/src/lib.rs:3124-3137 | Comparing caller ends is comparing their labels, then a rank; it agrees with the labels alone unless one end is unknown without a reason and the other a function called like the prefix |
| `Chunks.CalleeOrder` | crates/pangs-api/src/lib.rs:3139-3152 | The same for callee ends, with the same exception |
| `Chunks.BareUnknownIsToldApart` | crates/pangs-api/src/lib.rs:3124-3137 | The input on which equal labels compare unequal |
| `Chunks.CallEdgeOrder` | crates/pangs-api/src/lib.rs:3111-3122 | Comparing edges is the lexicographic order of a key of seven strings |
| `Chunks.TupleTransitive` | crates/pangs-api/src/lib.rs:3111-3122 | That order is transitive, and equal only between equal keys |
| `Chunks.TupleIsEqual` | crates/pangs-api/src/lib.rs:3111-3122 | That order is antisymmetric and total |
| `Chunks.SortAndDedupEdges` | crates/pangs-api/src/lib.rs:1776-1778 | What remains after sorting and deduplicating is strictly ascending, comes from the input and represents every input edge |
| `Chunks.NoLabelTwice` | crates/pangs-api/src/lib.rs:1776-1778 | Two remaining edges show the same labels only if an unknown end without a reason meets a function called like the prefix, so never when unknown ends carry reasons |
| `Chunks.SameKeyIsSameLabels` | crates/pangs-api/src/lib.rs:3111-3122 | Edges compare equal exactly when they show the same labels and no end is such a clash |
| `Chunks.RepeatedLabels` | crates/pangs-api/src/lib.rs:1776-1778 | Labels are shown twice after sorting and deduplicating exactly when two edges of the input clash in that way |
| `Emission.PushKeepsBalance` | crates/pangs-api/src/lib.rs:4109-4120 | A push keeps attempted = unique + duplicate in both phases |
| `Emission.CoalescedPush` | crates/pangs-api/src/lib.rs:4122-4143 | Pushing a fact once with the least witness and noting the others gives the same rows, witness and counters as pushing every occurrence |
| `Emission.PushesCommute` | crates/pangs-api/src/lib.rs:3960-3989 | Two pushes of one phase commute: facts, least witnesses and every counter |
| `Emission.PushesAreCounted` | crates/pangs-api/src/lib.rs:4109-4120 | After any pushes every key has gained its number of occurrences, the peak is the largest count, the phase has gained that many attempts, and as many of them count as new as there are new facts; the other phase is untouched |
| `Emission.OrderIsIrrelevant` | crates/pangs-api/src/lib.rs:3960-3989 | The observable state depends on the occurrences of a phase, not on their order |
| `Interleaving.MixedOrderIsIrrelevant` | crates/pangs-api/src/lib.rs:3960-3989 | However the two phases are mixed: the same facts, least witnesses, candidates, attempts and largest fanout per phase, and totals of new and repeated rows |
| `Interleaving.FlushesInterleave` | crates/pangs-api/src/lib.rs:5770-5789 | The same for whole modules: flushing function after function is pushing all their occurrences in any order |
| `Rows.ModRefBuilder.Push` | crates/pangs-api/src/lib.rs:3960-3989 | A push enters the fact with its witness and candidates or folds it into the existing row, and counts it |
| `Rows.ModRefBuilder.PushNamedEmpty` | crates/pangs-api/src/lib.rs:3991-4027 | The allocation-free path has the same effect as a push without candidates |
| `Rows.ModRefBuilder.NoteDuplicates` | crates/pangs-api/src/lib.rs:4122-4167 | Noted occurrences move the counters only, and keep attempted = unique + duplicate |
| `SlotTables.SlotTable.Push` | crates/pangs-api/src/lib.rs:4725-4746 | A slot counts its occurrences and keeps the least of their witnesses; slots out of range are passed over |
| `SlotTables.SlotTable.Drain` | crates/pangs-api/src/lib.rs:4748-4752 | Draining yields every used slot once, in order of first use, with its count and least witness, and leaves the table empty |
| `SlotTables.RegroupedIsLog` | crates/pangs-api/src/lib.rs:4748-4752 | Bringing the occurrences of each slot together loses and adds none |
| `SlotTables.RowsAndHits` | crates/pangs-api/src/lib.rs:5040-5051 | Expanding a slot row by row or occurrence by occurrence gives the same occurrences |
| `Rows.SlotsRoundTrip` | crates/pangs-api/src/lib.rs:5003-5009 | Global, node, access and suppression can be read back from a slot number |
| `Rows.FlushLocalRows` | crates/pangs-api/src/lib.rs:5244-5276 | Flushing the row table is pushing every occurrence it took in, and empties it |
| `Rows.FlushCopies` | crates/pangs-api/src/lib.rs:5055-5173 | Flushing the copies is pushing, slot by slot, every copy with its unknown row, or beyond the fanout limit the one row that stands for them; below the limit it is pushing every copy by itself |
| `Rows.FlushLocalAccesses` | crates/pangs-api/src/lib.rs:4990-5053 | The row table takes in one row per access and pointee; an access beyond the limit is pushed as one row instead |
| `RowContents.PointeesAre` | crates/pangs-api/src/lib.rs:5040-5051 | The pointees are the globals of the address without the one that the access names directly: all others, as often as they occur and in their order |
| `RowContents.PointeesCount` | crates/pangs-api/src/lib.rs:5013-5019 | The fanout is the number of globals less the occurrences of the suppressed one |
| `RowContents.PushedGathers` | crates/pangs-api/src/lib.rs:3960-3989 | A fact is there afterwards exactly when it was there before or some occurrence brings it; it has the least witness of all and the union of their candidates, the whole module taking in everything |
| `RowContents.AccessesEmit` | crates/pangs-api/src/lib.rs:5040-5051 | The rows an access table adds are exactly those of a logged access not beyond the limit and a global of its address that it does not name directly, each with the logged witness |
| `RowContents.AccessesFallBack` | crates/pangs-api/src/lib.rs:5020-5039 | Beyond the limit exactly one row per address and kind stands for all its occurrences, with the least witness, the number of occurrences, the fanout and the candidates without a global named directly |
| `RowContents.CopiesEmit` | crates/pangs-api/src/lib.rs:5093-5172 | The same for copies, where an external address adds its unknown row |
| `RowContents.RowsEmit` | crates/pangs-api/src/lib.rs:5244-5276 | The row table stands for exactly the rows recorded in it |
| `Flushing.FlushFunction` | crates/pangs-api/src/lib.rs:5770-5789 | The end of a function, for every limit: the same facts, least witnesses and counters as pushing every row by itself, addresses beyond the limit standing for their rows; a new fact is there exactly when the logs call for it, and a row naming a global exactly when it was recorded or some logged access or copy within the limit may touch that global and does not name it directly; all tables end empty |
| `IndexBuilder.BuildPreanalysis` | crates/pangs-api/src/simple.rs:243-372 | The tables list exactly the stores, unsafe globals, call counts, actuals, symbol uses, local uses and return consumers that a scan of the module finds |
| `Places.FunctionPlaceIsDenoted` | crates/pangs-api/src/simple.rs:1116-1143 | A value of a body addresses a byte of a global exactly when a chain of last definitions at decreasing positions, each a fixed-offset gep or a one-source assignment, leads to the global, the offsets sum to the byte and no partial sum from the global outwards leaves 64 bits |
| `Places.GlobalInitPlaceIsDenoted` | crates/pangs-api/src/simple.rs:1145-1169 | The same for a value of the initializer, where the last definition before the position counts |
| `Producers.NamesAreSpelled` | crates/pangs-api/src/simple.rs:1320-1326 | A value names the last function, and some global, whose key is the same symbol with or without a sigil |
| `Producers.ExactIsCallee` | crates/pangs-api/src/simple.rs:374-377 | The callee of a direct call is followed only into the function that has it as its very key |
| `Producers.StoredGlobalIsUnsafe` | crates/pangs-api/src/simple.rs:395-403 | A global used as a stored value is unsafe, which is what ends the walk through globals |
| `Simple.CountsAgree` | crates/pangs-api/src/simple.rs:691-729 | Equally many actuals and direct calls mean that every direct call passes the parameter |
| `Simple.CompleteFromProducers` | crates/pangs-api/src/simple.rs:553-576 | If every producer of a value is complete off the stack, so is the value: cutting cycles only on the stack loses nothing |
| `Simple.CutIsComplete` | crates/pangs-api/src/simple.rs:553-576 | A value on the stack may be taken for complete |
| `Simple.BackwardWalk.ResolveValue` | crates/pangs-api/src/simple.rs:545-576 | A simple answer means everything that flows into the value off the stack is followed and every function symbol among it is collected with the function naming it, nothing else; the walk gives up exactly when some chain of uses without a repeated local ends where the flow breaks off or a local is used before its definition; the stack is restored; the walk ends |
| `Chains.FailsUnfold` | crates/pangs-api/src/simple.rs:545-651 | Giving up, one step at a time: the node itself, or some use of it with the node on the stack |
| `Simple.FailsThroughOnly` | crates/pangs-api/src/simple.rs:578-651 | Giving up on a value with one producer is giving up on the producer |
| `Simple.BackwardWalk.ResolveGlobalPlace` | crates/pangs-api/src/simple.rs:749-800 | The same for a place inside a safe global: every store to it is followed, and the walk gives up exactly when one of them fails or there is none |
| `Simple.BackwardWalk.ResolveParamActuals` | crates/pangs-api/src/simple.rs:691-729 | The same for a parameter: every direct call is followed, or the walk gives up, exactly when one fails, passes no argument, or there is none |
| `Simple.BackwardWalk.ResolveReturnsOf` | crates/pangs-api/src/simple.rs:653-689 | The same for the result of a call: every return of the callee is followed, and the walk gives up exactly when one fails or there is none |
| `Simple.BackwardWalk.ResolveGlobalInitValue` | crates/pangs-api/src/simple.rs:802-832 | The same for a value in the initializer, with the exact condition for giving up |
| `Resolver.ReachableFunctions` | crates/pangs-api/src/simple.rs:1331-1384 | A function is reachable exactly when the build is a library, or outside code enters external functions at most, or direct calls lead to it from one that outside code may call or whose address is taken |
| `Resolver.Configure` | crates/pangs-api/src/simple.rs:204-227 | Outside code may call a function exactly when it is external, exported by symbol, exported in a library, or main in an executable, and may write a global exactly when that is exported by symbol, or exported in a library |
| `Resolver.AllTargets` | crates/pangs-api/src/simple.rs:503-543 | With nothing on the stack, the collected symbols are exactly those that flow into the operand |
| `Resolver.SimpleResolver.ResolveQuery` | crates/pangs-api/src/simple.rs:503-543 | An answer lists exactly the compatible functions that flow into the operand, none of which escapes, and every place that names a function flowing there; there is none exactly when some chain of uses breaks, no compatible function is carried, or one that is escapes |
| `Escapes.EscapesUnfold` | crates/pangs-api/src/simple.rs:971-1000 | A value escapes off the stack exactly when it escapes at once or one of its forward steps does with the value on the stack |
| `Escapes.NoEscapeThroughStack` | crates/pangs-api/src/simple.rs:971-1000 | A value on the stack adds no escape of its own: the cut that answers no hides none |
| `Escapes.EscapeWalk.LocalValueEscapes` | crates/pangs-api/src/simple.rs:971-1000 | True exactly when some forward chain avoiding the stack reaches an escaping use or exceeds the depth; the stack is restored |
| `Escapes.EscapeWalk.ComputeFunctionHasUnsafeEscape` | crates/pangs-api/src/simple.rs:878-903 | True exactly when some statement of a reachable body, or of the initializer, starts a chain through which the address of the function gets out |
| `Escapes.LeaksAreRecorded` | crates/pangs-api/src/simple.rs:1250-1317 | The table of symbol uses is complete: every statement through which the address of a function gets anywhere is recorded as a use of it |
| `Escapes.UsesAreListed` | crates/pangs-api/src/simple.rs:1218-1248 | So is the table of local uses: every statement that lets a local out or passes it on is listed for it |
| `Escapes.EscapeWalk.FunctionHasUnsafeEscape` | crates/pangs-api/src/simple.rs:866-876 | The cached answer is the recomputed one |
| `InitVal.InitValResolver.BuildInitSlots` | crates/pangs-api/src/initval.rs:105-142 | After the loop every slot holds what the last recording store put there, and a global is poisoned, with one diagnostic per statement naming its kind, exactly when some statement touches it in a way that is not understood |
| `InitVal.InitValResolver.CompleteGlobals` | crates/pangs-api/src/initval.rs:144-150 | Complete globals are those with a recorded slot and no poison |
| `InitVal.RecordNext` | crates/pangs-api/src/initval.rs:105-119 | One more statement overwrites the slot it records and leaves the others |
| `InitVal.TrailIsPoison` | crates/pangs-api/src/initval.rs:352-361 | A global has diagnostics exactly when it is poisoned, never the one that stands for a missing initializer |
| `Places.InitPlaceIsDenoted` | crates/pangs-api/src/initval.rs:314-337 | The byte an initializer value addresses, by the same chains; a global goes by its own key, or without the sigil if nothing goes by the value itself |
| `Places.PlaceInIsDenoted` | crates/pangs-api/src/initval.rs:286-312 | The same in a function body |
| `InitialValues.InitValueIsExact` | crates/pangs-api/src/initval.rs:241-283 | A value of the initializer is known exactly when every chain of assignments and geps ends at a named function or global, and it holds exactly what those names stand for |
| `InitialValues.SpoilsPoison` | crates/pangs-api/src/initval.rs:105-142 | Which statements poison a global: one that is not followed and mentions it, a store whose address is unknown and that mentions it, a store of an unknown value or a variable offset inside it |
| `InitialValues.KnownStoresRecord` | crates/pangs-api/src/initval.rs:105-119 | A statement records exactly when it stores a known value to a known place, and it records what every chain ends at |
| `InitialValues.CompleteIsClean` | crates/pangs-api/src/initval.rs:144-150 | A global is complete exactly when some statement stores something known in it and none spoils it |
| `InitValQuery.ResolveFunctionValue` | crates/pangs-api/src/initval.rs:176-213 | The walk with its cycle guard answers as the recursion on decreasing statement index without one; the visiting set is restored whenever there is an answer |
| `InitValQuery.ValueIsExact` | crates/pangs-api/src/initval.rs:176-239 | The recursion succeeds exactly when every assignment chain ends in a fixed-offset load of a recorded slot of a stable global, and collects exactly what the loads read |
| `InitValQuery.ResolveQuery` | crates/pangs-api/src/initval.rs:152-174 | A call is settled exactly when in addition some chain reads a target; the answer holds exactly the targets and naming places that the loads read |
| `Stationarity.CollectTargetedWriters` | crates/pangs-api/src/lib.rs:2777-2850 | The grouped index gives every global the same sorted, duplicate-free list of writers as a scan of all rows, named and candidate writers alike |
| `Stationarity.ScanIsUnique` | crates/pangs-api/src/lib.rs:2777-2850 | There is only one such list |
| `Stationarity.MergeGroups` | crates/pangs-api/src/lib.rs:2863-2874 | Joining the groups of a global gives exactly their writers in order |
| `Stationarity.StationarityVerdicts` | crates/pangs-api/src/lib.rs:2687-2775 | The stable globals are exactly those with a settled initial value that nothing outside reaches and no row counts as writing; any other verdict names the first reason that holds and lists exactly the writers it speaks of |
| `Stationarity.StableIsClean` | crates/pangs-api/src/lib.rs:2717-2758 | A stable global is never poisoned, and no write names it, has it as a candidate, or may hit anything in the module and reaches its globals |
| `Stationarity.CleanIsStable` | crates/pangs-api/src/lib.rs:2717-2758 | A global is stable exactly when it is complete, or mutable and never poisoned, nothing outside reaches it and no write can |
| `Stationarity.SettledCallRestsOnStableSlots` | crates/pangs-api/src/initval.rs:200-206 | Every slot a settled call loads is the last value the initializer stored there, in a global nothing writes at run time |
| `Coupling.AtMostIsLexical` | crates/pangs-clients/src/lib.rs:2157-2163 | Sites are ordered by the first of file, line and column in which they differ, a missing column counting as the zeroth; the order is total |
| `Coupling.LinkedInOneFile` | crates/pangs-clients/src/lib.rs:2022-2034 | Two certificates of one function and descent path whose sites lie in one file are compatible exactly when they share an init function and neither start comes after either end by line and column |
| `Coupling.IntersectIntervals` | crates/pangs-clients/src/lib.rs:2143-2155 | There is a common interval exactly when each start is at most each end; it is the later start to the earlier end |
| `Coupling.IntersectionIsCommon` | crates/pangs-clients/src/lib.rs:2143-2155 | The intersection holds exactly the sites of both intervals, and without one they share none |
| `Coupling.OnceLockPairEvidence` | crates/pangs-clients/src/lib.rs:1983-2020 | A pair has evidence exactly when it is compatible, which is what the expectation in the pair loop needs; the evidence holds exactly the shared functions and the common sites |
| `Coupling.CouplingComponents.Find` | crates/pangs-clients/src/lib.rs:1915-1921 | Path halving finds the root and keeps classes and sizes |
| `Coupling.CouplingComponents.Union` | crates/pangs-clients/src/lib.rs:1923-1935 | True exactly when the classes were different; afterwards they are one and the size at the root is the size of the class |
| `Coupling.UnionKeepsEdges` | crates/pangs-clients/src/lib.rs:1249-1253 | Recording an edge per successful union keeps the edges of every class a spanning tree |
| `Coupling.UniteCompatible` | crates/pangs-clients/src/lib.rs:1236-1255 | After the pair loop two globals are in one class exactly when compatible pairs connect them, and the evidence edges form spanning trees |
| `CouplingGroups.AssembleCouplingGroups` | crates/pangs-clients/src/lib.rs:1207-1330 | The groups are the connected components of size above one, disjoint, in order of their first members, each with one evidence edge fewer than members that together span it |
| `CouplingGroups.GroupAgrees` | crates/pangs-clients/src/lib.rs:2075-2090 | Members of one group agree on publication function and spine path |
| `CouplingGroups.Helly` | crates/pangs-clients/src/lib.rs:2091-2106 | The folded interval is nonempty exactly when every two members overlap |
| `CouplingGroups.FoldIntervals` | crates/pangs-clients/src/lib.rs:2091-2106 | Folding ends at the latest start and the earliest end, or finds two members apart |
| `CouplingGroups.CommonOnceLockSupport` | crates/pangs-clients/src/lib.rs:2036-2141 | For an assembled group the certificate and mismatch refusals cannot occur, and the interval refusal occurs exactly when two members do not overlap; a supported group has its point in every interval |
| `Search.Bfs.PathTo` | crates/pangs-clients/src/lib.rs:1399-1408 | Following parents ends and gives a real path of the recorded length |
| `Search.NearIsSeen` | crates/pangs-clients/src/lib.rs:1396-1416 | Every path up to the current level ends at a node already recorded no farther away |
| `Mutex.AccessorPath` | crates/pangs-clients/src/lib.rs:1387-1419 | None exactly when no accessor has a nonempty call path to an accessor; otherwise a real path from the smallest such accessor, shortest for it, with no accessor strictly inside |
| `Mutex.UnknownCalleePath` | crates/pangs-clients/src/lib.rs:1421-1456 | None exactly when no accessor reaches a function with an unresolved callee in zero or more calls; otherwise a shortest path from the smallest one that does |
| `Mutex.AssembleMutexEligibility` | crates/pangs-clients/src/lib.rs:1459-1638 | Certified exactly when the coarse facts allow it, no accessor comes back to one and none reaches an unresolved callee; otherwise each of the six failure codes is listed once and exactly when its condition holds |
| `Mutex.UnresolvedDistributes` | crates/pangs-clients/src/lib.rs:1572-1598 | Reaching an unresolved callee distributes over unions of storage closures |
| `Mutex.JointIsResolved` | crates/pangs-clients/src/lib.rs:1701-1799 | A union of closures none of which reaches an unresolved callee reaches none |
| `Mutex.AssembleGroupMutexSupport` | crates/pangs-clients/src/lib.rs:1701-1799 | A group is certified exactly when all members are and the joint accessors do not come back; a failure names one code, ineligible members exactly when there are any and otherwise the joint accessors; a certified group reaches no unresolved callee although only the accessor query is repeated |
| `Mutex.CertifyGroup` | crates/pangs-clients/src/lib.rs:1459-1799 | The same for members and group together, with nothing assumed of the verdicts |
| `Mutex.CertifyCalls` | crates/pangs-clients/src/lib.rs:1347-1799 | From the solved call graph to the certificates: a member is certified exactly when no chain of calls leads from an accessor to an accessor or to a call without a known target, with its accessors, or else the exact failure codes, stated over calls; a certified group has neither chain for its joint accessors |
| `Mutex.TablesAreCalls` | crates/pangs-clients/src/lib.rs:1347-1384 | The two tables hold the calls of the program, so both conditions mean the same over either |
| `Guards.ApplicableIsEligible` | crates/pangs-dispose/src/lib.rs:1355-1446 | A strategy's guard applies exactly when the stated demands on the facts are met, and otherwise names something that failed |
| `Guards.GuardsAreBlamed` | crates/pangs-dispose/src/lib.rs:1355-1446 | A failed guard names exactly the guards to blame, and a fact is reported as not computed exactly when it is asked for, was never computed and nothing else speaks against the strategy |
| `Guards.AvailableIsComputed` | crates/pangs-dispose/src/lib.rs:1094-1136 | A pin that is available always has a computed guard, so the corresponding refusal never occurs; only a declared atomic can be pinned atomic and to nothing else |
| `Guards.ApplicableIsAvailable` | crates/pangs-dispose/src/lib.rs:1094-1136 | What the guards accept can be pinned, on all facts that pass validation; unvalidated facts differ exactly for a localization that is not blocked and lists a source blocker |
| `Guards.ValidateConfig` | crates/pangs-dispose/src/lib.rs:105-119 | A configuration is accepted exactly when its order has no duplicate, no explicit unhandled and no localization in a library |
| `Guards.CascadeIsFirst` | crates/pangs-dispose/src/lib.rs:122-150 | The cascade stops at the first eligible strategy of the order |
| `Policy.Manifest.ApplyIndependentCascade` | crates/pangs-dispose/src/lib.rs:154-191 | Every record gets its independent decision; report, selection and materialization are dropped, and the members of every group are sorted before any pin is judged |
| `Policy.Manifest.ResolveGroups` | crates/pangs-dispose/src/lib.rs:738-923 | Every group is settled, every member is put on the choice of its group, and every group pin is reported, accepted risks also in the ledger |
| `Policy.Manifest.ApplyPins` | crates/pangs-dispose/src/lib.rs:207-229 | Every record carries its pin if that was accepted; the first key that does not parse ends the run |
| `Policy.Manifest.SelectContextRewrite` | crates/pangs-dispose/src/lib.rs:285-338 | The selection is the union of the recipes of exactly the localized globals, unless one of them has none |
| `Policy.CountOutcomes` | crates/pangs-dispose/src/lib.rs:1174-1190 | Every outcome is counted under its own name, the counts sum to the number of entries, and there is a problem exactly when some entry was not honored |
| `Policy.Manifest.ApplyPolicy` | crates/pangs-dispose/src/lib.rs:193-281 | A bad configuration changes nothing; a completed run leaves exactly the specified records, groups, entries, counts, selection and ledger |
| `PolicySafety.AvailableIsPinnable` | crates/pangs-dispose/src/lib.rs:1094-1136 | A pin gets as far as its guard exactly when the strategy's stated prerequisites hold: source contract, declaration, and a certificate or a recipe |
| `PolicySafety.RefusalIs` | crates/pangs-dispose/src/lib.rs:1094-1136 | Which refusal a strategy gets that cannot be pinned: for good exactly when the retained source forbids it or its certificate failed without a recipe, otherwise as unavailable |
| `PolicySafety.PinFailuresAre` | crates/pangs-dispose/src/lib.rs:680-728 | The failures that come with a verdict are exactly the guards to blame, under the pinned key, and only a pin that got as far as its guard has any |
| `PolicySafety.PinVerdicts` | crates/pangs-dispose/src/lib.rs:600-728 | When a global pin is given each outcome: disagreement with the group, a disabled strategy and each of the two refusals come before any risk, and a risk can only make up for the guard itself |
| `PolicySafety.GroupPinVerdicts` | crates/pangs-dispose/src/lib.rs:796-878 | When a group pin is given each outcome: joint support and every member's prerequisites cannot be overruled, only the members' guards can; the first member in the way, or else the joint certificate, decides between the two refusals |
| `PolicySafety.GroupPinFailuresAre` | crates/pangs-dispose/src/lib.rs:808-878 | The failures that come with the verdict on a judged group pin are exactly the guards to blame in any of its members |
| `PolicyOutcomes.AcceptedGroupPinDecides` | crates/pangs-dispose/src/lib.rs:738-923 | A group pin that is honored, at a risk or not, decides: the group ends on its disposition, carries the pin and its provenance, and every member with a record ends there |
| `PolicyOutcomes.UnpinnedGroupDecides` | crates/pangs-dispose/src/lib.rs:880-973 | A group whose pin is refused or absent gets what it takes by itself: a strategy exactly when every member yields and it is the first configured one that suits the group, and no pin |
| `PolicyOutcomes.AcceptedPinDecides` | crates/pangs-dispose/src/lib.rs:600-728 | A global pin that is honored decides: the record ends on its disposition and carries the pin and its provenance |
| `PolicyOutcomes.UnpinnedRecordDecides` | crates/pangs-dispose/src/lib.rs:600-728 | A record whose pin is refused or absent ends on the choice of its group or, without one, of the cascade |
| `PolicyOutcomes.ReportTells` | crates/pangs-dispose/src/lib.rs:193-264 | What each entry of the report says, for every override: its scope, request and outcome, an override that names nothing being reported as unmatched |
| `PolicyOutcomes.UnmatchedIsAProblem` | crates/pangs-dispose/src/lib.rs:911-922 | An override that names nothing always counts as a problem |
| `PolicySafety.WithoutRisksGuardsHold` | crates/pangs-dispose/src/lib.rs:193-281 | Unless an override accepts a risk, every final choice other than unhandled meets its own guard, through cascade, groups and pins |
| `PolicySafety.ProvenanceTells` | crates/pangs-dispose/src/lib.rs:880-923 | The recorded provenance is true: what came from the cascade is its choice, what a group imposed differs from it and is the group's, an honored pin was asked for and meets its guard unless marked as a risk |
| `PolicyLaws.AcceptedPinIsSupported` | crates/pangs-dispose/src/lib.rs:796-878 | Accepting a risk never makes up for missing joint support or for a member that cannot be pinned |
| `PolicyLaws.UnpinnedChoiceIsSafe` | crates/pangs-dispose/src/lib.rs:946-973 | By itself a group only takes a strategy whose guard every member meets, and no member has an independent choice it would undo |
| `PolicySafety.FirstJointIsFirst` | crates/pangs-dispose/src/lib.rs:966-972 | A group without a pin takes the first configured joint strategy that suits it, which is one its members' guards accept and whose joint support counts as there |
| `PolicySafety.UnpinnedSupport` | crates/pangs-dispose/src/lib.rs:1022-1069 | What a group takes by itself has joint support, except exactly a mutex whose certificate failed without a witness; an empty group suits every joint strategy |
| `PolicySafety.UncertifiedMutexIsTaken` | crates/pangs-dispose/src/lib.rs:1048-1058 | The group that takes a mutex by itself and is refused it as a pin |
| `PolicyLaws.GroupChoiceLaws` | crates/pangs-dispose/src/lib.rs:738-923 | A group's choice is a configured joint strategy or unhandled, and never takes in a declared atomic |
| `PolicyLaws.GroupsAreUniform` | crates/pangs-dispose/src/lib.rs:193-281 | Every group with a disposition has all its members on it, even after member pins |
| `PolicyLaws.FinalChoiceLaws` | crates/pangs-dispose/src/lib.rs:193-281 | Every final choice is configured or unhandled; only a declared atomic ends atomic, and it ends atomic or unhandled, even with accepted risks |
| `PolicyLaws.HistoryIsKept` | crates/pangs-dispose/src/lib.rs:151-153 | Overrides never touch the facts, the independent choice or its trace, which is the failed prefix before it |
| `PolicyLaws.UntouchedKeepsCascade` | crates/pangs-dispose/src/lib.rs:193-281 | A record without a pin and without a group choice keeps its independent decision |
| `PolicyLaws.ReportIsComplete` | crates/pangs-dispose/src/lib.rs:193-264 | Every global, group and cascade override has exactly one entry, and nothing else has |
| `PolicyLaws.RisksAreAccepted` | crates/pangs-dispose/src/lib.rs:687-714 | The accepted-risk audit records are one to one with the entries honored at a risk |
| `PolicyTwice.PolicyForgets` | crates/pangs-dispose/src/lib.rs:154-191 | The outcome depends on the facts and the groups alone: earlier decisions, demotions and selections are forgotten, and so is the order in which members are listed |
| `PolicyTwice.ReorderedResolution` | crates/pangs-dispose/src/lib.rs:975-1004 | For the verdicts themselves: the order of a group's members never changes a decision, and the reported outcome only through the first refusal |
| `PolicyTwice.PolicyTwiceIsOnce` | crates/pangs-dispose/src/lib.rs:193-281 | The policy is idempotent: a second run changes no record and no group and repeats the report |
| `Demotions.Expand` | crates/pangs-dispose/src/lib.rs:347-375 | The failures expand to exactly the records they take down, each with the witness of the last failure that breaks its group or else of its own; otherwise the first one that cannot be acted on is reported, as unknown or as undecided |
| `Demotions.DemoteAndReproject` | crates/pangs-dispose/src/lib.rs:342-430 | A failed call with an unknown or undecided subject changes nothing; otherwise the new records, groups, demotion list and selection are exactly the specified ones |
| `DemotionLaws.DemotionOnlyLowers` | crates/pangs-dispose/src/lib.rs:391-413 | A record that is taken down moves to unhandled, is marked as demoted and says from where and by which witness, and all else of it stays; no other record changes |
| `DemotionLaws.FailureTakesDown` | crates/pangs-dispose/src/lib.rs:347-375 | In a finalized manifest a failure takes down its own global and exactly the members of its group if that is on a once-lock or mutex |
| `DemotionLaws.GroupsFollow` | crates/pangs-dispose/src/lib.rs:414-425 | A group ends unhandled exactly when every member has a record that was unhandled or is taken down; nothing else of it changes but the order of its members |
| `DemotionLaws.DemotionsAreRecorded` | crates/pangs-dispose/src/lib.rs:391-413 | Every newly demoted global is recorded once with its former choice, and no other is |
| `DemotionLaws.JointGoesWhole` | crates/pangs-dispose/src/lib.rs:365-374 | A group on a once-lock or mutex is taken down whole or not at all |
| `DemotionLaws.DemotionKeepsConsistent` | crates/pangs-dispose/src/lib.rs:342-430 | Uniform groups stay uniform |
| `DemotionLaws.PolicyIsConsistent` | crates/pangs-dispose/src/lib.rs:193-281 | The policy leaves a manifest on which demotion keeps groups whole |
| `DemotionLaws.DemotingTwiceIsOnce` | crates/pangs-dispose/src/lib.rs:342-430 | Repeating a demotion changes nothing and records nothing |
| `DemotionLaws.DemotionsCompose` | crates/pangs-dispose/src/lib.rs:342-430 | Two failure sets in sequence leave the same choices as their union, hence in either order |

## Left out

- Loading LLVM and PIR, the construction of the pointer-assignment graph, the Steensgaard and Andersen solvers and the phase-stationarity analysis: their results are inputs here.
- Files, JSON, TOML, schemas, hashing, reports, environment knobs, timing, profiles, command lines, scripts and the trace runtime.
- Witness text, detail strings, callsite keys and FNV group ids: identities and orders only.
- `differential.rs`, `icall_census.rs`, `check_traces`, registry lookup and the measurement report.
- The order of stationarity verdicts, and verdicts for module globals without an id.
- Soundness against the semantics of C: the resolvers are exact with respect to the flow graphs their code walks.
- ModRefs.Interner.Intern: ids are unbounded numbers, so the wrap-around of 32-bit ids is not modelled.
- Coupling.CouplingComponents.Union: sizes are unbounded numbers.
- Stationarity.CollectTargetedWriters: writers are ranks in the order they are sorted by, so a missing witness and an empty one, which that order does not tell apart, are not told apart either; keys of globals are assumed distinct.
- Stationarity.StationarityVerdicts: diagnostics are not sorted or deduplicated, which no verdict depends on.
- CouplingGroups.AssembleCouplingGroups: groups are filed in order of first members directly, where the code collects them by root and then sorts by first member; group ids and suspected candidates are not modelled.
- CouplingGroups.CommonOnceLockSupport: the lookup of the publication function is one predicate, and members without a record are out of range.
- Rows.ModRefBuilder.Push: one index over facts stands for the two tables keyed by compact and by full keys, which never share a fact; the order of rows is not part of the observable state.
- The report of confined functions, computed from the naming places of all resolutions.
- Emission.PushesCommute: the counters of high-fanout fallbacks are not modelled.
- Policy.Manifest.ApplyPolicy: canonicalization sorts the members of groups; the order of records, groups and report entries is not modelled, nor are audit ids and their collisions and the source edits composed for a selection.
- Policy.Manifest.ResolveGroups: group ids are distinct and groups disjoint.
- Demotions.DemoteAndReproject: the final validation and marker inventories are not modelled.
- Rewrite.ComputeContextRewritePlan: blockers and plan sets are sets, where the code keeps sorted lists without duplicates.
- Mutex.AssembleGroupMutexSupport: every member has a record; in the code one without counts as ineligible too.
- Mutex.AssembleMutexEligibility: witnesses, declarations and recipes are not part of the verdict.
