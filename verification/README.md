# A model of kubecrtutils

This project models the algorithms and protocols of the library around the Kubernetes multi-cluster runtime and proves
what they keep, for every input, every run and every iteration order of a Go map.

- `Topo`: dependency ordering with cycle extraction.
- `Fallback`, `FallbackLosses`, `FallbackLoop`: the fixpoint loop that resolves logical clusters along their fallback
  chains, against a plain walk of the chain; what it can lose, and when it ends.
- `Activation`, `Constraints`: the two depth-first searches over possibly cyclic controller groups, the selection
  list, and the three-valued algebra of activation constraints.
- `ReplicationMapping`, `Replicate`, `ReplicateEnvironment`, `ReplicateSafety`, `ReplicateProgress`, `ReplicateRuns`,
  `ReplicateIncidents`: reference counting of target namespaces, and the finalizer protocol of the replication example
  as a state machine in which every API call is a step.
- `Overlay`: the write-through cache with its versioned overlay, sequentially and split at its lock operations.
- `Index`, `RelationTables`, `TypedIndex`, `ClusterIndex`: bidirectional indices over rows changed in place, as sets
  of edges.
- `Keys`, `Lookup`, `Owner`: printed keys, names of fleet members, index lookups over shards and owner annotations.
- `FieldSets`, `NameMapping`: fields owned and defaulted in updates, and the composition of name mappings.
- `Wrappers`, `Text`, `Graphs`: options and results, Go's string functions, and reachability in graphs.

What the code does by changing state is a class or a method with loops here, proved against a specification function;
lemmas state what that function means. A loop over a Go map takes its keys in an arbitrary order.

`dafny verify dfyconfig.toml` checks the whole project.

## Where the code falls short

The code is modelled as it is. Where the obvious property fails, lemmas give an input, the exact condition, or both.

- The turn that creates DEFAULT does not record that its own name is still missing, so validation can succeed without
  resolving a required name (`FallbackLosses.SingleDefinitionIsLost`, `FallbackLosses.LostExactly`).
- A required DEFAULT is created only if a needed definition falls back to it, and a required name that is not declared
  is dropped, both without an error (`FallbackLosses.RequiredDefaultIsSkipped`, `Fallback.UnresolvedExactly`).
- A fallback with the member separator, such as "#b", does not make its target needed, so a name can be reported as
  lacking a kubeconfig although its chain leads to one (`FallbackLoop.SeparatorFallbackIsStuck`,
  `Fallback.FollowsExactly`).
- A declared name with a fleet prefix counts as progress in every pass once it is resolved, and the loop does not end
  as long as another name is missing and nothing is at fault (`FallbackLoop.SeparatorDiverges`,
  `FallbackLoop.EndsExactly`); it counts as disabled in any case (`FallbackLoop.PrefixedIsDisabled`).
- A fleet that is not accepted is returned as an error but not recorded, so a second validation reports no error
  (`FallbackLoop.ValidateTwice`).
- A declared controller name can be captured by a longer dotted one (`Activation.LongerNameCaptures`,
  `Activation.CapturedExactly`).
- Disjoint overlooks a group with the empty name (`Constraints.NamelessGroupOverlaps`, `Constraints.DisjointMeaning`),
  and the error of And depends on the order of its parts (`Constraints.AndErrorDependsOnOrder`,
  `Constraints.AndErrorSettledExactly`).
- A lost answer to a namespace delete leaves an entry behind, whose namespace is not usable
  (`ReplicationMapping.LostAnswerStrandsEntry`, `ReplicationMapping.ReferencedIsActiveExactly`).
- A lost answer to a granted release of an original, or a failing removal of its entry, leaves the entry behind until
  there is a new original under the key (`ReplicateRuns.EntriesAreLeftBehind`, `ReplicateRuns.OrphanedExactly`,
  `ReplicateRuns.StrandedEntryStaysForEver`).
- The safety of replication rests on fresh reads and on a mapping that survives
  (`ReplicateRuns.StaleReadLosesProtection`, `ReplicateRuns.RestartLosesReplica`,
  `ReplicateIncidents.SafeRunExactly`).
- Resource versions are compared as strings (`Overlay.TenIsNotNewerThanNine`, `Overlay.VersionOrderExactly`), and a
  Get may be stale if another one evicts in between (`Overlay.DisturbedGetIsStale`, `Overlay.GetIsBehindExactly`).
- In the typed index RemoveObject also erases edges to objects of other kinds under the same key, and keeps edges from
  other kinds to the object (`TypedIndex.RemovalIsConfinedExactly`).
- Replacing targets in a cluster without index is lost, and the index of a cluster is never dropped
  (`ClusterIndex.FirstReplacementIsLost`, `ClusterIndex.StepMeansExactly`, `ClusterIndex.IndicesStay`).
- RemoveOwner drops the annotation of any owner (`Owner.RemovalOfAnotherOwner`, `Owner.RemovalSparesOthersExactly`),
  and a local owner is not found in a cluster its matcher does not take as local (`Owner.SetThenGet`).
- A lookup for a key without cluster finds too much (`Lookup.KeyWithoutClusterFindsTooMuch`), one in a cluster with a
  slash in its name too little (`Lookup.SlashedClusterIsMissed`, `Lookup.LookupAgreesExactly`).
- A field the server has defaulted once is never removed any more (`FieldSets.AddedFieldStays`).
- The composition of name mappings is not associative (`NameMapping.CompositionIsNotAssociative`,
  `NameMapping.AssociativeExactly`).

## Model

| member | source | states |
|---|---|---|
| Topo.TopoSort | utils/topo.go:10-20 | The order lists exactly the given and transitively required nodes, once each and after their dependencies; a cycle is returned exactly if the required graph has one, and it is simple and made of dependency edges |
| Topo.Visit | utils/topo.go:22-37 | One call of the recursive search: the order stays ordered and disjoint from the path walked so far, or a genuine simple cycle comes back; it terminates on every finite graph |
| Topo.CycleInHistory | utils/topo.go:23-25 | Meeting a node of the history again, the part of the history from it on is a simple cycle of dependencies |
| Topo.ExtendOrder | utils/topo.go:26-35 | A node all of whose dependencies are listed may be appended to the order |
| Topo.OrderClosed | utils/topo.go:22-37 | An ordered list with a node has everything reachable from it |
| Topo.WalkFallsInOrder | utils/topo.go:22-37 | Along any dependency walk through an ordered list positions strictly fall |
| Topo.OrderedHasNoCycle | utils/topo.go:22-37 | No closed walk runs through a node of an ordered list |
| FallbackLoop.Definitions.Validate | cluster/defs.go:73-170 | For every configuration with which the loop ends and all sequences of map iteration orders: without error only needed names are resolved, each to the end of its fallback chain, no required name that accepts no fleet is aliased to one, DEFAULT is resolved iff it can be created and a needed definition falls back to it, and of the needed definitions at most one is left out, only for losing inputs; disabled names are those a lookup finds no cluster for; every error is a true one, and with a missing kubeconfig there is no fault and exactly the served names have been resolved; a second call repeats the recorded error |
| FallbackLoop.EndsExactly | cluster/defs.go:91-148 | Whatever the iteration orders, the loop ends iff all needed definitions are served, or no name with a fleet prefix is, or the configuration is faulty: the creation of something needed fails, or a required definition that accepts no fleet is served by one only |
| FallbackLoop.VerdictExactly | cluster/defs.go:91-168 | The configuration decides the verdict: without a fault it is an error iff a needed definition is not served, and then a missing kubeconfig; with a fault it is another error, unless only refused fleets are at fault and their name is lost |
| FallbackLoop.DisabledExactly | cluster/defs.go:159-163 | A validation without error records as disabled exactly the declared names that look like fleet members and those without a cluster: of the others every one that is not needed, and a needed one only if it is the lost one |
| Fallback.StuckIsNotFaulty | cluster/defs.go:93-148 | A pass without any progress and error is possible for configurations without a fault only |
| FallbackLoop.Definitions.Turn | cluster/defs.go:97-147 | The loop body, statement by statement, is one step of the specification, for any state |
| FallbackLoop.Definitions.Pass | cluster/defs.go:96-148 | One loop over the definitions in any order is one pass of the specification, stopping at the first error |
| FallbackLoop.Definitions.Report | cluster/defs.go:150-157 | The reported name is declared, wanted and unresolved |
| Fallback.WalkUnique | cluster/defs.go:91-163 | A fallback chain has at most one end, so the reference result does not depend on any order |
| Fallback.VisitKeepsInv | cluster/defs.go:97-147 | Every turn keeps soundness: resolved names are needed and have the cluster of their chain |
| Fallback.VisitError | cluster/defs.go:101-138 | Every error of a turn is justified: a failing Create of a needed name, or a chain of a required name that ends in a fleet it does not accept |
| Fallback.PassFacts | cluster/defs.go:94-148 | What a whole pass has done when it reports missing and found, for every order |
| Fallback.CleanResolves | cluster/defs.go:93-157 | A clean stop leaves every needed definition resolved but at most the one whose turn created DEFAULT |
| Fallback.CleanDefault | cluster/defs.go:130-145 | A clean stop has resolved DEFAULT iff it can be created and a needed definition without a cluster of its own falls back to it |
| Fallback.UnresolvedExactly | cluster/defs.go:73-170 | What a successful validation leaves out: losable definitions, DEFAULT if nothing asks for it, and every undeclared name |
| Fallback.StuckChain | cluster/defs.go:93-157 | Without progress no unresolved name has a chain of needed names to a configured definition |
| Fallback.StuckExactly | cluster/defs.go:93-157 | Without progress exactly the served names are resolved: those with a chain of needed names to a configured definition |
| Fallback.StuckError | cluster/defs.go:149-157 | A name reported as lacking a kubeconfig is declared, needed and not served |
| Fallback.FollowsExactly | cluster/defs.go:111-127 | Chains of needed names are the plain fallback chains exactly as long as every fallback with the member separator denotes a name that is needed otherwise |
| Fallback.PlainFallbacksServe | cluster/defs.go:111-127 | With fallbacks without the separator a needed name is served exactly by the end of its plain chain |
| Fallback.ContinuedPass | cluster/defs.go:93-148 | Every continuing pass strictly grows the resolved or the intermediate names within a finite bound |
| Fallback.OrderIndependent | cluster/defs.go:91-163 | Two successful validations with any iteration orders agree on every name both resolve, DEFAULT included, and differ in losable definitions only |
| FallbackLosses.LostExactly | cluster/defs.go:129-144 | A needed definition can be lost by some order exactly if it is required, has no cluster of its own, falls back to a creatable DEFAULT, and all other required names resolve without it |
| FallbackLosses.SingleDefinitionIsLost | cluster/defs.go:129-144 | The smallest such input: a first pass that misses nothing and leaves the one required definition out |
| FallbackLosses.RequiredDefaultIsSkipped | cluster/defs.go:96-145 | An input with a required and configured DEFAULT that validation leaves out without an error |
| FallbackLoop.SeparatorDiverges | cluster/clusters.go:27-40 | An input, a configured name with a fleet prefix beside one that misses its kubeconfig, for which every pass in every order goes on |
| FallbackLoop.PrefixedIsDisabled | cluster/defs.go:159-163 | A name with a fleet prefix counts as disabled, resolved or not |
| FallbackLoop.SeparatorFallbackIsStuck | cluster/defs.go:126-129 | An input with a fallback "#b" for which the loop stops with a name missing, although its chain leads to the configured b |
| FallbackLoop.LeadingSeparatorDependsOnOrder | cluster/clusters.go:27-31 | With names that start with the separator the order decides whether a name is missing, which is why they are excluded |
| FallbackLoop.ValidateTwice | cluster/defs.go:84-123 | A fleet that is not accepted is an error of the first validation only |
| FallbackLoop.ErrorStopsPass | cluster/defs.go:97-147 | An error in a prefix of a pass is the error of the pass |
| Activation.Simplify | options/activationopts/options.go:137-156 | The loops with the labelled continue compute the table of short forms |
| Activation.UndottedCanonical | options/activationopts/options.go:137-156 | With undotted names the table maps every name to itself |
| Activation.EnterExactly | options/activationopts/options.go:141-153 | The turn of a dotted name enters it under its shortest ending that is free, and changes no other entry |
| Activation.EntriesEnd | options/activationopts/options.go:137-156 | Every entry leads to a declared name that ends in it |
| Activation.UnsharedNameIsKept | options/activationopts/options.go:137-156 | A name in which no other declared name ends behind a dot acts on itself |
| Activation.CapturedExactly | options/activationopts/options.go:137-156 | A name acts on another one iff a declared dotted name ends in it and has its turn when the name is free and all its shorter endings are taken |
| Activation.LongerNameCaptures | options/activationopts/options.go:137-156 | An input of two names in sorted order for which the shorter one acts on the longer one |
| Activation.Selection.Handle | options/activationopts/options.go:81-109 | The recursion over the group graph terminates, restores the handled set and adds or deletes exactly the leaves of the name |
| Activation.LeavesSound | options/activationopts/options.go:81-109 | Every leaf acted on is reachable |
| Activation.LeavesComplete | options/activationopts/options.go:81-109 | A leaf at the end of a walk off the current path is acted on: the walk is cut behind its last visit of the group |
| Activation.LeavesAreReachable | options/activationopts/options.go:81-109 | On every group graph, cyclic or not, the leaves acted on are exactly the reachable ones |
| Activation.TreeEdges | options/activationopts/options.go:86-105 | The graph walked: the members of a group are its declared entries, those of all, unless there is such a group, the declared names, by their canonical names |
| Activation.GetActivation | options/activationopts/options.go:115-135 | The selection is the left fold of set union and difference over the leaf sets of the entries |
| Activation.OneMoreEntry | options/activationopts/options.go:115-135 | What one more entry does in its three forms: -g takes the leaves of g out of the selection, of all declared names if it comes first; +g and a bare g put them in |
| Activation.LastWordDecides | options/activationopts/options.go:115-135 | A controller is active iff the last entry touching it selects it, or none does, the list starts with a deselection and the controller is declared |
| Activation.LastWordWins | options/activationopts/options.go:119-133 | The last entry that touches a controller decides |
| Activation.Untouched | options/activationopts/options.go:119-125 | What no entry touches is active only through the initial selection of all |
| Constraints.Closure | controller/constraints/constraints.go:113-127 | The visited-set search adds to the result exactly the leaves reachable off the visited nodes, and visits the reachable ones |
| Constraints.ClosureOf | controller/constraints/constraints.go:71-73 | From empty sets it finds exactly the reachable nodes without members |
| Constraints.NewContext | controller/constraints/constraints.go:64-91 | Every declared group has its closure in the context, whatever the iteration order |
| Constraints.SubsetByCount | controller/constraints/complete.go:24-26 | Equal sizes of a group and its selected part mean that the whole group is selected |
| Constraints.MatchComplete | controller/constraints/complete.go:18-29 | Reports the first listed group that is undeclared or not completely selected, and nothing otherwise |
| Constraints.CompleteReportsFirst | controller/constraints/complete.go:18-29 | The problem reported is that of the first listed group that is undeclared or not completely selected |
| Constraints.MatchDisjoint | controller/constraints/disjoint.go:15-35 | The nested loops terminate although the inner body rewrites the outer index, and answer what the first sweep over the positions answers |
| Constraints.SweepFinds | controller/constraints/disjoint.go:19-31 | The sweep finds a problem iff a listed group is undeclared or two listed positions have selected members, the earlier one under a nonempty name |
| Constraints.SweepReports | controller/constraints/disjoint.go:19-31 | The sweep reports the first position with a problem: an undeclared group without opinion, or with a Yes the overlap with the nearest earlier group that has selected members |
| Constraints.DisjointMeaning | controller/constraints/disjoint.go:15-35 | Disjoint errs iff a group is undeclared or two positions have selected members, except exactly when all are declared and only the last of these positions has a nonempty name |
| Constraints.NamelessGroupOverlaps | controller/constraints/disjoint.go:19-31 | An input whose overlap is not found in one order of the groups, and found in the other |
| Constraints.Match | controller/constraints/operators.go:9-69 | The loops of And and Or, Not and the leaves compute the evaluation function on arbitrarily nested constraints |
| Constraints.ActivatedMeaning | controller/constraints/activated.go:9-19 | Yes iff the list is not empty and all its controllers are selected, No iff one is not, no opinion iff it is empty, and never an error |
| Constraints.ActivatedIsConjunction | controller/constraints/activated.go:9-19 | A list has the value of the conjunction over its single controllers |
| Constraints.LeafMeaning | controller/constraints/complete.go:18-29 | Always is Yes; Complete never has an opinion and errs iff a group is not complete; Disjoint is Yes iff it reports an overlap, and never No; Not swaps Yes and No and keeps the error |
| Constraints.AndFromMeaning | controller/constraints/operators.go:9-25 | Value and error of the conjunction loop with its early exit |
| Constraints.OrFromMeaning | controller/constraints/operators.go:33-52 | Value and error of the disjunction loop |
| Constraints.AndExitsSafely | controller/constraints/operators.go:9-25 | Early exit does not change the value of the full fold |
| Constraints.AndMeaning | controller/constraints/operators.go:9-25 | A conjunction is No iff a part is, and Yes iff no part is No and one is Yes |
| Constraints.OrMeaning | controller/constraints/operators.go:33-52 | A disjunction is Yes iff a part is, and No iff no part is Yes and one is No |
| Constraints.OperatorsPermute | controller/constraints/operators.go:9-52 | Values depend neither on the order nor on the repetition of parts |
| Constraints.OrError | controller/constraints/operators.go:33-52 | Or errs iff some part is not No and all of these err |
| Constraints.AndError | controller/constraints/operators.go:9-25 | And errs iff its value is not No and some part errs, or its first No errs |
| Constraints.ErrorsAreListed | controller/constraints/operators.go:9-52 | The error of And without a No lists the problems of all parts in order, that of Or those of the parts that are not No |
| Constraints.AndErrorSettledExactly | controller/constraints/operators.go:9-25 | Whether And errs is the same for every order of its parts unless some parts with value No err and some do not |
| Constraints.AndErrorDependsOnOrder | controller/constraints/operators.go:9-25 | An input for which it is not |
| Constraints.DeMorgan | controller/constraints/types/activation.go:21-43 | Pushing negations to the leaves of an arbitrarily nested constraint keeps its value |
| Constraints.SearchesAgree | controller/constraints/constraints.go:113-127 | With undotted names, no empty group and no node called all, the path-scoped search of the activation and the visited-set search of the closure find the same leaves |
| Constraints.SelectedGroupIsComplete | controller/constraints/complete.go:18-29 | A selection list ending in +G always satisfies Complete(G) |
| Constraints.AllMemberSeparatesSearches | options/activationopts/options.go:96-100 | A member called all tells the two searches apart |
| ReplicationMapping.Mapping.ForResource | controller/replication/mapping.go:63-80 | Gets or creates the table of a kind, at most one per kind, and changes no entry |
| ReplicationMapping.ResourceIndex.Get | controller/replication/mapping.go:191-201 | Finds exactly the recorded request |
| ReplicationMapping.ResourceIndex.Add | controller/replication/mapping.go:203-210 | Records the request and nothing else |
| ReplicationMapping.ResourceIndex.Remove | controller/replication/mapping.go:212-220 | Removes the entry, and the inner map with its last one |
| ReplicationMapping.Resource.GetOriginal | controller/replication/mapping.go:127-131 | Finds exactly the recorded request |
| ReplicationMapping.Resource.SetOriginal | controller/replication/mapping.go:133-142 | The new contents and namespaces, for every outcome of the namespace calls |
| ReplicationMapping.Resource.OthersEmpty | controller/replication/mapping.go:148-156 | The scan with break answers whether any other kind has entries in the namespace |
| ReplicationMapping.Resource.RemoveOriginal | controller/replication/mapping.go:144-179 | A delete is issued exactly if no entry but the one removed refers to the namespace; a failed call changes no entry; otherwise exactly the entry goes |
| ReplicationMapping.LastEntry | controller/replication/mapping.go:222-232 | True iff nothing but the key is left |
| ReplicationMapping.LastReference | controller/replication/mapping.go:148-159 | The two tests before the delete say together that no entry of any kind but the removed one refers to the namespace |
| ReplicationMapping.AddedRefs | controller/replication/mapping.go:203-210 | References to a namespace after an addition |
| ReplicationMapping.RemovedRefs | controller/replication/mapping.go:212-220 | References to a namespace after a removal |
| ReplicationMapping.AddedOriginal | controller/replication/mapping.go:203-210 | After an addition exactly the given request is recorded for the kind and key, and every other key of every kind has what it had |
| ReplicationMapping.RemovedOriginal | controller/replication/mapping.go:212-220 | After a removal nothing is recorded for the kind and key, and every other key has what it had |
| ReplicationMapping.SetAndGet | controller/replication/mapping.go:127-142 | A successful SetOriginal lets GetOriginal find exactly the target, any call leaves other keys as they were, and it succeeds iff the namespace is usable or can be created |
| ReplicationMapping.NoEmptyInnerEver | controller/replication/mapping.go:203-220 | In every run over any kinds no empty inner map is kept |
| ReplicationMapping.StepRefs | controller/replication/mapping.go:133-179 | How every operation changes the references to every namespace, failures included |
| ReplicationMapping.OriginalNext | controller/replication/mapping.go:133-179 | What is recorded for a key after any operation with any failure: the target after a set that gets its namespace, nothing after a removal that needs no delete or gets it, otherwise what was recorded before |
| ReplicationMapping.OriginalIsLastRecorded | controller/replication/mapping.go:133-179 | In every run a request is recorded for a key iff it is the target of the last operation that recorded one, and the key has not been forgotten since |
| ReplicationMapping.NamespaceNext | controller/replication/mapping.go:133-179 | The state of every namespace after any operation: made by a set that is not refused, terminating after the delete for the last reference |
| ReplicationMapping.LastRemovalDeletes | controller/replication/mapping.go:144-179 | A successful removal that leaves a namespace unreferenced has issued its delete; a failed one changes no entry; without the delete namespaces stay |
| ReplicationMapping.StrandedNext | controller/replication/mapping.go:133-179 | The operations that make a referenced namespace unusable, exactly: the removal of its last reference whose delete answer is lost; and those that repair it |
| ReplicationMapping.ReferencedIsActiveExactly | controller/replication/mapping.go:133-179 | In every run a referenced namespace is usable, unless such a removal has stranded it and nothing has repaired it since |
| ReplicationMapping.ActiveIsReferenced | controller/replication/mapping.go:133-179 | In every run with all answers received the usable namespaces are exactly the referenced ones |
| ReplicationMapping.LostAnswerStrandsEntry | controller/replication/mapping.go:159-163 | A lost answer of a delete leaves an entry whose namespace goes away |
| Replicate.WorkIsLocal | examples/simple/controllers/replicate/logic.go:40-181 | A step of a worker touches its own original, its own replica and the mapping only |
| Replicate.WorkKeepsOwn | examples/simple/controllers/replicate/logic.go:62-181 | Every step of a worker, with every API failure, keeps its own original, replica and entry consistent |
| Replicate.WorkKeepsOthers | examples/simple/controllers/replicate/logic.go:40-181 | Every step of a worker keeps the originals, replicas and entries of all other workers consistent |
| ReplicateSafety.NextKeepsInv | examples/simple/controllers/replicate/logic.go:40-181 | Every event of workers, users and clusters keeps the invariant |
| ReplicateSafety.RunInv | examples/simple/controllers/replicate/logic.go:40-181 | The invariant holds after every interleaving |
| ReplicateSafety.ReplicaHasOriginal | examples/simple/controllers/replicate/logic.go:62-85 | In every reachable state a replica has a live original with the finalizer and a recorded entry |
| ReplicateSafety.EntryNamesOriginal | examples/simple/controllers/replicate/logic.go:71-85 | In every reachable state every entry of the mapping is for a replica and holds the request for its original |
| ReplicateSafety.NamespaceDeletionIsHarmless | examples/simple/controllers/replicate/logic.go:143-165 | In every reachable state emptying a namespace under deletion destroys no replica |
| ReplicateSafety.NoMisdirectedPatch | examples/simple/controllers/replicate/logic.go:166-172 | The patch of a replica that is sent to the source cluster is never reached |
| ReplicateRuns.OrphanedNext | examples/simple/controllers/replicate/logic.go:143-181 | Under the invariant, the events that leave an entry without a protected original, exactly: a granted release of the original whose answer is lost, and a failing removal of the entry while the original is not protected; and those that bring it back into care |
| ReplicateRuns.OrphanedExactly | examples/simple/controllers/replicate/logic.go:143-181 | In every run an entry is without a protected original iff such an event has left it so and none has reclaimed it since |
| ReplicateRuns.EntriesAreLeftBehind | examples/simple/controllers/replicate/logic.go:143-181 | Two runs, one for each failure, that leave an entry behind after its original |
| ReplicateRuns.StrandedEntryStays | controller/controllerutils/reconciler/request.go:348-368 | No event but a new original under the key brings such an entry into reach again |
| ReplicateRuns.StrandedEntryStaysForEver | controller/controllerutils/reconciler/request.go:348-368 | The same for every event sequence |
| ReplicateRuns.RestartLosesReplica | controller/replication/mapping.go:144-179 | A run in which the mapping is lost by a restart and the deletion of one original takes the replica of another, living one with it |
| ReplicateRuns.StaleReadIsUnsafe | examples/simple/controllers/replicate/logic.go:62-69 | A stale read that still shows the finalizer leads to a replica of an unprotected original |
| ReplicateRuns.StaleReadLosesProtection | examples/simple/controllers/replicate/logic.go:62-69 | A run after which reading a former version of an original does so |
| ReplicateIncidents.SafeExactly | examples/simple/controllers/replicate/logic.go:62-69 | Of restarts and reads of any former object, exactly the safe ones keep the invariant: a restart without replicas, a read that does not show the finalizer on an object to be replicated which it does not hold any more |
| ReplicateIncidents.SafeRunExactly | examples/simple/controllers/replicate/logic.go:40-181 | The invariant holds throughout a run with restarts and stale reads iff all of them are safe |
| ReplicateIncidents.ReplicasStayProtected | examples/simple/controllers/replicate/logic.go:62-85 | In runs with safe ones only every replica has its live, protected original |
| ReplicateProgress.ReplicationCompletes | examples/simple/controllers/replicate/logic.go:62-113 | An undisturbed worker replicates a responsible original in five calls; all of the resulting state is given, and the mapping answers with the original |
| ReplicateProgress.UpdateCompletes | examples/simple/controllers/replicate/logic.go:62-137 | With a replica in place five calls bring it up to date with the present original, keep its finalizers and touch nothing else |
| ReplicateProgress.CleanupCompletes | examples/simple/controllers/replicate/logic.go:143-181 | After the deletion of the original, or once it is not to be replicated any more, an undisturbed worker removes the replica, lets the original go and drops the entry in seven calls; all of the resulting state is given |
| ReplicateProgress.DeletedReplicaIsAwaited | examples/simple/controllers/replicate/logic.go:107-117 | A replica under deletion is left alone by replication and by cleanup |
| ReplicateProgress.ReplicasAreSkipped | examples/simple/controllers/replicate/logic.go:40-48 | A replica in the source cluster is not worked on |
| ReplicateProgress.RefusedCallChangesNothing | examples/simple/controllers/replicate/logic.go:62-181 | A refused call ends the reconciliation and changes no object |
| Overlay.LessTotal | cache/utils.go:9-11 | The version order is total |
| Overlay.LessTransitive | cache/utils.go:9-11 | The version order is transitive |
| Overlay.ObjectOverlay.Set | cache/overlay.go:28-40 | An entry is replaced by newer objects only |
| Overlay.ObjectOverlay.Evict | cache/overlay.go:59-70 | Drops the entry unless it is newer than the object given |
| Overlay.WriteThroughCache.Get | cache/cache.go:28-55 | The answer in all four cases, and the entry evicted once the cache has caught up |
| Overlay.WriteThroughCache.Write | cache/cache.go:57-79 | A successful write is stored in the overlay, a failed one changes nothing |
| Overlay.EntriesExactly | cache/overlay.go:28-70 | What becomes of every entry: it is replaced by a newer object only, goes once the cache holds an object it is not newer than, and is not touched by operations on other keys |
| Overlay.StoreRaises | cache/overlay.go:28-40 | Storing never lowers the higher of the two versions of any key, and reaches the stored one |
| Overlay.CacheRaises | cache/cache.go:28-29 | A cache that moves forward never lowers the higher version of any key |
| Overlay.EvictRaises | cache/overlay.go:59-70 | An eviction for an object the cache has held never lowers it, thanks to the second comparison |
| Overlay.BlindEvictionLoses | cache/overlay.go:65-69 | Without that comparison a write stored in between is lost |
| Overlay.AnswerIsHigh | cache/cache.go:28-55 | Get answers with the higher version and fails only if there is none |
| Overlay.AnswerIsOneObject | cache/utils.go:14-25 | Version and metadata of an answer are those of one object, the entry if it is newer than the cached object or there is none, otherwise the cached object |
| Overlay.BodyIsNotOverlaid | cache/utils.go:14-25 | The body is never taken from the overlay |
| Overlay.ReadYourWrites | cache/cache.go:28-79 | In every sequential run Get is never behind an earlier write, across any evictions and insertions |
| Overlay.MonotoneReads | cache/cache.go:28-79 | In every sequential run the answers for a key never go back |
| Overlay.NextRaises | cache/cache.go:28-79 | Every lock-sized step of concurrent calls keeps the higher version of every key or raises it |
| Overlay.NeverLower | cache/cache.go:28-79 | In every interleaving the higher version of a key never gets lower |
| Overlay.DominatesStores | cache/overlay.go:28-70 | In every interleaving it dominates every write stored so far |
| Overlay.CoversNext | cache/overlay.go:28-70 | The steps that lose a version to the overlay, exactly, and those that regain it |
| Overlay.GetIsBehindExactly | cache/cache.go:28-55 | Whatever happens between its two reads, a Get answers behind what was held when it began iff the overlay was ahead of the cache then, and its entry has been evicted without a store as new as it since |
| Overlay.UndisturbedGetIsFresh | cache/cache.go:28-55 | So a Get during which nothing is taken out for its key is not behind |
| Overlay.DisturbedGetIsStale | cache/cache.go:29-31 | An eviction between its two reads lets Get answer behind a write stored before it began |
| Overlay.VersionOrderExactly | cache/utils.go:9-11 | Comparing versions as strings is numeric for two numerals iff they have equal length or the shorter one is not ahead of the leading digits of the longer one |
| Overlay.TenIsNotNewerThanNine | cache/utils.go:9-11 | From version 9 to version 10 the overlay keeps the older object |
| Index.Base.Add | index/base.go:18-30 | Adds exactly the pair, and says whether it is new |
| Index.Base.Remove | index/base.go:32-42 | Removes exactly the pair, and says whether it was there |
| Index.Base.DeleteObject | index/base.go:44-58 | The deleting loop, changing the rows in place, removes exactly the pairs touching the object and leaves no empty row |
| Index.Base.PurgeRow | index/base.go:49-56 | Its work on one row: the object goes, and the row with its last element |
| Index.Base.Get | index/base.go:60-66 | A new set with the row of the object, or none: changing it changes no index |
| Index.Base.Clear | index/base.go:68-72 | Removes everything |
| Index.ConverseEdits | index/relation.go:17-75 | Adding, removing and purging commute with taking the converse |
| Index.PurgedPairs | index/base.go:44-58 | The purged table stands for the pairs not touching the object |
| Index.UsersUsesConverse | index/relation.go:55-67 | The users of b contain a iff the objects used by a contain b |
| Index.Relation.Add | index/relation.go:17-20 | Keeps the tables converse and adds exactly the edge |
| Index.Relation.Replace | index/relation.go:22-37 | Sets the row of the user to exactly the given targets and nothing else |
| Index.Relation.Remove | index/relation.go:39-45 | Keeps the tables converse and removes exactly the edge |
| Index.Relation.RemoveObject | index/relation.go:47-53 | Removes exactly the edges touching the object |
| Index.Relation.UsedBy | index/relation.go:55-60 | The used objects according to the one set of edges, in a new set |
| Index.Relation.UsersFor | index/relation.go:62-67 | The users according to the same set of edges, in a new set |
| Index.Relation.Clear | index/relation.go:69-75 | Removes all edges |
| Index.ReplacedByDifference | index/relation.go:22-37 | Adding and removing what differs sets exactly the row |
| RelationTables.RelationTable.Add | index/untyped.go:38-43 | Adds the edge to the named relation, which is created if needed; all others are unchanged |
| RelationTables.RelationTable.Replace | index/untyped.go:45-50 | Sets the row in the named relation; all others are unchanged |
| RelationTables.RelationTable.Remove | index/untyped.go:52-57 | Removes the edge from the named relation; an unknown one stays unknown |
| RelationTables.RelationTable.RemoveObject | index/untyped.go:59-68 | Every edge touching the object goes in all relations, and no other one |
| RelationTables.RelationTable.RemoveObjectFrom | index/untyped.go:63-67 | Visiting relations in any order removes every edge touching the object from those visited |
| RelationTables.RelationTable.UsedBy | index/untyped.go:70-75 | The used objects in the named relation in a set that aliases no internal state, none for an unknown relation |
| RelationTables.RelationTable.UsersFor | index/untyped.go:77-83 | The users in the named relation in a set that aliases no internal state, none for an unknown relation |
| RelationTables.RelationTable.Clear | index/untyped.go:85-90 | Empties the named relation but keeps its name |
| RelationTables.RelationTable.IsEmpty | index/untyped.go:32-36 | True iff no relation has ever been named |
| RelationTables.RelationTable.GetRelation | index/untyped.go:92-99 | Gets or creates the relation without adding an edge |
| TypedIndex.Typed.Add | index/typed.go:47-52 | Adds exactly the edge |
| TypedIndex.Typed.Replace | index/typed.go:54-76 | Grouping the targets by kind sets the row in every mentioned kind, in any order |
| TypedIndex.Typed.Remove | index/typed.go:78-83 | Removes exactly the edge, and registers the relation in any case |
| TypedIndex.Typed.RemoveObject | index/typed.go:85-96 | Removes the key from all relations whose users are of the kind of the object |
| TypedIndex.Typed.UsedBy | index/typed.go:113-130 | Exactly the typed objects used by the given one |
| TypedIndex.Typed.UsersFor | index/typed.go:132-151 | Exactly the typed users of the given object, so that both queries are converses in every reachable state |
| TypedIndex.Typed.Clear | index/typed.go:153-164 | Forgets the relation |
| TypedIndex.SingleEditsMean | index/typed.go:47-164 | Add, Remove and Clear change exactly the intended edges |
| TypedIndex.ReplaceMeans | index/typed.go:54-76 | After Replace the row is the new targets plus the old targets of kinds not mentioned |
| TypedIndex.RemoveObjectMeans | index/typed.go:85-96 | Exactly which edges go: those of users of the kind that have the key on either side, whatever the kind of the target |
| TypedIndex.RemovedObjectIsNoUser | index/typed.go:85-96 | No edge leaves a removed object; edges from other kinds still lead to it |
| TypedIndex.RemovalIsConfinedExactly | index/typed.go:85-96 | Removal is confined to the edges of the object iff no edge from its kind leads to another kind under the same key and none leads to it from another kind |
| ClusterIndex.ClusterUntyped.Add | index/clusteruntyped.go:41-50 | Adds the edge, creating the index of the cluster if needed |
| ClusterIndex.ClusterUntyped.Replace | index/clusteruntyped.go:31-39 | Sets the row in a cluster that has an index, and does nothing in another one; answers whether there were or are targets |
| ClusterIndex.ClusterUntyped.Remove | index/clusteruntyped.go:52-60 | Removes the edge in the cluster |
| ClusterIndex.ClusterUntyped.RemoveObject | index/clusteruntyped.go:62-70 | Removes the object in all relations of the cluster; answers true if that changes anything, and false without an index |
| ClusterIndex.ClusterUntyped.UsersFor | index/clusteruntyped.go:72-80 | Exactly the users in the cluster, in a new set |
| ClusterIndex.ClusterUntyped.UsedBy | index/clusteruntyped.go:82-90 | Exactly the used objects in the cluster, in a new set |
| ClusterIndex.ClusterUntyped.Clear | index/clusteruntyped.go:92-104 | Empties the relation and answers true if it had an edge; the index of the cluster stays although the code would drop an empty one |
| ClusterIndex.StepMeansExactly | index/clusteruntyped.go:31-104 | Every operation does what it is meant to, in its own cluster only, iff it does not set targets in a cluster without index |
| ClusterIndex.FirstReplacementIsLost | index/clusteruntyped.go:31-50 | An input for which the replacement is lost, while it is kept after an edge has been added and removed again |
| ClusterIndex.IndicesStay | index/clusteruntyped.go:41-50 | In every run a cluster has an index exactly from its first Add on |
| Owner.CrossClusterRoundTrip | owner/anno.go:65-149 | An annotation for another cluster reads back as written, for any cluster id, slashes included, iff the four fields behind it have no slash |
| Owner.CrossNamespaceRoundTrip | owner/anno.go:65-149 | The same for an annotation within the cluster |
| Owner.ParsedFieldsAreSlashless | owner/anno.go:65-79 | The last four fields of a parsed annotation have no slash |
| Owner.NamesExactly | owner/anno.go:65-149 | An annotation names an owner iff it is the one written for it and the four fields have no slash |
| Owner.Annotation.ForCluster | owner/anno.go:112-114 | Replaces the cluster and keeps the owner |
| Owner.SetOwner | owner/owner.go:52-72 | A local owner becomes the controller, any other one the annotated owner; an error changes nothing |
| Owner.RemoveOwner | owner/owner.go:74-94 | A local owner loses its reference, otherwise any owner annotation goes; an error changes nothing |
| Owner.WrittenOwner | owner/anno.go:65-149 | The format of the annotation: the cluster, unless it is that of the object, and group, kind, namespace and name, with core for the group without name |
| Owner.ControllerExactly | owner/owner.go:52-57 | A local owner is among the references as the controller and no other reference changes; it is refused iff the first controller is another one |
| Owner.RemovedReferenceExactly | owner/owner.go:74-79 | The first reference to a local owner goes and nothing else; it is an error iff there is none |
| Owner.GetOwner | owner/owner.go:96-124 | The first local reference of the kind if the matcher takes the cluster as local, otherwise the annotated owner |
| Owner.ReferenceNames | owner/owner.go:58-71 | The annotation written by SetOwner names the owner in its cluster |
| Owner.SetThenGet | owner/owner.go:52-124 | What GetOwner finds after SetOwner for all clusters, namespaces and matchers: an annotated owner iff the matcher has a name for its cluster, a local owner iff the matcher takes the cluster as local |
| Owner.SetThenRemove | owner/owner.go:52-124 | RemoveOwner takes SetOwner back, and GetOwner finds no owner then |
| Owner.RemovalSparesOthersExactly | owner/owner.go:80-93 | Removing an owner that is not local leaves all other annotated owners alone iff there is no annotation, or it is malformed, or it is the one written for that owner |
| Owner.RemoveThenGet | owner/owner.go:80-124 | After such a removal GetOwner answers as before iff it found no owner or a local one, whichever owner was removed |
| Owner.RemovalOfAnotherOwner | owner/owner.go:52-124 | So an annotated owner that was set and found is gone after the removal of any other owner |
| Owner.LocalMatcherSeesOneCluster | owner/matcher.go:17-27 | With the matcher for a local cluster exactly the owners in that cluster are found |
| Owner.RegisteredOwnerIsFound | owner/matcher.go:7-43 | Between registered clusters every owner set is found under the name of its cluster, with the matcher for one cluster or for a set of clusters |
| Keys.GlobalKeyRoundTrip | types/key.go:31-61 | A global key reads back as written iff no part has a slash |
| Keys.ParsedKeyIsWrittenBack | types/key.go:31-61 | A string read as a global key is the string of that key |
| Keys.KeyFields | types/key.go:111-117 | The fields of the string of a typed key |
| Keys.WrittenKeys | types/key.go:58-117 | How global and typed keys are written |
| Keys.KeyStringExactly | types/key.go:111-117 | Two key strings are equal iff the keys agree on what is written, or only one of them is typed and its kind ends the cluster name of the other one |
| Keys.CoreKindsCollide | types/key.go:113-115 | Kinds of the core group have one string |
| Keys.SlashedClusterCollides | types/key.go:111-117 | With a slash in a cluster name an untyped key may have the string of a typed one |
| Keys.SplitCompose | cluster/fleet/fpi/utils.go:21-42 | Split undoes Compose iff the fleet name has no separator and there is a member name |
| Keys.ComposeExactly | cluster/fleet/fpi/utils.go:21-26 | Without a member the name is that of the fleet; member names extend it and differ for different members |
| Keys.MatchExactly | cluster/fleet/fpi/utils.go:28-34 | A fleet takes its own name and, if its name has no separator, its member names, and nothing else; the nameless one takes every name without separator, too |
| Keys.FleetsAreDisjoint | cluster/fleet/fpi/utils.go:21-26 | Member names of different fleets differ |
| Keys.NormalizedExactly | types/key.go:12-17 | In a cluster whose name has no slash behind a first part, the strings that mean a key with a slash-free cluster are the key itself and, in the cluster of the key, its local form |
| Keys.HeadMisleads | types/key.go:12-17 | For every other cluster name a key and a string that means it although it is neither |
| Lookup.ListInFleet | cluster/fleet/kcp/index.go:51-87 | The loop over the shards returns the results of all queries in order, or an error iff a query fails |
| Lookup.ListInShard | cluster/fleet/kcp/index.go:59-83 | The two queries to one shard with the check of the cluster |
| Lookup.ListInCluster | cluster/cluster/index.go:32-64 | The two queries to one cluster, the second one only for keys of that cluster |
| Lookup.LookupIsFilter | cluster/fleet/kcp/index.go:51-87 | The queries report every object exactly as often as a filter that counts its index values meaning the key, for cluster names without a slash behind a first part and a key with a slash-free cluster |
| Lookup.FleetLookupExactly | cluster/fleet/kcp/index.go:51-87 | Exactly the objects of all shards are found for which NormalizeKeyString turns an index value into the key, under the name of their member |
| Lookup.ClusterLookupExactly | cluster/cluster/index.go:32-64 | The same for a single cluster |
| Lookup.ResultsInOrder | cluster/fleet/kcp/index.go:57-84 | The results come shard by shard, first those for the key itself, then those for its local form |
| Lookup.KeyWithoutClusterFindsTooMuch | cluster/fleet/kcp/index.go:60-65 | Without a cluster in the key this fails for every fleet and key |
| Lookup.SlashedClusterIsMissed | cluster/fleet/kcp/index.go:71-77 | For every cluster name with a slash behind a first part a value that means the key is missed |
| Lookup.LookupAgreesExactly | cluster/fleet/kcp/index.go:51-87 | The lookup agrees with the filter for all objects in a cluster and all keys with a slash-free cluster iff the name of the cluster has no slash behind a first part |
| FieldSets.Complete | merge/ssa.go:166-181 | The restart loop terminates, whatever the iteration order, with the closure of the set |
| FieldSets.ClosureIsLeast | merge/ssa.go:166-181 | The closure is the least superset with all non-empty proper prefixes |
| FieldSets.GetOwnedFields | merge/ssa.go:41-63 | The union of the entries of the manager without the defaulted fields, or an error if one is unreadable |
| FieldSets.Managed | merge/ssa.go:47-57 | The fields in some entry of the manager |
| FieldSets.Updater.RemovedFields | merge/ssa.go:87-108 | The owned fields that are neither desired nor contain a desired one |
| FieldSets.Updater.Update | cluster/updater.go:60-145 | Outcome and remembered fields for every live object and every answer of the API server |
| FieldSets.UpdateAnswers | cluster/updater.go:93-145 | What an update answers after any run, with every error: it is up to date iff the live object has all desired values and nothing that goes; a patch sets the desired values, takes off exactly the fields the manager has set, does not desire and the server has never added, and keeps all other values |
| FieldSets.Updater.Done | cluster/updater.go:147-182 | What the server owns without being desired is added to the remembered fields |
| FieldSets.DefaultedExactly | cluster/updater.go:168-180 | In every run the remembered fields are exactly those the server has added in some call |
| FieldSets.RemovedExactly | merge/ssa.go:106-113 | In every run a managed field is removed iff it is not desired and the server has never added it |
| FieldSets.NothingIsRemovedAgain | cluster/updater.go:168-180 | Once the server has answered a desired set, nothing is removed while managed and desired fields stay, whatever happens in between |
| FieldSets.AddedFieldStays | cluster/updater.go:168-180 | A field the server has added once is never removed any more, even if it was desired for a while |
| NameMapping.Mappings.Add | mapping/mapping.go:12-32 | The name is mapped to the target from now on, to itself if the target is empty, and all other names as before |
| NameMapping.ApplyTo | mapping/mapping.go:34-53 | The composition of the entries; the result is the other argument itself if one is missing, and a new mapping otherwise |
| NameMapping.ComposedMaps | mapping/mapping.go:16-53 | A name mapped by the added mapping is mapped by it alone, any other one by both in turn, where an empty target of the first one is taken for a name |
| NameMapping.ComposedExactly | mapping/mapping.go:16-53 | The result is one mapping after the other iff the added one maps no name differently from what the first one makes of it, and no empty target is taken for a name |
| NameMapping.AssociativeExactly | mapping/mapping.go:34-53 | Where composing three mappings, empty targets included, in one order or the other makes the same of a name |
| NameMapping.CompositionIsNotAssociative | mapping/mapping.go:34-53 | Three mappings for which it does not |

## Left out

- Calls into Kubernetes, controller-runtime, multicluster-runtime, CEL and structured-merge-diff: API servers, caches,
  cluster creation and typed objects are parameters or abstract state; field paths are sequences of names.
- Locking: every method holding a lock is one step. The fast path of ForResource
  (controller/replication/mapping.go:64-68) returns without releasing its read lock; here it is an atomic
  get-or-create.
- Logging, flags, option lifecycle, health checks, builders, queue adapters, enqueue multiplexers, TLS and metrics
  options, kubeconfig rules, generics and reflection, and examples/statemonad: nothing or only easy members to prove.
- controller/utils.go (CompleteSet): its result depends on the map order and its recursion can diverge on cyclic
  groups.
- ParseTypedGlobalKey (types/key.go:72-90): five fields against the Kind.group form of AsKey, so there is no round
  trip.
- FallbackLoop.Definitions.Validate: does not model the error of ValidateSet and the swallowed error of NewCluster;
  Create of a definition has one fixed outcome, and fleets have no registered members during validation. Declared
  names that start with the member separator are excluded. Where the loop does not end there is no result to speak
  about.
- Activation.GetActivation: does not model the parsing of flags and the validation of given names; a nil member list
  is a missing entry, and the member list of "all" is never nil: without any declared name there is no option to give.
- Constraints.Match: error texts are reduced to what they name.
- ReplicateSafety.RunInv: covers one resource kind and one source cluster, with an injective abstract naming of
  namespaces in place of SHA-256, users who leave the finalizer of the controller alone, fresh reads and no restarts
  (ReplicateIncidents adds both), distinct source and target clusters and an empty target at the start; object
  contents, owners and status are not copied.
- Overlay.WriteThroughCache.Get: models of copyInto only that version and metadata are copied and the body is not;
  server-side deletes are not intercepted by the code and not part of the runs.
- TypedIndex.Typed.Add: the three map levels are one table over triples, with the users kinds of each relation name
  beside it. UsedByKind and UsersForKind, which query one slot, are left out.
- ClusterIndex.ClusterUntyped.RemoveObject: what it answers when nothing changes is left open, as it depends on empty
  rows kept by the tables.
- ClusterIndex.ClusterUntyped.Clear: the same.
- ClusterIndex.ClusterUntyped.Add: the indices of all clusters are parts of one table.
- Owner.GetOwner: scheme lookups do not fail, and the API version of a reference is reduced to its group. GetOwners
  and the indexers built on it are left out.
- Lookup.ListInFleet: further list options are left out; the work on one shard is a method of its own.
- FieldSets.Updater.Update: objects are maps from leaf fields to values, without the order of lists; decoding and
  modifying the manifest, and an unreadable desired object, whose error GetInfo drops, are left out.
- NameMapping.ApplyTo: the three mappings of a controller, composed one by one, are left out.
