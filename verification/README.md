# ClusterLoader2: a verified model of its algorithms and event handling

ClusterLoader2 drives load against a Kubernetes cluster and measures it. Most of it talks to a
cluster; the parts modelled here are the ones that decide something by themselves:

- **Pairing worker pods across nodes** (`NodeHeap.dfy`, `PodPairing.dfy`): a greedy loop over a heap
  of nodes. Proved optimal: no set of disjoint cross-node pairs is larger than the one it forms.
- **Waiting for controlled pods** (`CheckerMap.dfy`, `ControlledPodsWait.dfy`,
  `ControlledPodsBarrier.dfy`, `ControlledPodsMeasurement.dfy`): an event handler that keeps one
  checker per object, and a `gather` that passes a barrier and counts. Proved over every stream of
  events: what a passed barrier says about the listed objects, and what a success says.
- **The index of pods by controller** (`ControlledPodsIndexer.dfy`): ReplicaSets outlive their
  deletion while pods still refer to them, under every interleaving of stores and notifications.
- **The template caches** (`TemplateProvider.dfy`): two double-checked caches under two read-write
  locks, one statement of one thread at a time.
- **Latency percentiles** (`Latency.dfy`, `PhaseLatency.dfy`): nearest rank, and what a percentile
  of all pods has to do with those of two parts of them.
- **Pod tallies and the pod wait loop** (`Pods.dfy`, `WaitForPods.dfy`).
- **Node killing** (`NodeKiller.dfy`): picking in place, and whole runs of rounds, restarts and
  goroutines.
- **Configuration, tuning sets and pacing** (`Validation.dfy`, `TuningSets.dfy`, `Pacing.dfy`).
- **Resource versions** (`ResourceVersions.dfy`).

`Options.dfy`, `Basics.dfy` and `Sets.dfy` hold what several modules share. `dafny verify dfyconfig.toml` checks
the project.

## How the model is built

Code that changes state is a class with the source's fields, and its methods are proved against
functions on values; code that only computes is functions. What the proofs are about are those
functions: runs are sequences of steps over values, and the class methods are shown to take exactly
those steps. Concurrency is a choice of which step comes next. A list the source holds in a slice is
a `seq` field, so sharing of backing arrays is not captured; the filter of `pickNodes`, which works
in place on purpose, keeps its array. Reads of the cluster, the clock, random numbers and file
access are parameters. Integers are unbounded except where the width matters: durations saturate in
`PhaseLatency.Sub` and versions are 64 bits in `ResourceVersions`.

What is taken from the environment:

- **Events** (`ControlledPodsBarrier.ValidFeed`): first one snapshot in any order, then the later
  changes in increasing resource version; the old object of an event is the one stored before, and a
  deletion may report an older version than its own. Specs of one object and nothing compare as
  different. One start up to its Dispose is looked at. For the end-to-end result no event is handled
  between the poll that passes the barrier and the count, which the source itself accepts
  (pkg/measurement/common/wait_for_controlled_pods.go:305-307); waits may end in between.
- **ReplicaSet notifications** (`ControlledPodsIndexers.WellOrdered`): per UID one add, updates, one
  delete; UIDs are not empty and not reused; deletions carry the object. The pod store changes before
  its notifications arrive, at any time.
- **Files** do not change; a read may fail at any time.
- **Listed nodes** are distinct. A stop of the chaos monkey comes just after a start: any other would
  close a channel that is closed or missing.

Where the code does not do all that is said or expected of it, the model follows the code. Each such
case has an input that shows it and the exact condition for it:

- A comment (pkg/measurement/common/wait_for_controlled_pods.go:406-409) says that an event not
  handled correctly shows up as a wrong number of running objects. It need not. A deletion whose spec
  cannot be read drops the key but leaves the checker, which can then stand in for a missing one
  (`ControlledPodsWait.StaleCheckerFalseSuccess`); a success is a true one exactly when no checker of
  an unlisted key is counted (`ControlledPodsWait.SuccessIsTrueIff`). And an update whose spec cannot
  be read leaves the checker of an earlier spec, which then counts for a later one
  (`ControlledPodsBarrier.OutdatedSuccess`); the spec seen running is the one last handled exactly when
  that did not happen, or the spec came back to the same
  (`ControlledPodsBarrier.SuccessMeansRunning`).
- A ReplicaSet can leave the index while a pod of it is stored: the pod store changes without the
  index's lock between the check for pods and the removal
  (`ControlledPodsIndexers.LatePodLosesReplicaSet`). It does exactly when a pod stored under it in that
  window is still there (`ControlledPodsIndexers.LeavesOnlyWhenDone`).
- The pairing loop has an error branch for a node without pods. Lists filled by `addPodWorker` never
  take it (`PodPairing.CollectedNeverErrs`); other lists do exactly when two nodes are empty, or one is
  and a pod is left over (`PodPairing.ErrorFreeIff`), as one pod and an empty node do
  (`PodPairing.EmptyNodeMeetsPod`), and lose pods exactly as `PodPairing.LostPods` says.
- A chaos monkey started again before it was stopped leaves two killers with one unguarded set of
  killed nodes, and a node can be stopped twice (`NodeKillers.KilledTwice`). Nodes are stopped at most
  once exactly when no start comes before the stop of the one before (`NodeKillers.NeverTwiceIff`).
- Setting the version that Get returned changes the state when Get reported a miss
  (`ResourceVersions.SettingMissedZero`), and only then (`ResourceVersions.SettingGotIsNoOpIff`).
- The `Unknown` counter and the `Unknown` status differ on a pod in no standard phase
  (`Pods.UnknownUncounted`); `Pods.UnknownAgreesIff` says exactly when they agree.
- A valid configuration may have a phase that names no tuning set, which then cannot be created
  (`Validation.AcceptedWithoutTuningSet`); `Validation.AcceptedRunsIff` says exactly when.

## Model

| member | source | states |
|---|---|---|
| `NodeHeaps.DownStep` | pkg/measurement/common/network/worker_pod_info.go:35-41 | swapping an out-of-order node with the fuller of its children moves the only disorder of the heap one level down |
| `NodeHeaps.UpStep` | pkg/measurement/common/network/worker_pod_info.go:35-41 | swapping a node with its emptier parent moves the only disorder one level up |
| `NodeHeaps.RootIsFullest` | pkg/measurement/common/network/worker_pod_info.go:35-37 | in an ordered heap no node has more pods than the one at the root |
| `NodeHeaps.NodeHeap.Swap` | pkg/measurement/common/network/worker_pod_info.go:39-41 | exchanges two entries and keeps the multiset of entries |
| `NodeHeaps.NodeHeap.Init` | pkg/measurement/common/network/worker_pod_info.go:102 | any entries become a heap of the same entries |
| `NodeHeaps.NodeHeap.Push` | pkg/measurement/common/network/worker_pod_info.go:106-111 | a heap stays a heap and gains exactly the pushed entry |
| `NodeHeaps.NodeHeap.Pop` | pkg/measurement/common/network/worker_pod_info.go:104-105 | a heap stays a heap, loses exactly the returned entry, and that entry has the most pods of all |
| `PodPairing.NoLargerPairing` | pkg/measurement/common/network/worker_pod_info.go:96-122 | no set of disjoint cross-node pairs over the pods has more than min(T/2, T-M) pairs, for T pods in all and M on the fullest node |
| `PodPairing.BestPairCountIsTight` | pkg/measurement/common/network/worker_pod_info.go:96-122 | twice that bound plus max(T mod 2, 2M-T) is T, and the latter is never negative |
| `PodPairing.LeftoverKept` | pkg/measurement/common/network/worker_pod_info.go:103-114 | taking one pod from each of the two fullest nodes keeps max(T mod 2, 2M-T) |
| `PodPairing.IterationAgrees` | pkg/measurement/common/network/worker_pod_info.go:103-114 | the two nodes popped differ, and after the pushes every heap count is again its node's list length |
| `PodPairing.IterationShrinks` | pkg/measurement/common/network/worker_pod_info.go:103-120 | an iteration takes exactly two pods if both nodes have any, one if only the fuller does, else none, which is why the loop ends |
| `PodPairing.Iteration` | pkg/measurement/common/network/worker_pod_info.go:103-120 | one iteration keeps the whole invariant: a valid pairing so far, every pod accounted for, heap and lists in agreement, leftover unchanged, pairs reported in order |
| `PodPairing.PopTwoFullest` | pkg/measurement/common/network/worker_pod_info.go:104-111 | pops the two fullest nodes and pushes back what is left of them |
| `PodPairing.WorkerPodInfo.AddPodWorker` | pkg/measurement/common/network/network_performance_measurement.go:343-348 | appends the pod to its own node's list only, and keeps lists non-empty and pods under their own node |
| `PodPairing.WorkerPodInfo.Pop` | pkg/measurement/common/network/worker_pod_info.go:124-136 | returns and removes a node's last pod; a node found empty is forgotten and yields an error |
| `PodPairing.WorkerPodInfo.NodeEntries` | pkg/measurement/common/network/worker_pod_info.go:97-101 | one entry per node, each with its list's length |
| `PodPairing.WorkerPodInfo.TakePair` | pkg/measurement/common/network/worker_pod_info.go:113-119 | takes a pod of each node and pairs them, each with its own name and address, unless either had none |
| `PodPairing.WorkerPodInfo.FormUniquePodPair` | pkg/measurement/common/network/worker_pod_info.go:82-122 | for any lists: exactly min(T/2, T-M) pairs, each across two nodes and numbered by its position, with name and address of the source from the one drawn pod and of the destination from the other; no pod used twice; used, lost and remaining pods are the initial ones; as many lost as min(leftover, empty nodes); and the iterations behind it, each popping the two fullest nodes |
| `PodPairing.PairedIsOptimal` | pkg/measurement/common/network/worker_pod_info.go:96-122 | no other pairing of the same pods is larger than the one formed |
| `PodPairing.LostPods` | pkg/measurement/common/network/worker_pod_info.go:113-118 | pods are lost to the error branch if and only if some node had an empty list and not all pods could be paired |
| `PodPairing.CollectedCrossNodes` | pkg/measurement/common/network/worker_pod_info.go:113-119 | on collected lists the two pods of a pair name different worker nodes |
| `PodPairing.CollectedKeepsPods` | pkg/measurement/common/network/worker_pod_info.go:113-122 | on collected lists no pod is lost: used and remaining pods are disjoint and make up the initial ones |
| `PodPairing.IterationsKeep` | pkg/measurement/common/network/worker_pod_info.go:103-120 | after any number of iterations, replayed from the nodes popped, the loop's invariant holds |
| `PodPairing.DrawOfIteration` | pkg/measurement/common/network/worker_pod_info.go:113-119 | the n-th pair is that of the n-th iteration: its source is the last pod left on the fuller node popped, its destination that of the other |
| `PodPairing.FiguresAfter` | pkg/measurement/common/network/worker_pod_info.go:103-120 | an iteration without error takes two pods and keeps the leftover and the empty nodes; one with an error has two empty nodes, or one and pods left over |
| `PodPairing.ErrorFreeIff` | pkg/measurement/common/network/worker_pod_info.go:113-118 | over a whole run the error branch is never taken if and only if no node began empty, or a single one did and no pod is left over; then there are as many iterations as pairs and each finds exactly two pods fewer |
| `PodPairing.EmptyNodeMeetsPod` | pkg/measurement/common/network/worker_pod_info.go:113-118 | with one pod on one node and none on another the error branch is taken and the pod is left over |
| `PodPairing.CollectedNeverErrs` | pkg/measurement/common/network/worker_pod_info.go:113-118 | on collected lists no iteration of a run takes the error branch |
| `CheckerMaps.OneRunningCheckerPerKey` | pkg/measurement/util/checker/checker_map.go:41-56 | where the checkers not stopped are exactly the current entries, at most one unstopped checker exists per key |
| `CheckerMaps.AddedKeepsOwned` | pkg/measurement/util/checker/checker_map.go:41-46 | adding keeps that: the checker it replaces is stopped |
| `CheckerMaps.RemovedKeepsOwned` | pkg/measurement/util/checker/checker_map.go:49-56 | deleting keeps it too |
| `CheckerMaps.CheckerMap.Add` | pkg/measurement/util/checker/checker_map.go:41-46 | the new checker becomes the entry of its key, a former entry is stopped, all other checkers stay as they were |
| `CheckerMaps.CheckerMap.DeleteAndStop` | pkg/measurement/util/checker/checker_map.go:49-56 | stops and removes the key's entry if there is one, and says whether there was |
| `ControlledPodsWait.RunOwnsCheckers` | pkg/measurement/common/wait_for_controlled_pods.go:450-486 | after any run of events and finished waits a checker ever created is stopped if and only if it is not the current entry of its key |
| `ControlledPodsWait.RunStatusesSound` | pkg/measurement/common/wait_for_controlled_pods.go:567-653 | after any run the status of every checker suits its object: only those of existing objects are running or timed out, only those of deleted ones report a deletion or its timeout |
| `ControlledPodsWait.StatusTellsEnding` | pkg/measurement/common/wait_for_controlled_pods.go:601-651 | after any run a checker's status is unknown if and only if its wait has not ended; otherwise it tells how the wait ended last: running or deleted for a success, failed for an error, timeout or deletion timeout for a deadline, by whether the object was deleted |
| `ControlledPodsWait.ComparisonMeans` | pkg/measurement/common/wait_for_controlled_pods.go:436-444 | specs cannot be compared if and only if one there is cannot be read, and are the same if and only if both objects are missing or the specs are equal |
| `ControlledPodsWait.HandleKeepsTrackedIff` | pkg/measurement/common/wait_for_controlled_pods.go:410-456 | handling an event keeps "the key of a checker of an existing object is known" if and only if it is not a deletion with unreadable spec of an object that has such a checker |
| `ControlledPodsWait.RunTracksKeys` | pkg/measurement/common/wait_for_controlled_pods.go:410-518 | so after any run of orderly events, whether or not checkers could be created, every checker of an existing object has its key known |
| `ControlledPodsWait.TallySucceedsIff` | pkg/measurement/common/wait_for_controlled_pods.go:330-385 | if every running checker's key is expected, the count succeeds if and only if every expected key's checker is running and none timed out, failed or is undecided |
| `ControlledPodsWait.TallyMeans` | pkg/measurement/common/wait_for_controlled_pods.go:360-385 | each verdict of the count, with its number, if and only if the statuses call for it and for none that comes before it: unknown, timed out, wrong number, failed, success |
| `ControlledPodsWait.GatherSucceedsIff` | pkg/measurement/common/wait_for_controlled_pods.go:287-386 | after any run of orderly events gather succeeds if and only if the barrier has been passed and every listed key has a running checker, with no timeout, failure or unknown status |
| `ControlledPodsWait.StaleCheckerFalseSuccess` | pkg/measurement/common/wait_for_controlled_pods.go:436-440 | a run in which a deletion with unreadable spec makes gather succeed although the one listed object has no checker |
| `ControlledPodsWait.SuccessIsTrueIff` | pkg/measurement/common/wait_for_controlled_pods.go:330-385 | after any run at all, a success of gather is a true one if and only if no checker of an unlisted key is counted as running |
| `ControlledPodsWait.PolledIsGathered` | pkg/measurement/common/wait_for_controlled_pods.go:313-323 | polling until the barrier passes and then waiting for the checkers, with no event handled meanwhile, comes to looking at barrier and checkers once at the end |
| `ControlledPodsBarrier.StoredLater` | pkg/measurement/common/wait_for_controlled_pods.go:297-316 | an object stored later is either newer than everything at an earlier moment or was already stored unchanged then |
| `ControlledPodsBarrier.CacheOfFeed` | pkg/measurement/common/wait_for_controlled_pods.go:488-529 | after any prefix of the feed the known keys are exactly those fed and the version is none beyond the changes fed |
| `ControlledPodsBarrier.VersionReached` | pkg/measurement/common/wait_for_controlled_pods.go:430-444 | after any prefix of the feed the version is at least that of every object the handler has been told of, also where no spec changed |
| `ControlledPodsBarrier.LastEventOfFeed` | pkg/measurement/common/wait_for_controlled_pods.go:488-518 | every known key has a last event about it, and that event left the object as stored after the changes fed |
| `ControlledPodsBarrier.RunCache` | pkg/measurement/common/wait_for_controlled_pods.go:430-434 | finished waits do not touch the keys and version: they depend on the events alone |
| `ControlledPodsBarrier.BarrierSound` | pkg/measurement/common/wait_for_controlled_pods.go:313-317 | in every run, once the barrier is passed the handler's last event about each listed object was at the listed version or a later one |
| `ControlledPodsBarrier.BarrierPasses` | pkg/measurement/common/wait_for_controlled_pods.go:313-317 | in every run, once the handler has been fed the snapshot and the changes up to a complete listing, the barrier passes |
| `ControlledPodsBarrier.RunRegisters` | pkg/measurement/common/wait_for_controlled_pods.go:436-474 | after any run, whatever the events, whether a key has a checker, for which spec and whether for a deletion is determined by the events alone |
| `ControlledPodsBarrier.HandleKeepsCurrentIff` | pkg/measurement/common/wait_for_controlled_pods.go:436-444 | a checker that is for the spec last fed stays so if and only if the event is not about its object or its specs can be compared |
| `ControlledPodsBarrier.AwaitedSpec` | pkg/measurement/common/wait_for_controlled_pods.go:436-474 | with readable deletions a checker that awaits pods awaits those of the spec last found to differ, even where checkers could not be created |
| `ControlledPodsBarrier.ComparedSpec` | pkg/measurement/common/wait_for_controlled_pods.go:436-444 | if every event about a key since could be compared, the stored spec is still that one |
| `ControlledPodsBarrier.ReadableNeverOutdated` | pkg/measurement/common/wait_for_controlled_pods.go:436-440 | if all specs of an object are readable, all events about it can be compared |
| `ControlledPodsBarrier.OutdatedSuccess` | pkg/measurement/common/wait_for_controlled_pods.go:436-440 | a feed with one unreadable update on which gather succeeds although the pods seen running are those of the old spec |
| `ControlledPodsBarrier.FeedIsOrderly` | pkg/measurement/common/wait_for_controlled_pods.go:410-456 | the events of a feed are orderly if and only if the specs of its deletions are readable |
| `ControlledPodsBarrier.SuccessMeansRunning` | pkg/measurement/common/wait_for_controlled_pods.go:287-386 | end to end, with readable deletions: if gather succeeds, each listed object was handled at its listed version or a later one, and the wait for the pods of the spec last found to differ has ended with success; that is the spec last handled if and only if no event since was incomparable or the spec is the same again |
| `ControlledPodsMeasurement.Measurement.HandleObject` | pkg/measurement/common/wait_for_controlled_pods.go:410-456 | the measurement takes exactly the modelled step: checkers change only on a spec change while running, keys and version on every event |
| `ControlledPodsMeasurement.Measurement.HandleObjectLocked` | pkg/measurement/common/wait_for_controlled_pods.go:458-474 | one more checker for the new object, or for the old one if deleted, unless its key or checker cannot be made |
| `ControlledPodsMeasurement.Measurement.DeleteObjectLocked` | pkg/measurement/common/wait_for_controlled_pods.go:476-486 | the old object's checker, if any, is stopped and forgotten |
| `ControlledPodsMeasurement.Measurement.FinishWait` | pkg/measurement/common/wait_for_controlled_pods.go:567-653 | a finished wait decides its own checker's status, by outcome and by whether the object was deleted |
| `ControlledPodsMeasurement.Measurement.UpdateCacheLocked` | pkg/measurement/common/wait_for_controlled_pods.go:488-518 | the old key goes, the new key comes, and the version takes in both objects |
| `ControlledPodsMeasurement.Measurement.GetObjectKeysAndMaxVersion` | pkg/measurement/common/wait_for_controlled_pods.go:533-565 | the keys of the readable objects, and the newest of their versions |
| `ControlledPodsMeasurement.Measurement.Gather` | pkg/measurement/common/wait_for_controlled_pods.go:287-386 | not started if and only if not running; timed out if and only if no poll finds exactly the listed keys and no listed version ahead; else the verdict on the checkers there are once all waits are over |
| `ControlledPodsMeasurement.Tally` | pkg/measurement/common/wait_for_controlled_pods.go:330-385 | counting checker by checker in any order gives the verdict by numbers of keys per status, with the source's order of precedence |
| `ControlledPodsIndexers.UndisturbedClearing` | pkg/measurement/util/controlled_pods_indexer.go:170-192 | the two steps of clearing, with nothing in between, are what the handler computes |
| `ControlledPodsIndexers.NextKeepsPhases` | pkg/measurement/util/controlled_pods_indexer.go:91-142 | every action keeps: a ReplicaSet is indexed exactly while it lives, is pending or is being removed, and only deleted ones are pending |
| `ControlledPodsIndexers.NextKeepsReasons` | pkg/measurement/util/controlled_pods_indexer.go:91-142 | every action keeps: a pending ReplicaSet still has pods, or a pod notification on its way that will check again |
| `ControlledPodsIndexers.CheckBefore` | pkg/measurement/util/controlled_pods_indexer.go:170-192 | in every interleaving a removal under way goes back to a check that found no pod of the ReplicaSet |
| `ControlledPodsIndexers.StoredSinceCheck` | pkg/measurement/util/controlled_pods_indexer.go:170-192 | in every interleaving a pod under a ReplicaSet during its removal was stored, as it is, after the check |
| `ControlledPodsIndexers.RunKeepsInvariant` | pkg/measurement/util/controlled_pods_indexer.go:75-192 | all of that holds at every point of every interleaving |
| `ControlledPodsIndexers.LeavesOnlyWhenDone` | pkg/measurement/util/controlled_pods_indexer.go:170-192 | in every interleaving pending ReplicaSets are indexed, and one leaves the index only after its deletion was handled and a check found no pod of it; it leaves a pod behind if and only if one stored under it between check and removal is still there |
| `ControlledPodsIndexers.LatePodLosesReplicaSet` | pkg/measurement/util/controlled_pods_indexer.go:170-192 | an interleaving in which a pod stored after the check loses its ReplicaSet |
| `ControlledPodsIndexers.DrainedHoldsNoneBack` | pkg/measurement/util/controlled_pods_indexer.go:91-142 | once both queues are drained every indexed ReplicaSet is alive or still has pods |
| `ControlledPodsIndexers.HeldBackWhilePodsRemain` | pkg/measurement/util/controlled_pods_indexer.go:80-142 | a ReplicaSet that is indexed and not being removed stays so for as long as it has pods, deleted or not |
| `ControlledPodsIndexers.HeldBackPodsAreFound` | pkg/measurement/util/controlled_pods_indexer.go:212-265 | so a scan for the Deployment finds the pods of a ReplicaSet held back |
| `ControlledPodsIndexers.ControlledPodsIndexer.OnPodUpdate` | pkg/measurement/util/controlled_pods_indexer.go:93-105 | clears the old owner if possible, when the owner changed |
| `ControlledPodsIndexers.ControlledPodsIndexer.OnPodDelete` | pkg/measurement/util/controlled_pods_indexer.go:106-114 | clears the owner if possible |
| `ControlledPodsIndexers.ControlledPodsIndexer.OnReplicaSetDelete` | pkg/measurement/util/controlled_pods_indexer.go:132-140 | makes the ReplicaSet pending and clears it if possible |
| `ControlledPodsIndexers.ControlledPodsIndexer.ClearRSDataIfPossible` | pkg/measurement/util/controlled_pods_indexer.go:170-192 | forgets a ReplicaSet exactly when it is pending and no stored pod is controlled by it |
| `ControlledPodsIndexers.ControlledPodsIndexer.AppendPodsControlledBy` | pkg/measurement/util/controlled_pods_indexer.go:251-265 | keeps the given pods and adds, once each, exactly the pods a scan of the store finds for the UID |
| `ControlledPodsIndexers.ControlledPodsIndexer.PodsControlledBy` | pkg/measurement/util/controlled_pods_indexer.go:212-249 | returns, once each, exactly the pods that were stored under an owner when that one was looked up, the owners being those indexed at the start; the store may change between lookups |
| `ControlledPodsIndexers.QuietLookup` | pkg/measurement/util/controlled_pods_indexer.go:212-265 | while nothing changes a pod is found if and only if it is stored and its controller is the object itself or, for a Deployment, an indexed ReplicaSet that the Deployment controls |
| `ControlledPodsIndexers.SteadyPodIsFound` | pkg/measurement/util/controlled_pods_indexer.go:240-265 | while pods change, one that stays as it is under an owner is found all the same |
| `TemplateProviders.NextKeepsExclusive` | pkg/config/template_provider.go:61-122 | every step keeps each lock held by one writer or by readers only |
| `TemplateProviders.NextKeepsRight` | pkg/config/template_provider.go:61-122 | every step keeps both caches right and what each thread relies on, such as that a path found uncached under the write lock stays so |
| `TemplateProviders.NextKeepsCounts` | pkg/config/template_provider.go:61-122 | every step keeps: a file was read once if its content is cached or about to be, else never; likewise for parsing |
| `TemplateProviders.RunKeepsInvariant` | pkg/config/template_provider.go:61-122 | all of that holds at every point of every interleaving of any number of calls |
| `TemplateProviders.ReturnedResultsAreRight` | pkg/config/template_provider.go:61-122 | in every interleaving a successful getRaw returns the file's content and a successful getRawTemplate its parse, each the one that is cached, and an error has behind it a read that could not succeed or a content that does not parse |
| `TemplateProviders.ReadAndParsedOnce` | pkg/config/template_provider.go:61-122 | in every interleaving each path is successfully read at most once and parsed at most once |
| `TemplateProviders.CachedForGood` | pkg/config/template_provider.go:61-122 | a cached entry is there, unchanged, ever after |
| `TemplateProviders.SomeCallMoves` | pkg/config/template_provider.go:61-122 | while some call has not returned, some call can take a step, because the template lock is taken before the bin lock |
| `TemplateProviders.EveryCallReturns` | pkg/config/template_provider.go:61-122 | a run takes at most 18 steps per call, and where no step is left every call has returned |
| `TemplateProviders.TemplateProvider.GetRaw` | pkg/config/template_provider.go:61-80 | succeeds exactly when cached or readable, returns the content and caches it; a failure changes nothing |
| `TemplateProviders.TemplateProvider.GetRawTemplate` | pkg/config/template_provider.go:99-122 | returns the content's parse and caches it, or fails for an unreadable file or an unparsable content and caches no template |
| `Latency.NearestRankIsUnique` | pkg/measurement/util/latency_metric.go:108-119 | there is only one least sampled latency that p percent of the samples do not exceed |
| `Latency.NearestRankGrows` | pkg/measurement/util/latency_metric.go:108-119 | a higher percentile is no smaller |
| `Latency.RankedDatum` | pkg/measurement/util/latency_metric.go:115-117 | the index ceil(n*p/100)-1 is in range, and the sorted latency there is the least sampled one that p percent of the samples do not exceed |
| `Latency.NewLatencyMetricIsNearestRank` | pkg/measurement/util/latency_metric.go:108-119 | all three percentiles of a metric are nearest ranks of the samples, and zero without samples |
| `Latency.MetricOrdered` | pkg/measurement/util/latency_metric.go:108-119 | for non-negative samples 0 <= Perc50 <= Perc90 <= Perc99 |
| `Latency.MetricIsUnique` | pkg/measurement/util/latency_metric.go:108-119 | samples determine their metric, whatever order they were collected in |
| `Latency.UnionBetween` | pkg/measurement/common/slos/pod_startup_latency.go:254-287 | a percentile of samples in two parts lies between the two parts' percentiles |
| `Latency.UnionMetric` | pkg/measurement/common/slos/pod_startup_latency.go:254-287 | so do all three of a metric; if a part is empty the metric is the other part's |
| `Latency.VerdictMeans` | pkg/measurement/util/latency_metric.go:63-74 | the check passes if and only if no percentile exceeds its threshold, and otherwise names the lowest that does |
| `Latency.UnionViolation` | pkg/measurement/common/slos/pod_startup_latency.go:254-287 | if a percentile of the whole exceeds its threshold, so does one of a part |
| `PhaseLatency.Sort` | pkg/measurement/util/phase_latency.go:149 | the same data, in order of latency |
| `PhaseLatency.SampleMeans` | pkg/measurement/util/phase_latency.go:124-146 | a key is sampled if and only if it matches and has both phases; its latency leads from the first phase to the second, is zero if that lies in the past, and saturates at the longest duration |
| `PhaseLatency.ObjectTransitionTimes.Set` | pkg/measurement/util/phase_latency.go:76-83 | one phase time of one key changes and all others stay |
| `PhaseLatency.ObjectTransitionTimes.Get` | pkg/measurement/util/phase_latency.go:86-94 | the time if the key has that phase, otherwise nothing |
| `PhaseLatency.ObjectTransitionTimes.Count` | pkg/measurement/util/phase_latency.go:97-107 | the number of keys that have the phase |
| `PhaseLatency.ObjectTransitionTimes.Lags` | pkg/measurement/util/phase_latency.go:122-147 | one latency for each matching key with both phases, never negative, and no other |
| `PhaseLatency.ObjectTransitionTimes.CalculateTransitionsLatency` | pkg/measurement/util/phase_latency.go:117-155 | a metric for every transition, whose percentiles are the nearest ranks of its samples |
| `PhaseLatency.ReportedMetricOrdered` | pkg/measurement/util/phase_latency.go:117-155 | every reported metric has 0 <= Perc50 <= Perc90 <= Perc99, for any table and filter |
| `PhaseLatency.FiltersMean` | pkg/measurement/util/pods_metadata.go:58-69 | stateless are exactly the pods marked so, stateful all others, marked or unknown |
| `PhaseLatency.FiltersSplit` | pkg/measurement/util/pods_metadata.go:58-69 | the stateless and the stateful filter split the samples of all pods in two, for any marks |
| `PhaseLatency.CombinedCheckAddsNothing` | pkg/measurement/common/slos/pod_startup_latency.go:254-287 | if the stateless and the stateful check pass, so does the combined one |
| `PhaseLatency.GatherChecks` | pkg/measurement/common/slos/pod_startup_latency.go:254-287 | no error if and only if no percentile of any of the three checks exceeds its threshold; otherwise the error names the lowest percentile that does in the stateful check or, if there is none, in the stateless one |
| `Pods.ComputePodStatus` | pkg/measurement/util/pods.go:74-102 | the loop over conditions gives the classification by deletion, phase, readiness and node |
| `Pods.StatusMeans` | pkg/measurement/util/pods.go:74-102 | each status if and only if the pod is so: by deletion, phase, a true Ready condition and a node |
| `Pods.ComputePodsStartupStatus` | pkg/measurement/util/pods.go:106-155 | every counter is the number of pods of its class; Created and Terminating add up to all pods; the error kept is the last one |
| `Pods.CountIsSize` | pkg/measurement/util/pods.go:110-153 | a counter is the size of the set of listed pods of its class |
| `Pods.ClassesMean` | pkg/measurement/util/pods.go:127-152 | the classes beside the statuses: running and without update error, in phase Unknown, on a node |
| `Pods.LastErrorMeans` | pkg/measurement/util/pods.go:127-135 | the error kept is that of the last listed pod that runs but is not updated, none if there is no such pod |
| `Pods.UnknownAgreesIff` | pkg/measurement/util/pods.go:139-149 | the Unknown counter never exceeds the number of pods of status Unknown, and equals it if and only if every pod not being deleted is in one of the five standard phases |
| `Pods.UnknownUncounted` | pkg/measurement/util/pods.go:147-149 | a pod in no standard phase has status Unknown and is in no counter of it |
| `Pods.StatusesPartition` | pkg/measurement/util/pods.go:74-102 | every pod has exactly one status: the seven counts add up |
| `Pods.ComputePodsStatus` | pkg/measurement/util/pods.go:264-278 | one entry per pod, in order, with its name, namespace, phase, node and status |
| `Pods.UnreadyMembers` | pkg/measurement/util/pods.go:285-297 | an entry is reported if and only if it is listed and its status is not RunningAndReady |
| `Pods.UnreadySplits` | pkg/measurement/util/pods.go:285-297 | splitting a list splits the reported entries, so their order and number are kept |
| `Pods.NotRunningAndReady` | pkg/measurement/util/pods.go:285-297 | those entries, in order and as often as listed |
| `WaitForPods.AllUpByCounts` | pkg/measurement/util/wait_for_pods.go:126-128 | the equalities of counters hold if and only if every pod is inactive or running, ready and updated |
| `WaitForPods.LaggingCount` | pkg/measurement/util/wait_for_pods.go:131-133 | inactive, running-and-updated and all other pods make up the listing |
| `WaitForPods.MarginExitBounds` | pkg/measurement/util/wait_for_pods.go:131-133 | the margin exit means at most desired+margin pods listed and at most margin active pods not running and updated |
| `WaitForPods.ExitsMean` | pkg/measurement/util/wait_for_pods.go:126-133 | the two exits in numbers of pods: all, inactive, and running, ready and updated |
| `WaitForPods.CheckListing` | pkg/measurement/util/wait_for_pods.go:107-133 | the tests on counters decide exactly whether one of the two exits, stated pod by pod, applies |
| `WaitForPods.WaitForPods` | pkg/measurement/util/wait_for_pods.go:59-138 | the loop's outcome is that of the first deciding tick, starting from the first listing |
| `WaitForPods.StillWaitingIff` | pkg/measurement/util/wait_for_pods.go:73-136 | the wait goes on if and only if every tick so far was a listing that meets no exit |
| `WaitForPods.DecidedByFirst` | pkg/measurement/util/wait_for_pods.go:73-136 | success is due to a listing that meets an exit, no earlier one having done so; a timeout or cancellation returns exactly the pods of the last listing that are not RunningAndReady, in order |
| `NodeKillers.EligibleMembers` | pkg/chaos/nodes.go:129-134 | exactly the listed nodes that are not excluded are eligible |
| `NodeKillers.EligibleSplits` | pkg/chaos/nodes.go:129-134 | splitting a list splits its eligible nodes, so their order and number are kept |
| `NodeKillers.FilterInPlace` | pkg/chaos/nodes.go:129-134 | filtering the array over itself leaves in front what filtering in order gives |
| `NodeKillers.Shuffle` | pkg/chaos/nodes.go:135-137 | a permutation of the front, whatever the random numbers |
| `NodeKillers.WantedIsLeast` | pkg/chaos/nodes.go:138 | the number wanted is the least integer not below rate times nodes |
| `NodeKillers.PickNodes` | pkg/chaos/nodes.go:109-147 | min(n, ceil(rate*n)) of the n nodes that neither run Prometheus nor were killed, none more often than listed |
| `NodeKillers.PickedMeans` | pkg/chaos/nodes.go:121-142 | what is picked is listed, not killed before and under no scheduled Prometheus pod, and the fewest nodes that cover the share asked for, or all |
| `NodeKillers.PickedDistinct` | pkg/chaos/nodes.go:109-147 | of distinct nodes, those picked are distinct, listed and not excluded |
| `NodeKillers.NextKeepsKillersSound` | pkg/chaos/nodes.go:149-179 | every step, however killers overlap, keeps: nodes to come and under work were picked without a Prometheus pod on them and not excluded, those under work are killed, and those past their stop have its event |
| `NodeKillers.NextKeepsOneByOne` | pkg/chaos/nodes.go:149-187 | every step with one killer at a time keeps: no event twice, nodes to come are not yet killed, and which events a node has had is told by how far its goroutine is |
| `NodeKillers.NextKeepsRebootOrder` | pkg/chaos/nodes.go:155-176 | every step keeps: a reboot event comes after a stop event of the same node |
| `NodeKillers.NextKeepsLogFair` | pkg/chaos/nodes.go:131 | every step keeps: only nodes that were not excluded at the start and were picked without a Prometheus pod on them have a stop event |
| `NodeKillers.RunKeepsSound` | pkg/measurement/common/chaos_monkey_measurement.go:60-82 | in every run of starts, stops, rounds and goroutines, overlapping or not: reboots follow stops of the same node, excluded nodes are never stopped, and a node only if picked while it ran no Prometheus pod |
| `NodeKillers.RebootsNeedStops` | pkg/chaos/nodes.go:160-170 | in every run a node is rebooted only if stopping its services succeeded |
| `NodeKillers.KilledAtMostOnce` | pkg/measurement/common/chaos_monkey_measurement.go:60-82 | across all rounds and restarts in which no start comes before the stop of the one before, each node is stopped at most once and rebooted at most once |
| `NodeKillers.KilledTwice` | pkg/measurement/common/chaos_monkey_measurement.go:61-73 | any run to where two killers are live and idle goes on, with no further call, to one node stopped twice |
| `NodeKillers.NeverTwiceIff` | pkg/measurement/common/chaos_monkey_measurement.go:60-82 | for any calls: no run with them ever stops a node twice if and only if no start comes before the stop of the one before |
| `TuningSets.DeclaredIsLast` | pkg/tuningset/simple_tuning_set_factory.go:39-44 | a name resolves if and only if some set carries it, and then to the last that does |
| `TuningSets.GlobalQPSLoadFactory.GetOrCreate` | pkg/tuningset/global_qps_load.go:39-48 | one limiter per name, never replaced, and never shared between names; the parameters are those of the first call |
| `TuningSets.SimpleFactory.Init` | pkg/tuningset/simple_tuning_set_factory.go:39-44 | earlier sets are forgotten, limiters are not |
| `TuningSets.SimpleFactory.CreateTuningSet` | pkg/tuningset/simple_tuning_set_factory.go:47-72 | not found if and only if undeclared, incorrect if and only if the set has no load; else the first load in the order of kinds, a global one as the limiter shared under its name, with the declared parameters if limiters agreed with the declarations so far |
| `Validation.ValidateLoad` | api/validation.go:255-320 | accepted if and only if the parameters of the load's kind are positive, both of them for a global rate |
| `Validation.ValidateTuningSet` | api/validation.go:190-229 | accepted if and only if exactly one load is there and its parameters are positive |
| `Validation.ValidateTuningSets` | api/validation.go:63-65 | blames exactly the invalid ones, by index |
| `Validation.ValidateDependency` | api/validation.go:322-343 | accepted if and only if it is named, its timeout is not negative and its method is registered |
| `Validation.ValidateDependencies` | api/validation.go:59-61 | blames exactly the invalid ones, by index |
| `Validation.ValidateObject` | api/validation.go:167-177 | accepted if and only if the name has no complaints and the file exists |
| `Validation.ValidatePhase` | api/validation.go:149-165 | accepted if and only if at most one of namespace list and a sound range is given, replicas are not negative and all objects are valid |
| `Validation.ValidatePhases` | api/validation.go:103-105 | blames exactly the invalid ones, by index |
| `Validation.ValidateMeasurement` | api/validation.go:231-253 | accepted if and only if exactly one of identifier and instances is given and the method is registered |
| `Validation.ValidateMeasurements` | api/validation.go:106-108 | blames exactly the invalid ones, by index |
| `Validation.ValidateStep` | api/validation.go:101-118 | accepted if and only if it has either phases or measurements and all are valid |
| `Validation.ValidStepMeans` | api/validation.go:101-118 | valid is: either phases or measurements, and all of them valid |
| `Validation.ValidateSteps` | api/validation.go:71-73 | blames exactly the invalid ones, by index |
| `Validation.ValidateTuningSetInPhase` | api/validation.go:129-147 | blames exactly the phases that name a tuning set not declared |
| `Validation.HandleTuningSetInPhase` | api/validation.go:120-127 | blames exactly the steps that have such a phase |
| `Validation.Validate` | api/validation.go:47-82 | no error if and only if the configuration is valid, and a dependency, tuning set or step is blamed if and only if it is at fault |
| `Validation.ValidConfigMeans` | api/validation.go:47-82 | valid is: namespaces not negative and at least one, at least one step, every dependency, tuning set and step valid, and every tuning set named by a phase declared |
| `Validation.AcceptedResolves` | pkg/tuningset/simple_tuning_set_factory.go:39-72 | in a valid configuration every tuning set named by a phase resolves to the last set of that name, which has a single load, so that one is created, with positive parameters |
| `Validation.AcceptedRunsIff` | pkg/test/simple_test_executor.go:199-202 | in a valid configuration a phase finds a tuning set if and only if it names one or a set without a name is declared |
| `Validation.AcceptedWithoutTuningSet` | api/validation.go:132-144 | a valid configuration with a phase whose tuning set cannot be created |
| `Pacing.SteppedExecute` | pkg/tuningset/stepped_load.go:36-46 | every action starts after one step delay per burst before its own, plus what the environment adds, and after nothing else |
| `Pacing.BurstsApart` | pkg/tuningset/stepped_load.go:36-46 | actions k bursts apart start at least k step delays apart |
| `Pacing.WindowBound` | pkg/tuningset/stepped_load.go:36-46 | any half-open window of k step delays, wherever it starts, holds at most k bursts of starts, however late sleeps and starts are |
| `Pacing.WindowIsFull` | pkg/tuningset/stepped_load.go:36-46 | the bound is met: without lateness the first k step delays hold exactly the first k bursts |
| `Pacing.SleepsFillLimit` | pkg/tuningset/time_limited.go:40 | n sleeps of the limit's n-th part, rounded down, add up to more than limit-n and at most limit |
| `Pacing.NegativeLimitNeverSleeps` | pkg/tuningset/time_limited.go:40 | a negative limit, divided toward zero, means no sleep |
| `Pacing.LaunchAndSleep` | pkg/tuningset/time_limited.go:42-45 | the i-th action starts after i sleeps, and one more sleep follows the last |
| `Pacing.EvenGaps` | pkg/tuningset/time_limited.go:42-45 | the first action starts at once, each later one a sleep after the one before it |
| `Pacing.TimeLimitedExecute` | pkg/tuningset/time_limited.go:36-47 | the total sleep asked for lies in (limit-n, limit] for n actions; without actions nothing happens |
| `ResourceVersions.ParseUint` | pkg/state/resource_state.go:61 | reading digit by digit gives the number if and only if there are digits, only digits, and it fits 64 bits |
| `ResourceVersions.ParseOfFormat` | pkg/state/resource_state.go:54-61 | parsing undoes formatting |
| `ResourceVersions.FormatOfParse` | pkg/state/resource_state.go:54-61 | formatting undoes parsing of a string without leading zeros |
| `ResourceVersions.FormatFits` | pkg/state/resource_state.go:54-61 | a formatted number can be parsed if and only if it is at most 18446744073709551615 |
| `ResourceVersions.LeadingZeros` | pkg/state/resource_state.go:61 | leading zeros do not change the number parsed |
| `ResourceVersions.ResourcesVersionsState.Get` | pkg/state/resource_state.go:47-55 | the decimal of the version held, or "0" and a miss |
| `ResourceVersions.ResourcesVersionsState.Set` | pkg/state/resource_state.go:58-70 | fails on exactly the malformed and overflowing strings, and then changes nothing; otherwise one identifier keeps the newer version |
| `ResourceVersions.HoldsNewest` | pkg/state/resource_state.go:47-70 | after any sequence of calls an identifier is known if and only if some valid version was set for it, and holds the newest of those |
| `ResourceVersions.OrderDoesNotMatter` | pkg/state/resource_state.go:58-70 | two sequences of the same calls, in any order and number, leave the same state |
| `ResourceVersions.SettingGotIsNoOpIff` | pkg/state/resource_state.go:47-70 | after any sequence of calls, setting what Get returned changes nothing if and only if Get found the identifier |
| `ResourceVersions.SettingMissedZero` | pkg/state/resource_state.go:51-53 | the "0" returned with a miss, once set, makes the identifier known |

## Left out

- container/heap, sort.Sort, rand.Shuffle and client-go's indexers are library code: the heap is modelled as that library does it, sorting as insertion, indexers as a walk over their store in any order.
- Informer, reflector and work-queue internals: only the ordering assumptions listed above are kept.
- Sharing of slice backing arrays, except in `NodeKillers.FilterInPlace`.
- Floating point: rates are reals, so a NaN rate, which would pass the positivity checks, is not representable; ceil(n*p/100) and ceil(rate*n) are exact.
- Runs after Dispose: checker.Map.Dispose reassigns its local variable only.
- Force deletion of pods, the lists of failed pods and the durations reported by gather; they do not influence the verdict.
- Objects that cannot be cast, and deletions seen as tombstones.
- DiffPods and the scaling direction in WaitForPods: they are only logged.
- The table of startup transitions: the checks are proved for any table that has pod_startup.
- The pods' events behind the startup latency table (processEvent, gatherScheduleTimes) and the summaries written from it.
- VerifyThreshold, Prometheus quantiles, GetOrderedKeys: easy or library code.
- Rendering, decoding and overriding of templates; parsing is a fixed partial function of the content.
- Random, Poisson, parallelism-limited and rate-limited execution of loads: the claims would be the libraries'.
- Texts of errors and logs; an error of the validator is its field path and kind.
- The DNS name check and file lookup of the validator are given by its surroundings.
- A failed start of the node killer, Go's own abort on concurrent map writes, and the API availability measurement's pausing.
- Clients of the cluster, SSH, gcloud and exec, manifests, flags and providers.
