# SuperEdge: a verified model of its stateful cores

SuperEdge extends Kubernetes to edge sites. Most of the repository talks to the API server; this project models the parts
that carry state or decide something on their own, and proves what holds of them for every input, every interleaving or
every run. `dafny verify dfyconfig.toml` checks everything.

| module files | what they model |
|---|---|
| `Prune`, `PruneMeaning`, `CacheCoherence`, `CacheReference`, `CacheReports`, `CacheServes`, `CacheClear`, `CacheReplay`, `CacheDelivery`, `CacheEvents`, `StorageCache` | application-grid-wrapper: which backends a node may see, the cache of pruned objects under concurrent informer handlers, and the events it publishes |
| `EdgeHealth`, `EdgeVote`, `EdgeRuns`, `EdgeFresh`, `EdgeMembers`, `EdgeConflicts` | edge-health: checking, gossiping and voting nodes healthy or unhealthy |
| `Bits`, `Bitmap`, `Allocator`, `IpRange` | the allocation bitmap and the address ranges of CIDR blocks (section 3.1 of RFC 4632) on top of it |
| `DeepContains`, `DeepContainsProofs`, `DeepContainsMeaning`, `DeepContainsOrder`, `DeepContainsTermination`, `DeepContainsReturns`, `DeepContainsCopies`, `DeepContainsLaws` | application-grid-controller's containment test over possibly cyclic Go values |
| `WatchCache`, `CacheKeys` | lite-apiserver: a cached list kept up to date by watch events, and the names of its cache files |
| `HostsFile`, `HostsLines`, `HostsRoundTrip`, `HostsReconcile`, `RecordPattern`, `PodRecords` | statefulset-grid-daemon: the hosts file, its reconciliation, and the DNS records of a statefulset's pods |
| `Tunnel`, `Parallelize` | a tunnel node's bound connections with the undo of a failed connect; the parallel prober |
| `Strings`, `Paths`, `Basics` | the functions of Go's `strings` package these use; paths in a graph; what several modules share |

How the modelling is done:

- Code that works in place is a class or an array algorithm whose methods are proved against functions; the theorems are
  about those functions. Every section run under a lock is one step of a state machine, and goroutines interleave between
  such steps.
- Map iteration order is left open: loops over a map pick any remaining key. Random starts, clocks, replies, write
  failures and message loss are parameters or steps.
- `net.ParseIP`, `strconv.Atoi`, `strconv.ParseInt`, `json.Unmarshal` of the topology keys, the lookup of a node by
  address and the rounding of float64 sums and products are function parameters, so every theorem holds whatever they
  answer.
- What an operation computes is stated a second time without the functions that specify it: in terms of labels, annotations
  and reports for pruning, of clocks for votes, of kinds and zero values for containment, of version numbers for a watch.
- Semantic equality (nil and empty slices are equal) and plain equality are kept apart where the source uses one or the
  other.

Where the code does less than its comments or its purpose suggest, the model follows the code, a lemma shows an input on
which the property fails, and another says exactly when it holds:

- ClearLocalNodeInfo does not resync: `ClearLeavesStaleCopy`, `ClearCoherentIff`.
- OnUpdate skips an Endpoints update whose subsets are unchanged, also when the annotations that replace the master object
  in cluster changed: `LocalEndpointIgnored`, `SkippedUpdateIff`, `ServesReportIff`.
- A deletion that reaches OnDelete as a tombstone (cache.DeletedFinalStateUnknown) is dropped by every handler, so the entry
  stays: `TombstoneIgnored`, `HeldIff`, `ServesReportIff`, `ServesSlicesIff`, `ViewExactIff`.
- Events are published after unlocking, so a handler's event can overtake a resync's: `LateResyncEvent`, `RaceHarmlessIff`,
  `DeliveryIff`.
- A vote may count against a membership that does not cover the rows it counts: before the first GetNodeList, on a node
  missing from its own list, or while a member is being taken off: `EarlyVoteConflict`, `OutsiderConflict`,
  `ShrinkConflict`; `RunVotesOneWay` and `ConflictIff` say when votes cannot oppose each other.
- The sum of float64 scores depends on the iteration order of a map: `OrderMatters`, `OrderNeverMattersIff`.
- Restored bits at or above `max` make AllocateNext refuse early: `StrayBitRefuses`, `RefusalMeansFullIff`.
- An address with a zero top byte is not recognised by its own range and listed as nil by ForEach, and more than 64 host bits
  alias offsets: `ZeroBlockExample`, `OffsetRoundTrip`, `AllocateReleaseRoundTrip`, `ForEachListsIff`, `Aliases`,
  `OffsetsFaithfulIff`.
- DeepContains stores unordered address pairs although containment is not symmetric: `SwapExample`, `SwapIsUnsound`,
  `TrueUpToKeys`, `ExactWithUniqueKeys`. Nor do they say whether a place was seen through an unexported field, behind which
  everything is accepted: `HiddenExample`, `HiddenIsUnsound`, `ExactWithUniqueKeys` again.
- Its comment on termination does not cover maps that hold themselves through an interface: `SelfMapsExample`,
  `SelfMapsNeverReturn`, `ReturnsIff`, `CopyReturnsIff`. And a nil pointer contains every pointer: `NilPointerExample`, `NilBreaksTransitivity`.
- Nothing separates the user agent from the request in a cache file's name: `UserAgentsCollide`, `ListCollidesWithGet`,
  `SameFileAcrossAgentsIff`.
- A domain that ends in a carriage return does not survive printing: `CarriageReturnLost`, `RoundTripIff`.
- After a failed write CheckOrUpdateHosts believes the file is up to date: `FailedWriteRetriedIff`.
- The record pattern is not anchored and its dots are not escaped, so a sync can delete a neighbour's records:
  `PrefixedRecordMatches`, `DotsMatchAnything`, `RecordMatchesIff`, `NeighbourRecordDeletedIff`. The grid value is cut out at its first
  occurrence: `MisnamedRecord`, `ShortenIff`.
- UnbindNode shifts the slice it ranges over: it panics or skips the next element: `ScanMeaning`, `RemovesAllIff`,
  `DoubleBindSurvives`.

## Model

| member | source | states |
|---|---|---|
| Prune.HasIntersectionLabel | pkg/application-grid-wrapper/storage/util.go:534-549 | true exactly when both label maps exist and some key has the same value in both |
| Prune.FilterConcernedAddresses | pkg/application-grid-wrapper/storage/util.go:366-432 | the loop yields nil for an unknown host, otherwise exactly the addresses of the host's unit that are not reported abnormal, in order |
| Prune.FilterLocalNodeInfo | pkg/application-grid-wrapper/storage/util.go:434-476 | the loop keeps, in order, exactly the addresses on known nodes not reported abnormal |
| Prune.DropSuffixLoop | pkg/application-grid-wrapper/storage/util.go:277-282 | the loop joins all pieces but the last, or returns a lone piece |
| Prune.DropSuffixInverts | pkg/application-grid-wrapper/storage/util.go:277-283 | dropping the suffix of `service-suffix` gives the service for every dash-free suffix and every service, dashes included |
| Prune.PruneEndpointsLoop | pkg/application-grid-wrapper/storage/util.go:221-269 | the branches and subset loops compute one rule applied to every address list of the (possibly replaced) object |
| PruneMeaning.EndpointsShown | pkg/application-grid-wrapper/storage/util.go:221-269 | an object is kept whole if its service is unknown, or has no topology keys and the object is default/kubernetes or autonomy is off; otherwise each list keeps, in order, exactly the addresses whose node is known, shares the value of a topology key with the known host (if there are keys), and is not reported abnormal (under autonomy); nothing else changes |
| PruneMeaning.ReplacementShown | pkg/application-grid-wrapper/storage/util.go:66-115 | the in-cluster replacement of an annotated default/kubernetes, and that only a whole object shows its address |
| PruneMeaning.SliceV1Shown | pkg/application-grid-wrapper/storage/util.go:271-317 | the same for a v1 slice, by the service named by the slice without what follows its last dash |
| PruneMeaning.SliceV1Beta1Shown | pkg/application-grid-wrapper/storage/util.go:319-364 | the same for a v1beta1 slice, whose node is its hostname label or the empty name |
| PruneMeaning.SliceOfIff | pkg/application-grid-wrapper/storage/util.go:277-283 | the service looked up for a slice is that name, for every name |
| Prune.RuleMeaning | pkg/application-grid-wrapper/storage/util.go:366-532 | an element survives with its full multiplicity or not at all, exactly when its node is known, shares a topology label with the known host and is not reported abnormal (per branch); order is kept |
| Prune.PruneIdempotent | pkg/application-grid-wrapper/storage/util.go:221-364 | pruning a pruned object changes nothing, for all three kinds and every branch |
| Prune.SkippedUpdateIff | pkg/application-grid-wrapper/storage/endpoints_handler.go:103-117 | serving the held object in place of a skipped update shows the right backends if and only if the in-cluster replacement is the same or leaves the same, and is right as a whole if and only if the annotations are unchanged too |
| CacheTable.RebuildCoheres | pkg/application-grid-wrapper/storage/cache.go:252-267 | a rebuild makes any table agree with pruning, although semantically equal copies are left in place |
| CacheTable.OperateKeepsCoherence | pkg/application-grid-wrapper/storage/endpoints_handler.go:31-93 | add, update, delete and a dropped tombstone keep a coherent table coherent |
| CacheCoherence.PruneAlike | pkg/application-grid-wrapper/storage/node_handler.go:61-66 | views that agree on node names, labels, topology keys and (autonomy on) health prune every object alike |
| CacheCoherence.QuietWrite | pkg/application-grid-wrapper/storage/service_handler.go:49-77 | every handler path that returns without a resync, other than a clear under autonomy, changes nothing pruning reads |
| CacheCoherence.UpdateResyncsIff | pkg/application-grid-wrapper/storage/node_handler.go:47-74 | a node or service update resyncs if and only if it changes something pruning reads |
| CacheCoherence.PendingMoves | pkg/application-grid-wrapper/storage/cache.go:220-250 | a goroutine inside resync stops owing a table only by rebuilding it or finding it empty |
| CacheCoherence.StepKeepsInv | pkg/application-grid-wrapper/storage/cache.go:206-300 | each locked section of each handler keeps: every table is coherent, or a resync still owes it, or no resync rebuilt it or found it empty since a clear |
| CacheCoherence.QuiescentCoherence | pkg/application-grid-wrapper/storage/cache.go:206-300 | in every interleaving, a table no resync owes, and that one rebuilt or found empty since the last clear, holds exactly the pruned originals under the current nodes, services and health reports |
| CacheReference.StepMirrors | pkg/application-grid-wrapper/storage/node_handler.go:32-87 | every handler step keeps the maps equal to the objects of the reports that were not dropped (tombstones and skipped Endpoints updates are), labels and topology keys being those of the stored objects even on early returns |
| CacheReference.ServesTheReference | pkg/application-grid-wrapper/storage/cache.go:206-300 | in every interleaving, a quiescent table serves for exactly the objects held their prunings under the nodes, services and health held |
| CacheServes.EndpointsServed | pkg/application-grid-wrapper/storage/cache.go:206-300 | in every interleaving a quiescent Endpoints table serves of each object held, subset by subset and in order, all addresses or exactly those whose node is held and shares the value of a key in the service's topologyKeys annotation with the host and is not reported abnormal |
| CacheServes.SlicesV1Served | pkg/application-grid-wrapper/storage/endpointslicev1_handler.go:31-94 | the same for v1 slices, by the service their name gives |
| CacheServes.SlicesV1Beta1Served | pkg/application-grid-wrapper/storage/endpointslicev1beta1_handler.go:28-99 | the same for v1beta1 slices |
| CacheReports.LastReportDecides | pkg/application-grid-wrapper/storage/service_handler.go:32-91 | of nodes, services and all three object kinds, what is reported of an object is what the last report about it said |
| CacheReports.LastHealth | pkg/application-grid-wrapper/storage/cache.go:206-218 | the health reports are those last set, and none after a clear |
| CacheReports.HeldIsTaken | pkg/application-grid-wrapper/storage/endpoints_handler.go:95-125 | what is held is what is reported once tombstones and Endpoints updates with equal subsets are left out |
| CacheReference.HeldIff | pkg/application-grid-wrapper/storage/endpoints_handler.go:119-125 | in every run, for nodes, services and all three tables, an object is held if and only if it is reported or its deletion was lost in a tombstone and nothing since added or deleted it |
| CacheReference.ViewExactIff | pkg/application-grid-wrapper/storage/node_handler.go:105-111 | pruning reads exactly the reported nodes, services and health if and only if no deletion of a node or service was lost so |
| CacheReference.ServesSlicesIff | pkg/application-grid-wrapper/storage/endpointslicev1_handler.go:112-118 | in every interleaving a quiescent slice table has an entry for exactly the reported slices and those whose deletion was lost, and serves the latest report of each reported one |
| CacheReference.ServesReportIff | pkg/application-grid-wrapper/storage/endpoints_handler.go:49-73 | in every interleaving a quiescent Endpoints table has an entry for exactly the reported objects and those whose deletion was lost, and serves the latest report of a reported one if and only if the skipped updates since the held one were harmless |
| CacheReference.OutsideServesReport | pkg/application-grid-wrapper/storage/endpoints_handler.go:103-117 | outside the cluster the backends served for a reported object are always those of its latest report, under everything reported if no deletion of a node or service was lost |
| CacheReference.LocalEndpointIgnored | pkg/application-grid-wrapper/storage/endpoints_handler.go:112-114 | a concrete run: the local-endpoint annotations added to default/kubernetes in cluster are skipped and the remote address stays served, which the reported object prunes to under no view |
| CacheReference.TombstoneIgnored | pkg/application-grid-wrapper/storage/endpoints_handler.go:119-125 | a concrete run: after a tombstone nothing is pending, nothing is reported, and the entry is still served |
| CacheClear.EndpointsAfterForget | pkg/application-grid-wrapper/storage/cache.go:206-210 | forgetting the health reports changes what an object prunes to if and only if a report alone hides one of its addresses |
| CacheClear.ClearCoherentIff | pkg/application-grid-wrapper/storage/cache.go:206-210 | under autonomy a clear leaves a coherent table coherent if and only if no stored object has a backend hidden by a report alone |
| CacheClear.ClearLeavesStaleCopy | pkg/application-grid-wrapper/storage/cache.go:206-210 | a concrete run that ends with nothing pending and a stale copy |
| CacheReplay.RebuildTable | pkg/application-grid-wrapper/storage/cache.go:252-300 | for any map order the loop computes the rebuilt table and logs one Modified event per changed entry |
| CacheReplay.RebuildReplays | pkg/application-grid-wrapper/storage/cache.go:220-284 | applying a rebuild's events, in whatever order they were logged, turns the old published objects into the new ones |
| CacheReplay.OperationReplays | pkg/application-grid-wrapper/storage/endpointslicev1_handler.go:31-94 | applying the events of add, update or delete turns the old published objects into the new ones |
| CacheReplay.ReplayGivesPublished | pkg/application-grid-wrapper/storage/cache.go:220-284 | in every run of completed handler calls, replaying all Endpoints events, or all v1 slice events, from an empty map gives exactly the objects served |
| CacheDelivery.LogReplays | pkg/application-grid-wrapper/storage/cache.go:220-284 | in every interleaving the events in the order of the locked sections replay to exactly the objects served |
| CacheEvents.LogIsSensible | pkg/application-grid-wrapper/storage/cache.go:252-284 | in every interleaving every Modified event tells a watcher something new of an object it holds, and every Deleted event gives back the very copy it holds |
| CacheEvents.EventKinds | pkg/application-grid-wrapper/storage/endpoints_handler.go:31-93 | Added events come from added objects, one each, Deleted ones from deleted objects that were held, and all others are Modified |
| CacheDelivery.DeliveryIff | pkg/application-grid-wrapper/storage/cache.go:220-250 | in every interleaving and for any delivered events a watcher holds exactly the objects served if and only if the last event delivered about each object has the effect of the last one logged about it |
| CacheDelivery.RaceHarmlessIff | pkg/application-grid-wrapper/storage/endpoints_handler.go:68-72 | a resync's events and a handler's delivered the other way round leave the same if and only if the resync has no event about that object or the very same copy |
| CacheDelivery.LateResyncEvent | pkg/application-grid-wrapper/storage/node_handler.go:32-45 | a concrete interleaving: an Endpoints update overtakes the event of a node-triggered rebuild and the watcher keeps the old address |
| StorageCache.StorageCache.constructor | pkg/application-grid-wrapper/storage/cache.go:90-110 | the empty cache is the initial state of the interleaving model |
| StorageCache.StorageCache.RebuildEndpointsMap | pkg/application-grid-wrapper/storage/cache.go:252-267 | the table becomes the rebuilt one and the events account for every change |
| StorageCache.StorageCache.RebuildEndpointSliceV1Map | pkg/application-grid-wrapper/storage/cache.go:269-284 | the same for v1 slices |
| StorageCache.StorageCache.RebuildEndpointSliceV1Beta1Map | pkg/application-grid-wrapper/storage/cache.go:286-300 | the same for v1beta1 slices |
| StorageCache.StorageCache.Resync | pkg/application-grid-wrapper/storage/cache.go:220-250 | all three tables are rebuilt, empty ones skipped without loss |
| StorageCache.StorageCache.HandleWrite | pkg/application-grid-wrapper/storage/node_handler.go:32-87 | a node, service or health handler run to completion is one atomic step with its events |
| StorageCache.StorageCache.WriteLocked | pkg/application-grid-wrapper/storage/service_handler.go:32-91 | the maps after the locked write and whether a resync follows |
| StorageCache.StorageCache.AddEndpoints | pkg/application-grid-wrapper/storage/endpoints_handler.go:31-47 | add is the model's Add step with its Added event |
| StorageCache.StorageCache.UpdateEndpoints | pkg/application-grid-wrapper/storage/endpoints_handler.go:49-73 | update, after OnUpdate's test, is the model's Update step; an event only if the copy changed |
| StorageCache.StorageCache.DeleteEndpoints | pkg/application-grid-wrapper/storage/endpoints_handler.go:75-93 | delete is the model's Delete step; the event carries the last copy |
| StorageCache.StorageCache.OnDeleteEndpoints | pkg/application-grid-wrapper/storage/endpoints_handler.go:119-125 | OnDelete is the Delete step for an object and changes and publishes nothing for a tombstone |
| EdgeHealth.ResultData.SetResult | pkg/edge-health/data/resultdata.go:53-66 | a report replaces its sender's row, every entry stamped with the local time |
| EdgeHealth.ResultData.SetResultFromCheckInfo | pkg/edge-health/data/resultdata.go:68-75 | one own verdict changes, a missing row is created |
| EdgeHealth.ResultData.CopyLocalResultData | pkg/edge-health/data/resultdata.go:77-90 | the copy is the row, empty if there is none |
| EdgeHealth.ResultData.DeleteResultData | pkg/edge-health/data/resultdata.go:122-127 | the node's row and this node's verdict about it go, nothing else changes |
| EdgeHealth.CheckInfoData.SetCheckInfo | pkg/edge-health/data/checkinfodata.go:44-52 | one weighted score, rounded however float64 does, is set in a possibly new row, and nothing else changes: no other score appears, changes or goes |
| EdgeHealth.CheckInfoData.SetCheckedIpCheckInfo | pkg/edge-health/data/checkinfodata.go:54-60 | a new address gets an empty row, a known one keeps its scores |
| EdgeHealth.CheckInfoData.DeleteCheckedIpCheckInfo | pkg/edge-health/data/checkinfodata.go:72-76 | only that address goes |
| EdgeHealth.ListMembers | pkg/edge-health/check/check.go:143-159 | CheckInfo ends with exactly the listed addresses and the scores it had |
| EdgeHealth.PruneRows | pkg/edge-health/check/check.go:161-165 | the rows left are the members' rows, without own verdicts about dropped checkers |
| EdgeHealth.GetNodeList | pkg/edge-health/check/check.go:143-165 | afterwards exactly the listed checkers of before have rows, unchanged but for own verdicts about dropped checkers, and every one of them is in CheckInfo |
| EdgeHealth.Check | pkg/edge-health/check/check.go:188-199 | the own row is judged anew on every address in CheckInfo, normal exactly when the sum of its scores in the order taken reaches the line; nothing else changes |
| EdgeHealth.SumScores | pkg/edge-health/check/check.go:190-193 | the total is the rounded sum in some order of the plugins |
| EdgeHealth.OrderIrrelevant | pkg/edge-health/check/check.go:190-193 | every order gives the exact sum where no sum on the way is rounded |
| EdgeHealth.OrderNeverMattersIff | pkg/edge-health/check/check.go:190-193 | every order gives the exact sum, for the scores and every part of them, if and only if no sum that can come up on the way is rounded |
| EdgeHealth.OrderMatters | pkg/edge-health/check/check.go:190-198 | three scores that float64 sums to two totals, and a score line that gives both verdicts |
| EdgeVote.CountVotes | pkg/edge-health/vote/vote.go:75-96 | the counters are, per address and side, the number of checkers with a counted verdict, and healthNodeMap the checkers heard |
| EdgeVote.Vote | pkg/edge-health/vote/vote.go:69-151 | an address is patched in a direction exactly when a quorum decides so and the annotation is not already as wanted |
| EdgeVote.OneVoteOneDirection | pkg/edge-health/vote/vote.go:99-149 | a vote never decides both ways while fewer than 2*(N/2+1) checkers have rows |
| EdgeVote.SplitVote | pkg/edge-health/vote/vote.go:99-149 | with that many checkers some table does make one vote decide both ways |
| EdgeVote.ExpiredNeverMatters | pkg/edge-health/vote/vote.go:75-96 | verdicts of other nodes with now > time + timeout change no decision |
| EdgeVote.FreshMajority | pkg/edge-health/vote/vote.go:75-107 | if no verdict of another node is older than the timeout, every verdict counts: a direction is decided if and only if more than half of the membership's number of checkers say so and not exactly one checker says anything |
| EdgeVote.MajorityIff | pkg/edge-health/vote/vote.go:69-151 | in general that is so of the table without the expired verdicts of others |
| EdgeVote.AloneDecidesNothing | pkg/edge-health/vote/vote.go:102-104 | a node that has heard from nobody else within the timeout decides nothing |
| EdgeFresh.DecisionsAreFresh | pkg/edge-health/data/resultdata.go:53-66 | in every run each decision has more than half of its membership's number of checkers behind it, each the voter itself or one whose verdict it received within the timeout by its own clock |
| EdgeRuns.StepKeepsInv | pkg/edge-health/communicate/communicate.go:223-242 | every step (among them the copy of CheckInfo, a verdict about an address in that copy, and a report to a node in its own row) keeps: no table, message or ballot holds a verdict its checker did not record, and each decision has a quorum of recorders behind it |
| EdgeRuns.QuorumIntersection | pkg/edge-health/vote/vote.go:69-151 | over whole runs with lost, repeated and reordered messages, opposite decisions about an address share a checker that recorded both verdicts, whenever the two memberships are large enough for the fleet |
| EdgeRuns.StableVerdictsNeverConflict | pkg/edge-health/vote/vote.go:69-151 | with full membership and stable verdicts no two votes of a run decide in opposite directions |
| EdgeMembers.RunVotesOneWay | pkg/edge-health/check/check.go:143-165 | in every run in which a node judges only while it is in its own list and takes reports only from listed nodes, its rows are members' rows but for those about to be dropped, and no vote decides both ways unless a checker it counts was off the list when the members were counted |
| EdgeConflicts.ConflictIff | pkg/edge-health/vote/vote.go:99-149 | over all runs, in which a node judges only addresses of its CheckInfo and reports go only to nodes they mention, votes counted against two membership sizes can oppose each other without any checker changing its mind if and only if the two majorities fit into the fleet side by side |
| EdgeConflicts.EarlyVoteConflict | pkg/edge-health/vote/vote.go:100-107 | a run in which nobody changes its mind and one node decides both ways, before its first GetNodeList |
| EdgeConflicts.OutsiderConflict | pkg/edge-health/check/check.go:145-165 | the same on a node that GetNodeList left out of its own list: what it finds of the listed one against what that one finds of itself |
| EdgeConflicts.ShrinkConflict | pkg/edge-health/check/check.go:155-165 | the same about one of two members when one is taken off between the copy of the table and the count of the members |
| Bitmap.TableCorrect | pkg/util/allocator/utils.go:32-66 | each of the 256 table entries is the number of ones in its index |
| Bitmap.CountBits | pkg/util/allocator/utils.go:23-30 | the bytewise sum is the number of set bits |
| Bitmap.ForEach | pkg/util/allocator/bitmap.go:141-159 | for any word size the calls are exactly the set offsets, each once, ascending |
| Allocator.RandomScan | pkg/util/allocator/bitmap.go:207-219 | for every start the wrapped scan finds the first free offset below max, going up and round, if there is one and count allows |
| Allocator.ContiguousScan | pkg/util/allocator/bitmap.go:226-236 | the least free offset |
| Allocator.RoomLeft | pkg/util/allocator/bitmap.go:207-219 | fewer set bits than max leaves an offset below max free |
| Allocator.AllocationBitmap.constructor | pkg/util/allocator/bitmap.go:63-87 | nothing is taken and count is zero |
| Allocator.AllocationBitmap.Allocate | pkg/util/allocator/bitmap.go:91-101 | succeeds exactly on a free offset; count stays the number of set bits |
| Allocator.AllocationBitmap.AllocateNext | pkg/util/allocator/bitmap.go:105-116 | fails exactly when as many bits are set as max; otherwise takes a free offset below max, the least one when contiguous and the first one from the random start otherwise |
| Allocator.AllocationBitmap.Release | pkg/util/allocator/bitmap.go:121-132 | exactly that offset is free afterwards, a free one is left alone |
| Allocator.AllocationBitmap.Has | pkg/util/allocator/bitmap.go:163-168 | membership in the set of taken offsets |
| Allocator.AllocationBitmap.Free | pkg/util/allocator/bitmap.go:171-175 | max minus the number of taken offsets |
| Allocator.AllocationBitmap.Snapshot | pkg/util/allocator/bitmap.go:178-183 | the bytes read back as the very same bitmap |
| Allocator.AllocationBitmap.Restore | pkg/util/allocator/bitmap.go:186-198 | on the same range the bitmap is the restored one and count is right for any data |
| Allocator.ReleaseUndoes | pkg/util/allocator/bitmap.go:91-132 | taking a free offset and releasing it gives the same bitmap |
| Allocator.RefusalMeansFullIff | pkg/util/allocator/bitmap.go:207-210 | refusal means "all max offsets taken" if and only if none is free or fewer bits are set outside the range than are free inside |
| Allocator.StrayBitRefuses | pkg/util/allocator/bitmap.go:194-195 | one stray bit makes an empty range of size one refuse |
| IpRange.ContainsMeaning | pkg/util/ipallocator/allocator.go:232-242 | with at most 64 host bits `contains` accepts exactly the usable addresses and returns the distance from the first |
| IpRange.OffsetRoundTrip | pkg/util/ipallocator/allocator.go:253-263 | the address of a usable offset leads back to it if its top byte is not zero, and is otherwise rejected; IPv4-mapped blocks count as the IPv4 blocks Go shortens them to |
| IpRange.ZeroBlockExample | pkg/util/ipallocator/allocator.go:253-257 | the first address of 0.0.0.0/24 is built as one byte and rejected |
| IpRange.OffsetsFaithfulIff | pkg/util/ipallocator/allocator.go:259-263 | for every block no two addresses share an offset if and only if there are at most 64 host bits (or no usable address) |
| IpRange.OffsetHasAddress | pkg/util/ipallocator/allocator.go:232-263 | in every block each usable offset has an address of full width that `contains` maps to it |
| IpRange.Aliases | pkg/util/ipallocator/allocator.go:261-263 | above 64 host bits two addresses 2^64 apart share offset 0 |
| IpRange.Range.constructor | pkg/util/ipallocator/allocator.go:84-96 | base one above the network address, exactly the usable offsets, and the empty bitmap of the block |
| IpRange.Range.Allocate | pkg/util/ipallocator/allocator.go:144-158 | which of the three outcomes, and the exact bitmap afterwards |
| IpRange.Range.AllocateNext | pkg/util/ipallocator/allocator.go:162-171 | succeeds exactly while the number of set bits is an offset of the block, so from an empty range once per usable address; without stray bits it fails when all are taken; otherwise a new address, never the network address nor the last of the capped range |
| IpRange.UsableOffsetIff | pkg/util/ipallocator/allocator.go:232-279 | the offsets some address leads to are 0 up to the block's size less three, at most 65533 for IPv6, and none for more than 30 (IPv4) or 126 (IPv6) host bits |
| IpRange.UsableAddressIff | pkg/util/ipallocator/allocator.go:232-279 | with at most 64 host bits exactly the addresses of the block other than its first and last are accepted, of an IPv6 block the first 65534 of them, and none of an IPv4 block with more than 30 |
| IpRange.BothFormsAlike | pkg/util/ipallocator/allocator.go:232-251 | an IPv4 address in its 16-byte form is treated as the address itself, and is in no block of other IPv6 addresses |
| IpRange.TakenCount | pkg/util/ipallocator/allocator.go:162-171 | after so many successful calls on an empty range so many bits are set |
| IpRange.Range.Release | pkg/util/ipallocator/allocator.go:176-183 | exactly that address's bit is cleared, an address outside is a no-op |
| IpRange.Range.Has | pkg/util/ipallocator/allocator.go:195-202 | true exactly for recorded usable addresses |
| IpRange.NetIsValid | pkg/util/ipallocator/allocator.go:244-251 | a block of IPv4-mapped addresses has at most 32 host bits and is again a block once shortened to IPv4 |
| IpRange.Range.ForEach | pkg/util/ipallocator/allocator.go:185-191 | one call per set offset in ascending order, with the address that GetIndexedIP finds for it or nil |
| IpRange.ForEachListsIff | pkg/util/ipallocator/allocator.go:281-288 | a call gets the allocated address or nil depending on its top byte, so exactly the allocated addresses are listed if and only if none has a zero top byte |
| IpRange.Range.Snapshot | pkg/util/ipallocator/allocator.go:205-214 | the bytes read back as the very same bitmap |
| IpRange.Range.Restore | pkg/util/ipallocator/allocator.go:218-228 | only for the range's own network; then the bitmap is the one in the data |
| IpRange.AllocateReleaseRoundTrip | pkg/util/ipallocator/allocator.go:144-202 | an address handed out is reported by Has and its Release restores the exact previous bitmap, if and only if its top byte is not zero |
| DeepContains.DeepContainsValues | pkg/application-grid-controller/util/consistency.go:76-86 | two nil interfaces contain each other, a nil and a non-nil one do not, the rest is the recursion from an empty visited set |
| DeepContains.Comparison.DeepValueContains | pkg/application-grid-controller/util/consistency.go:91-191 | the recursion with its shared, mutated visited map refines the functional one |
| DeepContainsProofs.Completeness | pkg/application-grid-controller/util/consistency.go:91-191 | true whenever the greatest-fixpoint containment holds, cyclic values included |
| DeepContainsMeaning.ContainsIff | pkg/application-grid-controller/util/consistency.go:133-191 | containment kind by kind: nil or shorter slices and maps ask for less, the same storage is not read, nil pointers and interfaces and zero or unexported scalars ask for nothing, functions must both be nil |
| DeepContainsMeaning.BlankIsContained | pkg/application-grid-controller/util/consistency.go:189-219 | a value all of whose parts are zero or nil is contained in every value of its type and DeepContains says so |
| DeepContainsMeaning.ScalarAnswerIff | pkg/application-grid-controller/util/consistency.go:188-189 | between visible scalars the answer is true if and only if y is zero or both are equal and no NaN |
| DeepContainsProofs.TrueUpToKeys | pkg/application-grid-controller/util/consistency.go:113-131 | on every heap a true answer comes with a relation that holds one level down everywhere, but for pairs with the visit key of another of its pairs: the same places swapped, or seen the other way |
| DeepContainsProofs.ExactWithUniqueKeys | pkg/application-grid-controller/util/consistency.go:91-191 | true if and only if containment holds, wherever no pair the comparison can come to has the places of another swapped or seen the other way, shared and cyclic values included |
| DeepContainsProofs.ExactWhenSeparate | pkg/application-grid-controller/util/consistency.go:91-191 | true if and only if containment holds, when the two values share no pointer, slice, map or interface and neither has one that is seen both through exported and through unexported fields |
| DeepContainsReturns.ReturnsIff | pkg/application-grid-controller/util/consistency.go:91-191 | on contained values without a revisit swapped or seen the other way the recursion returns if and only if every cycle of the comparisons it goes on to passes through a recorded pair |
| DeepContainsCopies.CopyReturnsIff | pkg/application-grid-controller/util/consistency.go:91-191 | comparing a value with a fresh copy of it returns if and only if every cycle reached from the value passes through an addressable pointer, slice, map or interface |
| DeepContainsReturns.AlwaysReturns | pkg/application-grid-controller/util/consistency.go:91-191 | on every heap whose cycles are all recorded every comparison returns, from any visited set, and what it returns is independent of the measure |
| DeepContainsReturns.RankingIff | pkg/application-grid-controller/util/consistency.go:102-131 | the termination measure of the recursion exists if and only if every cycle of the heap is recorded |
| DeepContainsReturns.SelfMapsNeverReturn | pkg/application-grid-controller/util/consistency.go:168-185 | two maps that hold themselves through an interface are compared for ever |
| DeepContainsReturns.SelfMapsExample | pkg/application-grid-controller/util/consistency.go:168-185 | a concrete heap of that kind |
| DeepContainsOrder.ReflexiveIff | pkg/application-grid-controller/util/consistency.go:133-191 | a value contains itself if and only if nothing reached from it through arrays, structs and interfaces is a non-nil function or a visible NaN |
| DeepContainsOrder.ReflexiveAnswerIff | pkg/application-grid-controller/util/consistency.go:91-191 | so DeepContains(x, x) answers, on every heap |
| DeepContainsOrder.PlainIsReflexive | pkg/application-grid-controller/util/consistency.go:133-191 | DeepContains(x, x) is true of values without functions and NaNs |
| DeepContainsOrder.Transitive | pkg/application-grid-controller/util/consistency.go:133-219 | containment is transitive on pointer-, interface- and function-free values with all its relaxations, unexported fields included |
| DeepContainsOrder.AnswersCompose | pkg/application-grid-controller/util/consistency.go:91-219 | so are the answers, wherever neither comparison comes back to a pair swapped or seen the other way |
| DeepContainsOrder.NilBreaksTransitivity | pkg/application-grid-controller/util/consistency.go:92-95 | a nil pointer contains and is contained in every pointer of its type, also between two of which the one does not contain the other |
| DeepContainsLaws.NilPointerExample | pkg/application-grid-controller/util/consistency.go:159-160 | three such pointers |
| DeepContainsLaws.SwapIsUnsound | pkg/application-grid-controller/util/consistency.go:116-127 | whenever A contains B but not the reverse, two structs holding them crosswise are wrongly found contained |
| DeepContainsLaws.SwapExample | pkg/application-grid-controller/util/consistency.go:116-127 | a concrete heap of that kind |
| DeepContainsLaws.HiddenIsUnsound | pkg/application-grid-controller/util/consistency.go:113-131 | whenever one pointer leads to values accepted through an unexported field and not contained through an exported one, two structs holding it in both fields are wrongly found contained, though nothing is swapped or shared |
| DeepContainsLaws.HiddenExample | pkg/application-grid-controller/util/consistency.go:193-202 | a concrete heap of that kind |
| WatchCache.DeleteInPlace | pkg/lite-apiserver/cache/cache_mgr.go:151-159 | compaction over shared storage leaves exactly the other objects, in order |
| WatchCache.ModifyInPlace | pkg/lite-apiserver/cache/cache_mgr.go:143-150 | the first older copy is replaced |
| WatchCache.CacheManager.HandleEvent | pkg/lite-apiserver/cache/cache_mgr.go:95-202 | one event changes one stored list as specified, or nothing |
| WatchCache.StepIff | pkg/lite-apiserver/cache/cache_mgr.go:137-162 | the list keeps representing the server's store if and only if the event fits it: an Added of an absent object, a Modified with a higher version number or the same object again, any Deleted |
| WatchCache.ListFollowsStore | pkg/lite-apiserver/cache/cache_mgr.go:91-203 | after every prefix of a well-formed stream the list has no key twice and holds exactly the server's objects |
| WatchCache.StaleModifiedIgnored | pkg/lite-apiserver/cache/cache_mgr.go:143-150 | a Modified whose version number is not higher than that of any copy of its object changes neither items nor version |
| WatchCache.ModifiedIff | pkg/lite-apiserver/cache/cache_mgr.go:143-150 | a Modified takes the place of the copy of its object if and only if its version number is higher, and touches nothing else |
| WatchCache.NewestWins | pkg/lite-apiserver/cache/cache_mgr.go:379-396 | over any sequence of Modified events in any order the copy held has the highest version number of all and its own never falls |
| WatchCache.ListVersion | pkg/lite-apiserver/cache/cache_mgr.go:164-176 | the list's own version is that of the last event that changed it, and other events change nothing |
| WatchCache.DeletedRemovesAllCopies | pkg/lite-apiserver/cache/cache_mgr.go:151-159 | every copy goes and nothing else |
| CacheKeys.SameFileIff | pkg/lite-apiserver/cache/cache_mgr.go:313-322 | under one user agent two requests without separators share a file if and only if verb and parts agree, which for resources is being the same and for other paths differing at most in dashes against slashes |
| CacheKeys.FileNameShape | pkg/lite-apiserver/storage/file_storage.go:162-168 | replacing slashes acts on the user agent alone |
| CacheKeys.SameFileAcrossAgentsIff | pkg/lite-apiserver/storage/file_storage.go:162-168 | for any two user agents two requests share a file if and only if the pieces of the agent followed by the parts of the request are the same sequence |
| CacheKeys.ListCollidesWithGet | pkg/lite-apiserver/cache/cache_mgr.go:313-322 | one agent's list and another's single object of a different request share a file |
| CacheKeys.UserAgentsCollide | pkg/lite-apiserver/storage/file_storage.go:162-168 | user agents that differ in slash and underscore share files |
| HostsFile.ParseHostsToFile | pkg/statefulset-grid-daemon/hosts/hosts.go:155-161 | the text is every entry once, in the iteration order |
| HostsFile.LineParses | pkg/statefulset-grid-daemon/hosts/hosts.go:50-61 | a printed line parses to its entry if the domain is one word, and to nothing otherwise |
| HostsLines.ParseLineIff | pkg/statefulset-grid-daemon/hosts/hosts.go:50-61 | a line is an entry if and only if, blanks and tabs around it aside, it is an address, a blank or tab, and one word with its surrounding spaces, tabs read as blanks |
| HostsLines.LastEntryWins | pkg/statefulset-grid-daemon/hosts/hosts.go:50-63 | the last entry for a domain gives its address over what was in memory; a domain without one is left alone |
| HostsFile.RoundTrip | pkg/statefulset-grid-daemon/hosts/hosts.go:46-74 | parsing the printed map gives the map back, for every iteration order |
| HostsFile.FileLoadsOk | pkg/statefulset-grid-daemon/hosts/hosts.go:46-74 | every file loads only single-word domains with valid addresses, and one without carriage returns only entries that round-trip |
| HostsFile.CarriageReturnLost | pkg/statefulset-grid-daemon/hosts/hosts.go:50-51 | a domain ending in a carriage return comes back without it |
| HostsRoundTrip.RoundTripIff | pkg/statefulset-grid-daemon/hosts/hosts.go:155-161 | the round trip holds in every order if and only if all addresses are valid and no domain has a second word, a tab, a newline, or a blank or carriage return at its end |
| HostsReconcile.HostsManager.LoadHosts | pkg/statefulset-grid-daemon/hosts/hosts.go:46-74 | the entries of the file added to memory; a missing file is created and clears it; read and creation errors change nothing |
| HostsReconcile.HostsManager.SaveHosts | pkg/statefulset-grid-daemon/hosts/hosts.go:146-153 | the file is the printed map, or whatever a failed write left |
| HostsReconcile.HostsManager.CheckOrUpdateHosts | pkg/statefulset-grid-daemon/hosts/hosts.go:85-128 | for any order memory ends reconciled, also when the write fails, and the file is written only if needed |
| HostsReconcile.HostsManager.SyncMatching | pkg/statefulset-grid-daemon/hosts/hosts.go:89-110 | the first loop, which mutates both maps while it iterates |
| HostsReconcile.HostsManager.AddWanted | pkg/statefulset-grid-daemon/hosts/hosts.go:117-122 | the second loop adds what is still wanted |
| HostsReconcile.HostsManager.SetHostsByMap | pkg/statefulset-grid-daemon/hosts/hosts.go:130-144 | the map is replaced and printed, or kept when the write fails |
| HostsReconcile.FileFollowsMemory | pkg/statefulset-grid-daemon/hosts/hosts.go:46-161 | after a first load of a file without carriage returns the parsed file equals the map in memory after every successful load, check and set of a run, in any order and number |
| HostsReconcile.ReconciledMeaning | pkg/statefulset-grid-daemon/hosts/hosts.go:85-128 | matching domains are exactly the desired ones with the desired addresses, others change only if passed in; reconciling twice is reconciling once |
| HostsReconcile.FailedWriteRetriedIff | pkg/statefulset-grid-daemon/hosts/hosts.go:111-127 | after a failed write the same call writes again if and only if some desired record does not match |
| PodRecords.ParentNameIff | pkg/statefulset-grid-daemon/util/stateful_set_utils.go:27-60 | a pod has a parent if and only if it is named parent, dash, digits |
| PodRecords.ShortenIff | pkg/statefulset-grid-daemon/controller/controller.go:341-348 | the shortened name is controller-ordinal if and only if the name repeats between the first occurrence of the grid value and the one after the controller |
| PodRecords.MemberShortens | pkg/statefulset-grid-daemon/controller/controller.go:341-348 | for member pods the grid value is always found and the slice is in bounds |
| PodRecords.MisnamedRecord | pkg/statefulset-grid-daemon/controller/controller.go:343-348 | a pod whose record is misnamed |
| PodRecords.BuildRecords | pkg/statefulset-grid-daemon/controller/controller.go:328-355 | the loops fill the map of the member pods with an address, and panic exactly when the set's name is too short for its controller's |
| PodRecords.FillMeaning | pkg/statefulset-grid-daemon/controller/controller.go:341-354 | a record exists if and only if some pod gives it, and holds the last such pod's address |
| PodRecords.OneRecordPerPod | pkg/statefulset-grid-daemon/controller/controller.go:328-355 | each member pod with an address has its own controller-ordinal record with that address |
| PodRecords.SyncedRecords | pkg/statefulset-grid-daemon/controller/controller.go:328-359 | after a whole sync, from any earlier map, the records of the grid and service are exactly one per pod that the set owns, that is named by it, a dash and digits, and that has an address |
| RecordPattern.RecordMatchesIff | pkg/statefulset-grid-daemon/hosts/hosts.go:80-83 | a record is picked out if and only if its grid's name ends in the given one, the service is the same, and the namespace is the same or goes on with the suffix spelt with other characters for its dots |
| RecordPattern.PrefixedRecordMatches | pkg/statefulset-grid-daemon/hosts/hosts.go:80-83 | the records of every grid whose name ends in this one's are picked out |
| RecordPattern.DotsMatchAnything | pkg/statefulset-grid-daemon/hosts/hosts.go:80-83 | for namespace x the records in namespace x-svc-cluster-local match too |
| RecordPattern.NeighbourRecordDeletedIff | pkg/statefulset-grid-daemon/hosts/hosts.go:89-96 | a sync deletes another grid's record if and only if it is one of those |
| Tunnel.Node.BindNode | pkg/tunnel/tunnelcontext/node.go:45-53 | append, in place or in a grown array |
| Tunnel.Node.UnbindNode | pkg/tunnel/tunnelcontext/node.go:55-69 | exactly when ranging over the shifting slice panics, and what it leaves otherwise |
| Tunnel.ScanMeaning | pkg/tunnel/tunnelcontext/node.go:58-62 | the loop panics if and only if the last element is the uid and it occurs before; otherwise each removal keeps the next element unread |
| Tunnel.OthersUntouched | pkg/tunnel/tunnelcontext/node.go:58-62 | other uids stay, in order |
| Tunnel.RemovesAllIff | pkg/tunnel/tunnelcontext/node.go:58-62 | every copy of the uid goes if and only if no two are neighbours |
| Tunnel.DoubleBindSurvives | pkg/tunnel/tunnelcontext/node.go:58-62 | a uid bound twice in a row survives |
| Tunnel.Node.ConnectNode | pkg/tunnel/tunnelcontext/node.go:71-105 | a failed connect panics if and only if the uid was bound already; otherwise the bound uids are restored, and both tables if and only if the uid was in neither |
| Tunnel.ConnContext.AddConn | pkg/tunnel/tunnelcontext/conncontext.go:30-36 | a new connection under the uid |
| Tunnel.ConnContext.RemoveConn | pkg/tunnel/tunnelcontext/conncontext.go:38-42 | the uid's connection goes, nothing else |
| Tunnel.ConnContext.GetConns | pkg/tunnel/tunnelcontext/conncontext.go:50-61 | the existing connections of the names, in order |
| Tunnel.LookupFinds | pkg/tunnel/tunnelcontext/conncontext.go:50-61 | those are the connections of exactly the names that have one, each position once, in order |
| Tunnel.RunStaysDistinct | pkg/tunnel/tunnelcontext/node.go:45-69 | no run of fresh binds and unbinds panics or binds a uid twice |
| Tunnel.FailedConnectInvisible | pkg/tunnel/tunnelcontext/node.go:71-105 | whatever other uids bind and unbind meanwhile, a failed connect leaves what there would be without it |
| Parallelize.FillChannel | pkg/edge-health/communicate/prober.go:77-82 | the channel holds each piece once, in order |
| Parallelize.StepConserves | pkg/edge-health/communicate/prober.go:90-97 | no step loses or copies a piece |
| Parallelize.StartMeaning | pkg/edge-health/communicate/prober.go:77-98 | at most one worker per piece, the pieces in order, and a panic exactly on negative numbers |
| Parallelize.TakenInOrder | pkg/edge-health/communicate/prober.go:77-98 | in every interleaving the pieces not taken yet are the last ones, in order |
| Parallelize.NoDeadlock | pkg/edge-health/communicate/prober.go:88-98 | some worker can move if and only if not all are done |
| Parallelize.ExactlyOnce | pkg/edge-health/communicate/prober.go:77-99 | with a worker, in every interleaving that returns each piece was processed exactly once, in exactly two steps per piece and one per worker |
| Parallelize.AllDoneIff | pkg/edge-health/communicate/prober.go:77-99 | all work is done on return if and only if there is a worker or no piece |
| Parallelize.RunsEnd | pkg/edge-health/communicate/prober.go:77-99 | from every state the workers can finish |

## Left out

- Commands, options, leader election, informer wiring, HTTP servers and clients, TLS, SSH and shell work: no logic of their own to prove.
- The site-manager, helper-job, penetrator, apps-manager and kubeclient packages: API calls and file writing.
- JSON, gzip, YAML and HMAC: function parameters or the assumption that reports are not forged.
- The Go memory model: each unlocked read of a size or a row is one atomic step.
- Replay of v1beta1 slice events: the resync sends them to the v1 broadcaster (pkg/application-grid-wrapper/storage/cache.go:237), so only the coherence of that table is stated.
- The v1 and v1beta1 slice handlers as class methods, and their copies of the prune loops: they differ from the Endpoints ones only in types; their steps, rules and events are modelled and proved as functions.
- Events dropped by a full broadcaster queue.
- The selection of nodes in GetNodeList before the addresses are known (pkg/edge-health/check/check.go:63-141): label selectors of a library.
- EdgeHealth.Check: NaN and infinite scores.
- QuorumIntersection: the Hmac field of a row is not carried, because nothing but the excluded forgery check reads it.
- AllocationBitmap.Allocate and Release: offsets are natural numbers, because Go's big.Int panics on a negative bit index.
- TrueUpToKeys: where a pair does come back swapped or seen the other way, whether the answer is right depends on the order of visits; such heaps are not classified further.
- ReturnsIff: values that are not contained, whose comparison may stop at a difference before it reaches a cycle.
- DeepContainsValues: channels, unsafe pointers and interface-typed map keys are scalars or absent; NaN map keys, which Go's index expression never finds, are absent.
- Decoding, storage failures and bookmarks of cacheWatch beyond skipping the event; the other storage back ends.
- SameFileAcrossAgentsIff: only requests whose parts hold neither separator, as Kubernetes names do.
- RecordMatchesIff: names with regular-expression operators (a dot in a grid or service name) are not modelled; the unescaped dots of the suffix are.
- needClearStatefulSetDomains and the periodic sync of all statefulsets, which reuse CheckOrUpdateHosts and SetHostsByMap.
- UnbindNode: the state after a panic is unspecified, since the process ends.
- GetBindConns returns the live slice; that aliasing is not modelled.
- Parallelize: a panic inside the work function.
