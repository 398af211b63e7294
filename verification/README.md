# Nightjar, verified

Nightjar watches a Kubernetes cluster for policies that constrain workloads, keeps the constraints it
finds in an in-memory index, and tells people about them: reports per namespace, Events, workload
annotations. Its core is a set of indexes, caches and queues that many goroutines change, and that must
keep agreeing with something simple. This project models that core and proves that it does, or exactly
when it does not.

- **Index** (`indexer.dfy`): the map of constraints by UID, the namespace query and the stream of change
  events. A listener that replays the events holds the index.
- **Reports** (`report_protocol.dfy`, `due_visits.dfy`, `report_reconciler.dfy`, `report_status.dfy`): a state machine whose
  steps are the lock-protected sections and API calls of index writers, callbacks and the reconciler, in
  any interleaving. Reports converge to the index exactly when changes are announced. The reconciler class
  takes runs of that machine; the status it writes does not depend on the order of the constraints.
- **Service map** (`service_index.dfy`, `service_agreement.dfy`, `servicemap.dfy`): nested maps and lists
  updated in place by watch events, shown to agree with the plain set of live services.
- **Notifications** (`dedupe.dfy`, `rate_limiter.dfy`, `notifications.dfy`): time-windowed caches with
  background cleanup and token buckets with eviction, shown to decide as if they never forgot anything.
- **Discovery** (`registry.dfy`, `routing.dfy`, `engine.dfy`, `live_objects.dfy`): adapters and their
  routing, profiles and informer channels, suppression, and the index as a function of the live objects.
- **End to end** (`end_to_end.dfy`): the two composed: at quiescence the reports are the parse of the live objects.
- **Annotations** (`fan_out.dfy`, `annotator.dfy`): several workers on one bounded queue whose updates breed
  further updates. Runs end, and patches keep their distance, under exact conditions.
- **Debounce, backoff, labels** (`evaluator.dfy`, `hubble.dfy`, `flow_labels.dfy`).
- **Shared** (`kube.dfy`, `clocks.dfy`, `decimal.dfy`): values, the clock, and printing numbers into keys.

Time is an integer that never goes back; the unit is a nanosecond where it matters. A query over a Go map
answers with a set or in an arbitrary order. What an API call, a rule, a parse of an object's fields or a
connection attempt answers is an input. `dafny verify dfyconfig.toml` checks everything.

Where code and documentation disagree, the code is modelled. Registering a disabled profile is said to
clean up its constraints (internal/discovery/engine.go:512-513); it leaves the index alone, as
`DisablingLeavesConstraint` shows. Registering an
enabled profile again is said to update in place (internal/discovery/engine.go:481-482); it forgets the
stop channel of the first informer. The reconciler creates a report together with its status
(internal/notifier/report_reconciler.go:200-216), but the kind has a status subresource
(config/crd/nightjar.io_constraintreports.yaml:463-464), so an API server stores the report without it.

Several properties one would expect are false of the code. For each there is a concrete failing input or
run, and a lemma that says exactly when the property holds: `ChangeConvergesIffAnnounced`, `FailureConvergesIff`,
`MirrorsAgreeIff`, `EvictionIsInvisibleIff`, `CompleteThroughoutIff` (per operation `DeleteKeepsOtherIff` and
`UpsertKeepsOtherIff`), `TidyThroughoutIff` (per operation `UnregisterGVRKeepsTidyIff` and
`OverwriteKeepsTidyIff`), `RunAccountsIff`, `StopEndsEverythingIff`, `FedThroughoutIff`, `DisablingCleansIff`, `ExactThroughoutIff`,
`OwnersClashIff`, `RulesClashIff`, `ReportedThroughoutIff`, `FanOutTerminatesIff`, `PatchesAreSpacedIff`,
`BackoffIsExactIff`, `LabelSurvivesIff`.

## Model

| member | source | states |
|---|---|---|
| Indexing.Indexer.Upsert | internal/indexer/indexer.go:39-47 | replaces the entry of one UID, emits one event, and keeps the index equal to the replay of everything emitted |
| Indexing.Indexer.Delete | internal/indexer/indexer.go:50-61 | removes one UID, emits an event only if it was there, keeps index and replay equal |
| Indexing.Indexer.QueryNamespace | internal/indexer/indexer.go:65-95 | the list is a permutation of the set of constraints matching the namespace |
| Indexing.Indexer.DeleteBySource | internal/indexer/indexer.go:151-173 | leaves exactly the other sources, emits one deletion per removed constraint, returns the drop in size, keeps index and replay equal |
| Indexing.ReplayIsLastWord | internal/indexer/indexer.go:39-61 | a replayed index holds, for each UID, what the last event about it says |
| Indexing.MirrorsAgreeIff | internal/indexer/indexer.go:39-61 | two streams of events replay to the same index if and only if their last words about every UID agree |
| Indexing.ReplayNeedsOnlyPerUidOrder | internal/indexer/indexer.go:39-61 | streams that agree on the order of events per UID replay to the same index |
| Indexing.SwappedDeliveriesDiverge | internal/indexer/indexer.go:39-61 | callbacks run outside the lock: two swapped deliveries about one UID leave a mirror wrong |
| Indexing.ByNamespaceGrows | internal/indexer/indexer.go:65-95 | one more constraint changes the query by exactly itself, if it matches |
| Indexing.ByNamespaceShrinks | internal/indexer/indexer.go:50-76 | one deletion changes every query by exactly the deleted constraint |
| ReportProtocol.ReportsConverge | internal/notifier/report_reconciler.go:113-229 | in every interleaving of announced changes, late callbacks, swaps, requeues, reads and writes, each report equals the index or a visit is on its way; at quiescence all reports are right |
| ReportProtocol.ChangesExactly | internal/indexer/indexer.go:39-95 | the scopes of the old and new constraint decide exactly which namespace answers a write changes |
| ReportProtocol.ScopedWritersAnnounce | internal/notifier/report_reconciler.go:113-136 | writers announce every change if cluster-scoped constraints list no namespaces and replacements do not shrink scope |
| ReportProtocol.ScopedRunsConverge | internal/notifier/report_reconciler.go:113-229 | so in every run of such writers without failures, reports are right or covered, and all right at quiescence |
| ReportProtocol.ChangeConvergesIffAnnounced | internal/notifier/report_reconciler.go:113-184 | from agreement, one change and any run to quiescence without failures restores agreement if and only if the change was announced |
| ReportProtocol.UnannouncedIsStale | internal/notifier/report_reconciler.go:113-136 | a change that is not announced leaves some report wrong with nothing on its way |
| ReportProtocol.StaleStays | internal/notifier/report_reconciler.go:139-184 | such a report stays wrong in every run without a further change |
| ReportProtocol.ListedClusterScopeIsNotAnnounced | internal/notifier/report_reconciler.go:117-134 | a cluster-scoped constraint with listed namespaces matches everywhere and is announced only there |
| ReportProtocol.ShrinkingScopeIsNotAnnounced | internal/indexer/indexer.go:39-47 | an upsert event lacks the replaced constraint, so namespaces that drop out are not announced |
| ReportProtocol.FailureConvergesIff | internal/notifier/report_reconciler.go:147-216 | a failed write, a failed namespace listing or a create that loses its status, then any run to quiescence without changes or failures: all reports are right if and only if each namespace the failure gave up was right or covered otherwise |
| ReportProtocol.StatusIsLostOnlyOnce | internal/notifier/report_reconciler.go:200-216 | in every run only a namespace that had no report at the start can lose a status |
| ReportProtocol.FailedWriteLosesReport | internal/notifier/report_reconciler.go:174-178 | a run in which a failed write ends quiet with a wrong report |
| ReportProtocol.LostStatusLosesReport | internal/notifier/report_reconciler.go:200-216 | the same for a create without status |
| ReportProtocol.FailedListLosesReports | internal/notifier/report_reconciler.go:147-158 | a run in which a failed listing ends quiet with every report wrong |
| ReportProtocol.ReconcilesAreSpaced | internal/notifier/report_reconciler.go:139-184 | in every run two recorded reconciles of one namespace are at least the debounce duration apart |
| DueVisits.PutOffIff | internal/notifier/report_reconciler.go:159-174 | a trigger can be requeued if and only if its namespace was reconciled less than the debounce duration ago, and read otherwise |
| DueVisits.DueIsVisited | internal/notifier/report_reconciler.go:139-184 | in every run a whole pass that begins with a visit pending, the debounce duration or more after the last one, reads the index for that namespace, whatever writers and callbacks do meanwhile |
| ReportReconciling.ReportReconciler.OnIndexChange | internal/notifier/report_reconciler.go:113-136 | is the delivery step: adds exactly the affected namespaces and the constraint's own, or marks all if it has none |
| ReportReconciling.ReportReconciler.ReconcileNamespace | internal/notifier/report_reconciler.go:187-229 | stores the index's answer for the namespace, or an empty report when the server drops the status of a new one, or changes nothing and fails |
| ReportReconciling.ReportReconciler.HandleTrigger | internal/notifier/report_reconciler.go:159-183 | one trigger is a protocol run: requeued exactly if the last reconcile lies less than the debounce duration back, otherwise reconciled and, unless that fails, recorded |
| ReportReconciling.ReportReconciler.ProcessPendingTriggers | internal/notifier/report_reconciler.go:139-184 | a pass is a protocol run; it leaves pending only what was reconciled less than the debounce duration before it began; if nothing was, no call fails and no visited report is created without its status, nothing is left pending and all reports are right afterwards |
| ReportStatus.BuildReportStatus | internal/notifier/report_reconciler.go:232-306 | both entry lists are severity-sorted permutations, the counters count their severities, the tags are the strictly sorted union |
| ReportStatus.CountersCoverTotalIff | internal/notifier/report_reconciler.go:247-255 | the counters sum to at most the total, with equality if and only if every severity is known |
| ReportStatus.MostSevereFirst | internal/notifier/report_reconciler.go:279-285 | in both lists "Critical" entries come first, then "Warning", then "Info", then the rest |
| ReportStatus.EntriesShowConstraints | internal/notifier/report_reconciler.go:245-276 | each constraint has an entry in both lists and each entry a constraint, field by field; the name is hidden exactly at the summary level from other namespaces |
| ReportStatus.ReportsAgree | internal/notifier/report_reconciler.go:232-306 | reports of one set of constraints in two orders differ at most in the order of equally severe entries |
| ReportStatus.StrictlySortedIsUnique | internal/notifier/report_reconciler.go:288-288 | the sorted tag list is determined by its elements |
| ReportStatus.BuildAnnotationPatch | internal/notifier/workload_annotator.go:368-438 | removes the annotations exactly for no constraints; otherwise the counters and the true maximum severity |
| ReportStatus.MaximumIsUnique | internal/notifier/workload_annotator.go:386-410 | the maximum severity does not depend on the order |
| ReportStatus.MaximumIs | internal/notifier/workload_annotator.go:386-410 | it is "critical" if and only if a constraint is Critical, else "warning" if one is a Warning, else "info" if one is Info |
| ServiceIndex.KeyInjective | internal/servicemap/servicemap.go:421-423 | the address key determines address and port, for every address string and every port |
| ServiceAgreement.PortIndexIsExact | internal/servicemap/servicemap.go:186-285 | after any changes the port list, per service name, is exactly the live service's ports with that number in order; nothing else is listed and no list is empty |
| ServiceAgreement.AddressIndexIsLive | internal/servicemap/servicemap.go:186-285 | unconditionally, every address entry is a current port of a live service under its own key |
| ServiceAgreement.AddressIndexIsComplete | internal/servicemap/servicemap.go:186-285 | if no two live services ever claim one address and port, every port of a live service with a routable ClusterIP resolves to its service's last port with that number |
| ServiceAgreement.CompleteThroughoutIff | internal/servicemap/servicemap.go:186-285 | after every prefix of any history all such ports resolve, if and only if after no prefix two live services claim one address and port |
| ServiceIndex.LastOnSpec | internal/servicemap/servicemap.go:213-243 | the last port of a service with a number is filed with that port's own name, number and protocol |
| ServiceIndex.OnPortSpecs | internal/servicemap/servicemap.go:213-243 | the ports of a service with a number are filed in order, each with its own name and protocol |
| ServiceAgreement.DeleteKeepsOtherIff | internal/servicemap/servicemap.go:246-285 | deleting a service keeps another resolvable if and only if it did not claim the same address |
| ServiceAgreement.UpsertKeepsOtherIff | internal/servicemap/servicemap.go:186-243 | an upsert keeps another service resolvable if and only if neither its old nor its new version claims the address |
| ServiceAgreement.SharedAddressIsLost | internal/servicemap/servicemap.go:260-285 | two services with one ClusterIP and port: deleting the later one makes the other unresolvable |
| ServiceMapping.ServiceMap.RemoveServiceFromIndexes | internal/servicemap/servicemap.go:260-285 | takes the entry's ports out of the lists and addresses, as the value-level operation does |
| ServiceMapping.ServiceMap.UpsertService | internal/servicemap/servicemap.go:186-243 | the maps become those of the value-level upsert the agreement lemmas are about |
| ServiceMapping.ServiceMap.DeleteService | internal/servicemap/servicemap.go:246-257 | the maps become those of the value-level deletion |
| ServiceMapping.ServiceMap.WatchServices | internal/servicemap/servicemap.go:114-141 | after the loop the maps are those of the whole history of events |
| ServiceMapping.ServiceMap.UpsertEndpoints | internal/servicemap/servicemap.go:288-318 | for a live service every address is filed whose endpoint port has the name or number of one of the service's ports; what is new or changed is such an address, filed as the last matching port, field by field; without a live service nothing changes |
| ServiceMapping.BackedAddressesAreFiled | internal/servicemap/servicemap.go:288-318 | every address of every subset is filed for the service under each port number it backs |
| ServiceMapping.OnlyBackedAddressesAreFiled | internal/servicemap/servicemap.go:288-318 | a new or changed entry is an address of a subset, with the last port of the service that backs it |
| ServiceMapping.ServiceMap.DeleteEndpoints | internal/servicemap/servicemap.go:321-336 | removes exactly the addresses filed for the service |
| ServiceMapping.ServiceMap.ResolvePort | internal/servicemap/servicemap.go:340-357 | a ClusterIP hit is a port of a live service, field by field, and never a headless one's; if no two live services ever exposed one address and number, every port of a live service with an address resolves to its last port with that number, with its name and protocol; only without a hit is the endpoint entry asked |
| ServiceMapping.ServiceMap.ResolvePortInNamespace | internal/servicemap/servicemap.go:361-369 | lists, for each live service of the namespace, its ports with that number in order with their names and protocols, and nothing else |
| ServiceMapping.ServiceMap.ServiceCount | internal/servicemap/servicemap.go:409-418 | counts exactly the live services of the history |
| Deduping.CleanupIsInvisible | internal/correlator/correlator.go:229-261 | in every run with cleanups the filter answers as one that never forgets |
| Deduping.AcceptsAreSpaced | internal/notifier/dispatcher.go:269-300 | two accepted calls with one key are at least a window apart, whatever is cleaned up between them |
| Deduping.DeliveriesAreSpaced | internal/correlator/correlator.go:205-222 | any part of the accepted calls that is delivered keeps the spacing |
| Deduping.DedupeCache.TryMarkSeen | internal/notifier/dispatcher.go:269-280 | accepts and marks exactly keys not marked within the window before the clock reading compared; accepted calls stay spaced |
| Deduping.DedupeCache.Cleanup | internal/correlator/correlator.go:242-261 | drops exactly the marks older than the window and keeps accepted calls spaced |
| Notifying.Correlator.HandleEvent | internal/correlator/correlator.go:173-224 | pairs the event with every constraint of its namespace, each judged once: marks and sends are exactly those of the two functions below, nothing else is sent |
| Notifying.SentIsExact | internal/correlator/correlator.go:193-224 | exactly the pairs not marked within the window when they are checked are sent, as long as the channel has room |
| Notifying.MarksAreExact | internal/correlator/correlator.go:205-240 | exactly those pairs get a new mark; the others keep the mark that refused them |
| Notifying.ChannelKeepsSpacing | internal/correlator/correlator.go:193-224 | of everything ever sent on the channel, two notifications for one event and constraint were accepted five minutes apart, also when some were dropped |
| Notifying.Dispatcher.Dispatch | internal/notifier/dispatcher.go:112-146 | creates an Event if and only if the token bucket admits, the pair was not marked within the window, and the call succeeds; bucket and marks change accordingly |
| Notifying.EventsKeepSpacing | internal/notifier/dispatcher.go:112-146 | of the Events created for one constraint and workload, the accepted checks behind them are a suppression window apart |
| Notifying.WorkloadKeyInjective | internal/notifier/dispatcher.go:122-125 | for namespaces without a slash, the key tells different constraints and workloads apart |
| RateLimiting.EvictionIsInvisible | internal/notifier/dispatcher.go:41-81 | if a token is refilled in what a stalled call leaves of the hour, evicting idle buckets changes no answer in any run |
| RateLimiting.EvictionIsInvisibleIff | internal/notifier/dispatcher.go:41-81 | for every limit and every bound on the stall between a call's two clock readings, eviction is invisible in all runs if and only if that refill holds; up to 59 minutes of stall this means a positive limit |
| RateLimiting.EvictionShows | internal/notifier/dispatcher.go:41-81 | otherwise one call, an eviction and a burst of calls get one admission too many |
| RateLimiting.WindowBound | internal/notifier/dispatcher.go:41-81 | any window, after any run and any idle time, admits at most a tenth of the limit (at least one) plus what the limit refills in the window itself, evictions included |
| RateLimiting.NewBucketAdmitsIff | internal/notifier/dispatcher.go:49-68 | of n calls at one moment in a namespace without a bucket the last is admitted if and only if n is at most a tenth of the limit, or one |
| RateLimiting.RefilledIsAdmitted | internal/notifier/dispatcher.go:58-68 | after any run a call is admitted if a whole token was refilled since every earlier call of its namespace |
| RateLimiting.ReachableIsStamped | internal/notifier/dispatcher.go:41-81 | in every state a run reaches no bucket is in debt, and one drawn from after its recorded access was refilled in between, by at most the stall |
| RateLimiting.AdmissionsAreFunded | internal/notifier/dispatcher.go:58-68 | what is admitted is paid by the level at the start plus the refill since |
| RateLimiting.NsRateLimiter.TryAllow | internal/notifier/dispatcher.go:58-68 | answers and changes the buckets as the token bucket does, creating a full one for a new namespace |
| RateLimiting.NsRateLimiter.EvictIdle | internal/notifier/dispatcher.go:71-81 | forgets exactly the namespaces idle longer than an hour |
| AdapterRegistry.AlwaysCovered | internal/adapters/registry.go:33-58 | in every reachable state, also after a half-failed registration, each mapped resource's group has an adapter |
| AdapterRegistry.GroupAdapterIsStable | internal/adapters/registry.go:101-176 | a group's adapter changes only when that name is unregistered or the group loses its last resource |
| AdapterRegistry.CarefulRunsAreTidy | internal/adapters/registry.go:33-176 | over registrations, unregistrations, mappings of unmapped resources, and remappings and unmappings that meet the two conditions below, the groups with an adapter are exactly the mapped ones and each owner has a resource in its group |
| AdapterRegistry.TidyThroughoutIff | internal/adapters/registry.go:33-176 | a run is tidy throughout if and only if all its operations are of that sort |
| AdapterRegistry.UnregisterGVRKeepsTidyIff | internal/adapters/registry.go:155-176 | unmapping keeps that exactly when the owner keeps a resource, was not involved, or the group is done |
| AdapterRegistry.OverwriteKeepsTidyIff | internal/adapters/registry.go:142-152 | overwriting a mapping keeps it exactly when the owner takes it or keeps another resource |
| AdapterRegistry.UnmappingOrphansOwner | internal/adapters/registry.go:162-174 | a run after which a group belongs to an adapter with no resource in it |
| AdapterRegistry.OverwritingOrphansOwner | internal/adapters/registry.go:146-151 | the same by overwriting |
| AdapterRegistry.GenericIsLastResort | internal/discovery/engine.go:374-415 | in every reachable state the generic adapter is reached only if no resource of the group is mapped |
| AdapterRegistry.RegisteredIsMapped | internal/adapters/registry.go:33-176 | in every run a successful registration maps each of the adapter's resources to it until that resource is unmapped or remapped or the adapter unregistered |
| AdapterRegistry.Registry.AddAdapter | internal/adapters/registry.go:33-58 | is the registration step: succeeds exactly if the name is new and the resources are different and unmapped, then maps each of them; otherwise it keeps what it mapped before the conflict; no mapping is changed |
| AdapterRegistry.Registry.RemoveAdapter | internal/adapters/registry.go:101-138 | is the unregistration step: its resources go, its groups pass to any adapter left or disappear |
| AdapterRegistry.Registry.MapGVR | internal/adapters/registry.go:142-152 | is the mapping step; the group keeps an earlier adapter |
| AdapterRegistry.Registry.UnmapGVR | internal/adapters/registry.go:155-176 | is the unmapping step; the group goes only if its owner's last resource in it goes and none is left |
| Routing.Choose | internal/discovery/engine.go:374-415 | routes by some enabled profile of the resource; when none names a registered adapter, to the adapter mapped to exactly the resource, and only without one to the group's |
| Routing.RoutePrecedence | internal/discovery/engine.go:374-415 | for every choice of profile: the adapter it names if registered, else the resource's own, else the group's, else the generic one |
| Routing.RegisteredIsRouted | internal/discovery/engine.go:374-415 | in every run objects of a registered adapter's resources go to that adapter until the resource is withdrawn, unless a profile names another |
| Routing.GenericReachableIff | internal/discovery/engine.go:374-415 | exactly when an object goes to the generic adapter, for every choice among the profiles |
| Discovery.NoChannelClosedTwice | internal/discovery/engine.go:483-596 | over every sequence of profile registrations, removals, scans and stops no channel is closed twice |
| Discovery.SuppressionHolds | internal/discovery/engine.go:228-256 | from registering a disabled profile until it is lifted, no scan watches the resource and no add or update event changes the index |
| Discovery.ChannelsAccountedIff | internal/discovery/engine.go:497-511 | an operation keeps every channel closed or held, except exactly when it registers an enabled profile holding one again for its resource |
| Discovery.RunAccountsIff | internal/discovery/engine.go:483-596 | after any run every channel is closed or held if and only if no earlier operation was such a registration |
| Discovery.LostForever | internal/discovery/engine.go:714-726 | a channel lost that way is never closed by any later operation, not even a stop |
| Discovery.RepeatedRegistrationLeaks | internal/discovery/engine.go:483-536 | a run that removes every profile and leaves an informer running |
| Discovery.StopEndsEverythingIff | internal/discovery/engine.go:714-726 | the first stop ends every informer ever started if and only if no enabled profile was registered again before |
| Discovery.SecondStopEndsNothing | internal/discovery/engine.go:714-726 | an informer started after the first stop survives a second one |
| Discovery.WatchedIsFedIff | internal/discovery/engine.go:483-581 | an operation keeps a running informer for every watched resource, except exactly when it closes the last one and leaves the resource watched |
| Discovery.FedThroughoutIff | internal/discovery/engine.go:483-581 | in a run without a stop every watched resource has one throughout if and only if no operation does that |
| Discovery.StarvedForever | internal/discovery/engine.go:243-255 | as long as it stays watched, no sequence of scans and registrations gives such a resource an informer again |
| Discovery.SharedResourceStarves | internal/discovery/engine.go:539-564 | a run with two profiles for one resource that ends with it watched and unfed |
| Discovery.DisablingLeavesConstraint | internal/discovery/engine.go:510-515 | a run in which a resource is found, an object indexed and the resource disabled, and the constraint is still indexed |
| Discovery.DisablingCleansIff | internal/discovery/engine.go:510-515 | disabling a resource leaves none of its constraints indexed only if there were none |
| Discovery.IndexedStays | internal/discovery/engine.go:302-371 | in every run only a delete event or the removal of a profile takes a UID out of the index |
| Discovery.RegistrationStores | internal/discovery/engine.go:483-536 | a registration stores exactly the given profile, changes no other and not the index, and decides whether its resource is watched |
| Discovery.ScanWatchesExactly | internal/discovery/engine.go:228-256 | a scan adds exactly the discovered resources no disabled profile is for, each with an informer |
| Discovery.RemovalCleansExactly | internal/discovery/engine.go:539-581 | removing a profile takes exactly the constraints of its resource out of the index, and none if another enabled profile is for it |
| Discovery.Engine.Register | internal/discovery/engine.go:483-536 | is the registration step of the lifecycle the lemmas are about |
| Discovery.Engine.Unregister | internal/discovery/engine.go:539-581 | is the removal step; unless still needed the resource is unwatched and its constraints are deleted |
| Discovery.Engine.WatchDiscovered | internal/discovery/engine.go:228-256 | watches exactly the discovered resources no profile suppresses |
| Discovery.Engine.StopAll | internal/discovery/engine.go:714-726 | closes the engine's and every held channel, once |
| Discovery.Engine.HandleAdd | internal/discovery/engine.go:302-337 | upserts the parsed constraints of a watched resource in order; nothing otherwise |
| Discovery.Engine.HandleDelete | internal/discovery/engine.go:343-371 | none of the parsed UIDs is indexed afterwards, or the object's own UID is not if there are none; every other UID is unchanged |
| LiveObjects.SyntheticUidInjective | internal/adapters/kyverno/adapter.go:161-161 | object and position can be read back from a synthetic UID, for all strings |
| LiveObjects.SchemesCollideIff | internal/adapters/limitrange/adapter.go:87-87 | a rule's and an entry's UID are equal exactly if the entry's object UID is the rule's plus "-rule" and the positions agree |
| LiveObjects.DifferentLengthsClash | internal/adapters/webhookconfig/adapter.go:99-99 | object UIDs of different lengths can clash, a policy's with a limit range's and a limit range's with a generic object's |
| LiveObjects.OwnersClashIff | internal/adapters/kyverno/adapter.go:161-161 | two objects can share a constraint UID if and only if one's UID is a constraint UID of the other or the other's plus "-rule" |
| LiveObjects.OwnersAreDisjoint | internal/adapters/kyverno/adapter.go:161-161 | objects with UIDs of one length never share a constraint UID, across all schemes |
| LiveObjects.CollectedIsOnePerItem | internal/adapters/kyverno/adapter.go:84-98 | each list element that is not skipped gives one constraint with its own UID, and nothing else is produced |
| LiveObjects.ParsedIsOwned | internal/adapters/generic/adapter.go:149-166 | whatever the adapter, an object's constraints have different UIDs, all its own |
| LiveObjects.ParsePolicy | internal/adapters/kyverno/adapter.go:56-105 | one constraint per parsable rule in order; an error for no spec, no rules or no parsable rule |
| LiveObjects.ParseLimitRange | internal/adapters/limitrange/adapter.go:38-108 | one constraint per entry in order; an error only for a missing spec |
| LiveObjects.ParseEntries | internal/adapters/webhookconfig/adapter.go:65-132 | one constraint per webhook that is not skipped, in order |
| LiveObjects.EventsAreLocal | internal/discovery/engine.go:302-371 | an event about one object changes no UID of another |
| LiveObjects.HandlerRefines | internal/discovery/engine.go:302-371 | for a watched resource the engine's handlers change the index as the object's event does |
| LiveObjects.EngineIndexIsObjects | internal/discovery/engine.go:302-371 | over any sequence of events the engine's index is the one the results about live objects speak of |
| LiveObjects.LiveObjectsAreIndexed | internal/discovery/engine.go:302-371 | in every run every constraint of the latest parsable version of every live object is in the index |
| LiveObjects.EventKeepsExactIff | internal/discovery/engine.go:334-371 | an event leaves nothing behind exactly when it drops no UID of the object's previous version |
| LiveObjects.IndexIsExact | internal/discovery/engine.go:302-371 | in runs without such drops the index holds the latest versions and nothing else |
| LiveObjects.ExactThroughoutIff | internal/discovery/engine.go:302-371 | a run leaves nothing behind at any time if and only if none of its events drops a UID |
| LiveObjects.ShrinkingPolicyLeavesRule | internal/discovery/engine.go:334-337 | a policy that loses a rule leaves that rule's constraint in the index, even after its deletion |
| LiveObjects.UnparsableDeletionLeavesEntry | internal/discovery/engine.go:360-366 | deleting an object whose last version does not parse removes only the object's own UID |
| LiveObjects.GenericIsExact | internal/adapters/generic/adapter.go:52-167 | of an object parsed generically the index holds its latest version exactly while it is live, and nothing under any other UID, whatever happens to others |
| LiveObjects.AllGenericIsExact | internal/adapters/generic/adapter.go:52-167 | when every object is parsed generically the index is exactly the parse of the live objects, for UIDs of any length |
| EndToEnd.ReportsAreTheLiveObjects | internal/discovery/engine.go:302-371 | object events whose writes interleave in any way that keeps their order per UID, with callbacks and passes beside them: if no event drops a UID, no call fails and the parses keep to scopes, then at quiescence each report holds exactly the constraints of the live objects that concern its namespace |
| Requirements.KeyInjective | internal/requirements/evaluator.go:94-94 | keys determine workload and rule if no rule's name ends in a colon and another's, in particular without colons |
| Requirements.ColonsMakeKeysAmbiguous | internal/requirements/evaluator.go:94-94 | with colons two rules on two workloads can share a key |
| Requirements.RulesClashIff | internal/requirements/evaluator.go:94-94 | two rules can share a key if and only if one's name ends in a colon and the other's name |
| Requirements.ReportsAreDebounced | internal/requirements/evaluator.go:71-121 | whatever is reported was missing for the same rule and workload at least the debounce duration earlier and never present since |
| Requirements.MissingIsReported | internal/requirements/evaluator.go:71-137 | a key recorded missing at t0 and never present is reported at every evaluation from t0+D on, as long as no cleanup ran after t0+2D |
| Requirements.MissingIsReportedInTime | internal/requirements/evaluator.go:71-137 | in particular at every evaluation from t0+D to t0+2D, however cleanups interleave |
| Requirements.EntryStaysIff | internal/requirements/evaluator.go:71-137 | the entry keeps t0 if and only if no cleanup ran more than twice the duration later |
| Requirements.LateCleanupSilences | internal/requirements/evaluator.go:125-137 | a cleanup that drops an entry silences its key for a whole duration |
| Requirements.ReportedThroughoutIff | internal/requirements/evaluator.go:71-137 | a resource that stays missing is reported by every evaluation from t0+D on that finds it missing, if and only if none of them follows a cleanup later than t0+2D |
| Requirements.CleanupInterruptsReports | internal/requirements/evaluator.go:125-137 | a run in which that happens to a resource that is still missing |
| Requirements.ReportedIff | internal/requirements/evaluator.go:71-121 | an evaluation of differently named rules returns a constraint if and only if a rule misses it now and its entry, told from before the evaluation, is a duration old |
| Requirements.Evaluator.Evaluate | internal/requirements/evaluator.go:71-121 | takes one step of the debounce machine per rule, all at one clock reading, and returns exactly what ReportedIff says, under the workload's UID or else its namespace and name |
| Requirements.Evaluator.CleanupStaleEntries | internal/requirements/evaluator.go:125-137 | is the cleanup step: drops exactly entries older than twice the duration |
| FanningOut.FanOutTerminates | internal/notifier/workload_annotator.go:249-357 | if no namespace is named like the cluster-wide marker and listed workloads have names: from any state, for any number of workers and any order of steps, at most the queue's weight in updates is processed and the number of steps is bounded |
| FanningOut.FanOutTerminatesIff | internal/notifier/workload_annotator.go:249-357 | runs from every state are bounded if and only if those two conditions hold |
| FanningOut.NamelessRecurs | internal/notifier/workload_annotator.go:307-321 | a listed workload without a name resolves to itself again |
| FanningOut.MarkerRecurs | internal/notifier/workload_annotator.go:294-305 | so does a namespace named like the marker |
| FanningOut.RunsGoOn | internal/notifier/workload_annotator.go:276-321 | two workers can keep such an update going for any number of steps |
| FanningOut.StuckMeansDrained | internal/notifier/workload_annotator.go:276-288 | a run that cannot go on has emptied the queue and all hands |
| FanningOut.QueueIsBounded | internal/notifier/workload_annotator.go:169-189 | the queue never outgrows its capacity |
| FanningOut.FanOutIsLighter | internal/notifier/workload_annotator.go:291-321 | what an update resolves to weighs less than the update |
| FanningOut.UnsharedIsSpaced | internal/notifier/workload_annotator.go:323-350 | as long as no two workers are about to patch one workload, its patches are a debounce apart |
| FanningOut.SharedBreaksSpacing | internal/notifier/workload_annotator.go:323-350 | once two are, a run patches it twice at one moment |
| FanningOut.SpacedIffNeverShared | internal/notifier/workload_annotator.go:323-350 | patches are a debounce apart in every run from a state if and only if no run lets two workers be about to patch one workload |
| FanningOut.TwoWorkersShare | internal/notifier/workload_annotator.go:276-350 | two queued updates of one workload reach two workers |
| FanningOut.PatchesAreSpacedIff | internal/notifier/workload_annotator.go:323-350 | whatever the queue, patches are a debounce apart if and only if there is at most one worker |
| FanningOut.TakenIsPatchedIff | internal/notifier/workload_annotator.go:323-350 | a worker that takes a workload goes on to patch it if and only if it was not patched within the debounce |
| FanningOut.ListedIsQueuedIff | internal/notifier/workload_annotator.go:249-273 | a listed workload is queued if and only if there is room and it was not patched within the debounce |
| FanningOut.OneWorkerIsSpaced | internal/notifier/workload_annotator.go:323-350 | in every run of one worker patches are a debounce apart |
| FanningOut.FanOutIsExact | internal/notifier/workload_annotator.go:139-161 | an event queues each affected namespace once, and everything exactly if it names none |
| Annotating.WorkloadAnnotator.OnIndexChange | internal/notifier/workload_annotator.go:139-161 | appends those namespaces in order as far as there is room |
| Annotating.WorkloadAnnotator.QueueWorkloadUpdate | internal/notifier/workload_annotator.go:249-273 | appends the workload exactly if it was not patched recently and there is room |
| Annotating.WorkloadAnnotator.ListNamespaceWorkloads | internal/notifier/workload_annotator.go:194-231 | a cached listing younger than 30 seconds, or a new one without the kinds that failed, which is then cached |
| Annotating.ListedIff | internal/notifier/workload_annotator.go:205-223 | a listing holds exactly the Deployments, StatefulSets and DaemonSets whose kind did not fail |
| Annotating.ClusterKnows | internal/notifier/workload_annotator.go:194-231 | every snapshot of workloads has a machine whose listings are what any combination of failing kinds can return |
| Annotating.ClusterNamedIff | internal/notifier/workload_annotator.go:194-231 | its workloads have names if and only if the snapshot's do |
| Annotating.WorkloadAnnotator.ProcessUpdate | internal/notifier/workload_annotator.go:291-357 | one worker's whole handling of an update is a run of the queue machine: it enqueues exactly what the update resolves to, less what is held back or finds no room, and patches a workload exactly if it was not patched within the debounce and the call succeeds |
| Annotating.WorkloadAnnotator.Drain | internal/notifier/workload_annotator.go:276-288 | one worker serving the queue, under the conditions above, is a run of the queue machine that empties the queue after at most its weight in updates, with patches of one workload a debounce apart |
| HubbleClient.BackoffIsExact | internal/hubble/client.go:385-391 | after k failures the wait is base times 2^k capped at max, with no 64-bit overflow for max below 2^62 |
| HubbleClient.BackoffIsExactIff | internal/hubble/client.go:385-391 | for a positive base that holds for all k if and only if max is below 2^62 |
| HubbleClient.BackoffOverflows | internal/hubble/client.go:385-391 | with max at 2^62 or above some wait is wrong |
| HubbleClient.ConnectionLoop | internal/hubble/client.go:148-207 | each wait after a failure is base doubled for every failure since the last success, up to max; reconnects counts the successes |
| HubbleClient.DropsAreAccounted | internal/hubble/client.go:394-405 | in every interleaving the buffer stays within its size, accepted drops are passed on in order, and the counter is consumed plus buffered less those not yet counted, modulo 2^64 |
| HubbleClient.FlowChannel.RecordFlowDrop | internal/hubble/client.go:394-405 | appends and counts if there is room, otherwise discards without counting |
| FlowLabels.ParseLabels | internal/hubble/converter.go:191-209 | nothing exactly for the empty list, otherwise the fold of the labels |
| FlowLabels.RoundTrip | internal/hubble/converter.go:191-209 | printed labels with colon-free sources and '='-free keys parse back to the left-to-right override map, for arbitrary values |
| FlowLabels.LabelSurvivesIff | internal/hubble/converter.go:197-206 | a single label survives printing and parsing exactly under that condition |
| FlowLabels.ColonInSourceLosesLabel | internal/hubble/converter.go:198-200 | a label it does not survive |

## Left out

- Report protocol: the set of namespaces is fixed during a run; namespaces created or deleted meanwhile are not modelled.
- Report contents: messages, remediation, metrics, missing resources and timestamps of report entries; the status string and the JSON of annotations.
- Index queries by labels, type and source: label selectors live in Kubernetes libraries, the others are plain filters.
- Rate limiter: the token bucket is exact; floating-point rounding inside golang.org/x/time/rate is not modelled.
- Correlator: flow-drop correlation, which matches label selectors and uses the same duplicate filter; closing of channels at shutdown.
- Dispatcher: DispatchDirect and message rendering.
- Endpoint addresses: only what each event files or removes; the code promises no freshness and no run-level property is stated.
- ServicesForPod and GetService of the service map: selector matching and a plain lookup.
- Engine: listing API resources and deciding which are constraint-like; the deletion of a removed profile's constraints happens in the same step as its removal, though the code does it after releasing its lock; add handlers check and write in one step; every informer that is started is assumed to start.
- Live objects: adapters other than Kyverno, LimitRange, webhook configurations and the generic one, in particular the network policy adapters, which give two constraints one UID; what adapters read from an object's fields besides the list structure.
- Evaluator: the rules themselves, and changes of the debounce duration during a run.
- End to end: removals of profiles, which delete by source, and object UIDs of different lengths.
- Annotator: which patch is applied to a workload; updates enqueued from outside while the queue drains; the class runs one worker, several are in the state machine of `fan_out.dfy`.
- Flow client: gRPC, flow conversion and stopping.
- The command-line tools, HTTP and MCP servers, webhook certificates and the admission webhook.
