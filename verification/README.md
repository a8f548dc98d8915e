# sdkwork-discovery: a verified model of the control plane

This project models the core of the SDKWork discovery control plane in Dafny and proves what it promises over whole
runs. The discovery control plane keeps a service registry with leases, a versioned configuration registry and one
event log that watch streams replay; reads and writes pass a resilience layer.

Verify with `dafny verify dfyconfig.toml`.

## How the model is built

- The in-memory store is the class `MemoryStore.MemoryDiscoveryStore`. Its methods update the fields in place and loop
  where the source does; each is proved equal to a function on store values (`Registry`, `Configs`, `EventLog`,
  `EffectiveConfigs`, `Discovery`, `ServiceList`).
- `Runs.Exec` runs any sequence of operations from the empty store and keeps, beside the store, every event ever
  appended. Theorems about runs are about that function.
- `Acknowledgements.Learned` is a client that sees only the calls of a run and their answers. That it ends up with
  exactly what the store holds ties every operation's effect to what it answers.
- `WatchStreams.Run` interleaves store operations, retention, compaction, other readers, polls answered by the store,
  by the stale-read cache or not at all, single deliveries, failed sends and heartbeats.
- `Resilience.Serve` runs any commands through gate, storage, read cache and record. The five read caches are one map,
  since a cache key starts with its kind of read.
- A hash map yields its entries in any order: loops over maps pick entries with `:|`, and results are proved to be
  independent of the choice, or stated for every order.
- Time is an argument. The hasher of the weighted shuffle is an arbitrary function. The digest of a configuration value
  is part of the command that carries it. Token-bucket arithmetic is over `real`.
- Errors are their kinds; message texts are not modelled.

## Where the code is not what one might expect

- A renewal checks the expiry for overflow before it looks at the instance. An expiry scan is therefore visible to one
  kind of renewal: `Expiry.RenewalSeesScanIffOverflow` gives the exact condition. Registration's revision check looks
  at expired instances too, so a scan is visible to one kind of registration: `Expiry.RegistrationSeesScanIffConflict`.
  `Witnesses.ScanIsTold` has a run for both. Above the store, the control plane's lease-time policy
  (`validate_registry_lease_ttl` in `policy.rs`) caps the lease time, so a renewal that comes through it overflows only
  if the configured maximum or the clock is that large.
- A failed renewal drops the lease of an expired instance. `Leases.StepHidesIff` gives, for every operation and time,
  the exact condition for a live lease to stay reachable: the only step that takes one away is a renewal at a reading
  when the instance is expired, of a lease that is live at the time in question. `Leases.LiveLeasesAreReachable`
  therefore only needs a time no earlier than the renewals' readings; `Witnesses.BackwardClockHidesLiveLease` is a run
  that fails otherwise.
- Compaction groups by resource id alone, across services. `CompactedLogs.CompactionDropsLatestIff` says exactly when
  that loses the last event about an instance, and `Witnesses.CompactionCrossesServices` is a run in which a caught-up
  watcher misses a registered instance for that reason. The watcher guarantee
  (`StreamGuarantees.ServiceWatcherMirrorsRegistry`) asks only that this does not happen ahead of the watcher.
- A batch deregistration stops at the first name that is not given in full, after it has removed the instances before
  it, and answers only with the error. `Acknowledgements.StepIsToldIff` shows that this is the one call whose answer
  leaves a client wrong about what is stored; `Witnesses.RefusedBatchRemoves` is a run.
- A configuration watch is told of a release exactly when it applies to the reader and is not namespace-wide
  (`StreamGuarantees.ConfigWatchHears`, and over runs `StreamGuarantees.ConfigWatcherHearsEveryRelease`).
  `StreamGuarantees.UntoldChangeIff` says exactly when a release changes what the reader sees without an event, and
  `Witnesses.NamespaceReleaseIsUntold` is a run in which one does.
- Replay lookups need different operation ids for create and for publish or rollback: `ConfigRuns.TargetIsMissingIff`,
  with a run in `Witnesses.SharedOperationIdLosesTarget`.
- A read answered from the cache is recorded as a success, so read-only mode can end while storage is still down.
  `Resilience.ReadOnlyEndsIff` gives the exact condition and `Resilience.StaleAnswerEndsReadOnly` a run. The next
  command then asks the breaker before any cache is looked at: an opening of the breaker serves at most one stale answer
  until the recovery timeout (`Resilience.OneStaleAnswerPerOpening`), and with a failure threshold of two or more
  repeated cached reads can keep it from opening at all (`Resilience.StaleAnswersHideOutage`).
- A result that is neither a success nor a storage failure is not recorded by the breaker, so such requests can exhaust
  a half-open breaker. `CircuitBreakers.HalfOpenRefusesIff` gives the exact condition,
  `CircuitBreakers.RefusalNeedsTwoUnanswered` shows that one such request per period is harmless, and
  `CircuitBreakers.UnrecordedRequestsExhaust` has a run for every configuration.

## Model

| member | source | states |
|---|---|---|
| StreamGuarantees.RetentionKeepsWatcherWhole | crates/sdkwork-discovery-rpc/src/actor.rs:927-940 | A service watcher from revision 0 that, whenever the retention pass runs, has caught up or trails the store by no more than the retention count has, once drained, delivered events whose fold is exactly the registry's instance ids of its service, in every interleaving |
| StreamGuarantees.ServiceWatcherMirrorsRegistry | crates/sdkwork-discovery-rpc/src/services.rs:1541-1564 | The same for any run in which no retention or compaction drops the last event about a watched instance before the stream has passed it, older events going or not |
| StreamGuarantees.CarefulRunsKeepLatest | crates/sdkwork-discovery-storage-memory/src/watch.rs:22-83 | Trimming behind the stream, outside its scope or when it has caught up meets that condition |
| StreamGuarantees.CompactionKeepsLatestIff | crates/sdkwork-discovery-storage-memory/src/watch.rs:45-83 | A compaction meets it for an instance if and only if the instance is not shadowed or the stream has passed its last event |
| StreamGuarantees.CollectionKeepsLatestIff | crates/sdkwork-discovery-storage-memory/src/watch.rs:22-43 | A retention pass meets it for an instance if and only if its last event is passed, newer than the bound, or behind as many events as are deleted |
| StreamGuarantees.CaughtUpStreamDeliveredAll | crates/sdkwork-discovery-rpc/src/services.rs:1795-1888 | A caught-up open stream of either kind delivered exactly the relevant events of the whole history in order, including events the log has lost since |
| StreamGuarantees.CarefulRunsMissNothing | crates/sdkwork-discovery-storage-memory/src/watch.rs:22-43 | Every relevant event of the history is still logged or already delivered |
| StreamGuarantees.RetentionIsCareful | crates/sdkwork-discovery-rpc/src/actor.rs:934-938 | The retention bound never passes the cursor of a stream that trails by no more than the retention count, and takes nothing a caught-up stream needs |
| StreamGuarantees.RetentionKeepsExactly | crates/sdkwork-discovery-rpc/src/actor.rs:927-940 | One retention pass keeps exactly the events of the last retention-count revisions and those it had no room to delete |
| WatchStreams.ReconnectLosesNothing | crates/sdkwork-discovery-rpc/src/services.rs:1779-1830 | In every interleaving, reconnecting at the revision of any received item neither misses nor repeats a relevant event still logged |
| WatchStreams.DeliveriesIncrease | crates/sdkwork-discovery-rpc/src/services.rs:1811-1830 | Delivered revisions strictly increase and stay above the starting revision |
| WatchStreams.DeliveriesMatchTheWatch | crates/sdkwork-discovery-rpc/src/services.rs:1811-1830 | In every interleaving what a client is sent was logged, is newer than where it started, is of the watched kind and passes every filter |
| WatchStreams.DrainNeverRepeats | crates/sdkwork-discovery-rpc/src/services.rs:1811-1830 | Draining any batch, ordered or not, delivers only events past the cursor, each newer than the one before |
| WatchStreams.EveryRunKeepsSystemInv | crates/sdkwork-discovery-rpc/src/services.rs:1538-1651 | The joint invariant of store, cache and stream: sent items are ordered, everything relevant and logged up to the cursor was delivered, fetched and cached batches have no hole |
| WatchStreams.FreshAnswerIsBatch | crates/sdkwork-discovery-storage-memory/src/watch.rs:10-20 | A store answer holds every logged match up to its last event, in order, and only matches |
| EventLog.WatchAnswers | crates/sdkwork-discovery-storage-memory/src/watch.rs:86-105 | A watch is refused if and only if a name is missing or blank or it asks for nothing, and answers with as many of the earliest matches as it asks for |
| WatchStreams.RememberKeepsCache | crates/sdkwork-discovery-rpc/src/actor.rs:902-913 | A cached watch answer can only be served to the query it answered |
| WatchStreams.WatchStream.DrainPersistedEvents | crates/sdkwork-discovery-rpc/src/services.rs:1795-1842 | The drain loop moves the cursor over every event, delivers the relevant ones and stops at a failed send |
| WatchStreams.WatchStream.SendHeartbeat | crates/sdkwork-discovery-rpc/src/services.rs:1634-1646 | A heartbeat carries the cursor and moves nothing; a failed send ends the stream |
| StreamGuarantees.PollShrinksBacklog | crates/sdkwork-discovery-storage-memory/src/watch.rs:13-19 | With no new events a poll removes the batch size, or all there is, from the front of the backlog |
| StreamGuarantees.EveryOpenStreamCanCatchUp | crates/sdkwork-discovery-rpc/src/services.rs:1619-1633 | From every run whose stream is open, some finite sequence of polls and accepted deliveries alone leads to an open, caught-up stream over the same world |
| StreamGuarantees.PollsEmptyBacklog | crates/sdkwork-discovery-rpc/src/services.rs:1619-1633 | How many: over an unchanged log the backlog after n polls is exactly the old one less n batches |
| StreamGuarantees.HandlingIsDraining | crates/sdkwork-discovery-rpc/src/services.rs:1812-1829 | Handling fetched events one interleaved step at a time is the drain loop |
| CompactedLogs.CompactionDropsLatestIff | crates/sdkwork-discovery-storage-memory/src/watch.rs:55-80 | Compaction drops the last event about an instance exactly when at least the limit of later events of the scope share its id, all of other subjects; then nothing about it is left, otherwise its last event stays the last |
| CompactedLogs.UnsharedIdsAreNeverShadowed | crates/sdkwork-discovery-storage-memory/src/watch.rs:55-73 | With a positive limit an instance whose id no other subject of the scope uses keeps its last event |
| Witnesses.CompactionCrossesServices | crates/sdkwork-discovery-storage-memory/src/watch.rs:55-64 | A run whose open, caught-up watcher has delivered nothing although the registry holds an instance of its service |
| StreamGuarantees.ConfigWatchHears | crates/sdkwork-discovery-rpc/src/watch.rs:91-97 | A configuration watch matches a release's event if and only if the release applies and is not namespace-wide |
| StreamGuarantees.ConfigWatcherHearsEveryRelease | crates/sdkwork-discovery-rpc/src/services.rs:1844-1888 | Over every careful run a caught-up configuration watcher was told of a stored release, with its id, revision, group and key, if and only if it applies and is not namespace-wide |
| StreamGuarantees.UntoldChangeIff | crates/sdkwork-discovery-storage-memory/src/config.rs:89-104 | In every run the release a publish or rollback adds changes what a reader sees without an event for its watch if and only if it applies, is namespace-wide and is not outranked |
| Witnesses.NamespaceReleaseIsUntold | crates/sdkwork-discovery-storage-memory/src/config.rs:339-349 | A run whose reader sees a new value while its watch, open and caught up, has delivered nothing |
| Runs.EveryRunKeepsRegistryInv | crates/sdkwork-discovery-storage-memory/src/registry.rs:101-122 | In every run a key is stored exactly when its last event is not a deregistration, with that event's revision; log and history revisions strictly increase up to the store's; lease-index entries point at the holder of the lease and leases are distinct |
| Runs.TrimKeepsInv | crates/sdkwork-discovery-storage-memory/src/watch.rs:33-82 | Retention and compaction only remove events and keep the invariant |
| Acknowledgements.AnswersTellEverything | crates/sdkwork-discovery-storage-memory/src/registry.rs:23-418 | In every run without a batch deregistration that stops halfway, the calls and their answers alone determine every instance with all its fields, every draft, every release and the whole event history with its kinds |
| Acknowledgements.StepIsToldIff | crates/sdkwork-discovery-storage-memory/src/registry.rs:333-349 | For every operation, a client that knew all of that still does after the answer if and only if the operation is not a batch deregistration with a live instance before its first incomplete name |
| Witnesses.RefusedBatchRemoves | crates/sdkwork-discovery-storage-memory/src/registry.rs:333-349 | A run whose batch deregistration is refused and has removed the instance all the same |
| Leases.StepHidesIff | crates/sdkwork-discovery-storage-memory/src/registry.rs:156-179 | For every operation and time, all live leases stay reachable if and only if the operation is not a well-formed renewal, read when expired, of a lease live at that time |
| Leases.LiveLeasesAreReachable | crates/sdkwork-discovery-storage-memory/src/registry.rs:166-179 | In every run, at any time no earlier than the readings of its renewals, every live instance is found through its lease, despite entries dropped by failed renewals |
| Leases.LiveLeaseRenewsInEveryRun | crates/sdkwork-discovery-storage-memory/src/registry.rs:156-208 | In every such run a well-formed renewal of any live instance succeeds and the instance then lives exactly until the asked expiry |
| Leases.LiveLeaseRenews | crates/sdkwork-discovery-storage-memory/src/registry.rs:156-208 | The same for any store in which the live leases are reachable |
| Witnesses.BackwardClockHidesLiveLease | crates/sdkwork-discovery-storage-memory/src/registry.rs:176-179 | A run after which an earlier reading finds the instance live, its lease gone and a renewal refused |
| Leases.RegistrationIsVisible | crates/sdkwork-discovery-storage-memory/src/registry.rs:61-133 | A registered instance is retrieved as commanded exactly until its expiry, under its live lease or a new one, and no other instance changes |
| CallEffects.RegisterAnswers | crates/sdkwork-discovery-storage-memory/src/registry.rs:27-86 | A registration succeeds if and only if every field is given, the expected revision is the stored one and the expiry fits; what each refusal answers, and the numbers one refused for its expiry has used up |
| CallEffects.ReportIsVisible | crates/sdkwork-discovery-storage-memory/src/registry.rs:210-267 | A report succeeds if and only if the instance would be retrieved then at the expected revision; it is then retrieved with the new status and revision for as long as before, and nothing else changes |
| CallEffects.RenewalIsVisible | crates/sdkwork-discovery-storage-memory/src/registry.rs:180-208 | A renewal moves only the expiry and revision of the holder of the lease; a refused one changes no answer |
| CallEffects.RenewAnswers | crates/sdkwork-discovery-storage-memory/src/registry.rs:156-179 | When a renewal succeeds, exactly, and what each refusal answers |
| CallEffects.DeregistrationIsVisible | crates/sdkwork-discovery-storage-memory/src/registry.rs:269-331 | The receipt says whether the instance was live, which is then retrieved by nobody; the others are |
| CallEffects.HealthIsVisible | crates/sdkwork-discovery-storage-memory/src/registry.rs:526-545 | A health update is retrieved with the instance and changes nothing else |
| CallEffects.ScanAnswers | crates/sdkwork-discovery-storage-memory/src/registry.rs:351-361 | A scan is refused, without effect, if and only if it has no room |
| CallEffects.ReadsNeedNames | crates/sdkwork-discovery-storage-memory/src/registry.rs:420-492 | Reads are refused if and only if a name is missing |
| CallEffects.BatchIsOneByOne | crates/sdkwork-discovery-storage-memory/src/registry.rs:135-154 | A batch leaves the store its commands leave one by one, and its receipt reads back to what each of them is told |
| CallEffects.NamedBatchIsOneByOne | crates/sdkwork-discovery-storage-memory/src/registry.rs:333-349 | A batch deregistration with complete names is its commands one by one, receipts included |
| CallEffects.UnnamedBatchStops | crates/sdkwork-discovery-storage-memory/src/registry.rs:333-349 | At the first incomplete name it fails, having done exactly the commands before |
| CallEffects.RegisteredIsWantedIff | crates/sdkwork-discovery-storage-memory/src/registry.rs:430-448 | Which queries discover a registered instance, exactly, and until when |
| CallEffects.ReportedIsWantedIff | crates/sdkwork-discovery-storage-memory/src/registry.rs:430-448 | A report of not serving hides the instance from healthy-only queries and no others; any other report shows it again |
| CallEffects.ListingAgreesWithDiscovery | crates/sdkwork-discovery-storage-memory/src/registry.rs:477-512 | A service is listed if and only if discovery finds an instance of it, with as many instances and the latest of their revisions |
| CallEffects.ListWalkYieldsEveryServiceOnce | crates/sdkwork-discovery-contract/src/registry.rs:281-300 | Following the tokens of the listing yields every service once, by name, and ends |
| Leases.RevisionNeverReturns | crates/sdkwork-discovery-storage-memory/src/store.rs:46-49 | Once an instance leaves a revision it never holds it again, even across deregistration and registration |
| Leases.AtMostOneReportWins | crates/sdkwork-discovery-storage-memory/src/registry.rs:234-250 | Of all status reports for one instance that expect one revision, at most one succeeds in a run |
| Registry.LeaseExpiry | crates/sdkwork-discovery-storage-memory/src/registry.rs:548-555 | The expiry is now plus the lease time in milliseconds, or an error exactly when that exceeds 64 bits |
| Base.NextIdIsFresh | crates/sdkwork-discovery-storage-memory/src/store.rs:51-54 | The next id differs from every id issued before under the prefix |
| Base.BlankIsTrimmedAway | crates/sdkwork-discovery-storage-memory/src/validation.rs:3-10 | A value is blank if and only if trimming leaves nothing |
| Base.WhitespaceCodePoints | crates/sdkwork-discovery-storage-memory/src/validation.rs:4-4 | What trimming strips: the twenty-five code points of the White_Space property |
| Expiry.ScanRemovesExactly | crates/sdkwork-discovery-storage-memory/src/registry.rs:362-417 | A scan removes exactly the first expired keys in lexicographic order, up to the limit, and leaves the rest |
| Expiry.ScanEffect | crates/sdkwork-discovery-storage-memory/src/registry.rs:389-415 | The scan drops exactly the victims' leases and reports the victims in order under consecutive revisions |
| Expiry.RepeatedScansFinish | crates/sdkwork-discovery-storage-memory/src/registry.rs:351-418 | The number of expired instances after n scans at one time, exactly |
| Expiry.ScanIsInvisible | crates/sdkwork-discovery-storage-memory/src/registry.rs:210-331 | At the scan's time or later, retrieval, discovery candidates, listing, status reports and deregistration answer as if it had not run, apart from revisions |
| Expiry.ReadsSeeOnlyLive | crates/sdkwork-discovery-storage-memory/src/registry.rs:420-512 | Retrieval, discovery and listing depend only on the live instances |
| Expiry.RenewalSeesScanIffOverflow | crates/sdkwork-discovery-storage-memory/src/registry.rs:166-179 | A renewal answers as if the scan had not run if and only if it is not an overflowing renewal of a removed instance's lease |
| Expiry.RegistrationSeesScanIffConflict | crates/sdkwork-discovery-storage-memory/src/registry.rs:50-59 | A registration answers as if the scan had not run if and only if it is not a valid one whose expected revision conflicts with a removed instance |
| Witnesses.ScanIsTold | crates/sdkwork-discovery-storage-memory/src/registry.rs:166-179 | A run after which such a renewal and such a registration answer differently before and after the scan |
| Expiry.KeysSortUniquely | crates/sdkwork-discovery-storage-memory/src/registry.rs:373-386 | Expired keys sort to one list whatever order the map yields |
| Expiry.KeyLeIsTupleOrder | crates/sdkwork-discovery-storage-memory/src/registry.rs:373-386 | Keys compare as the tuple of namespace, environment, service and id |
| Sorting.StringLeDecides | crates/sdkwork-discovery-storage-memory/src/registry.rs:373-386 | Strings compare by the first character in which they differ |
| ConfigRuns.EveryRunKeepsConfigInv | crates/sdkwork-discovery-storage-memory/src/config.rs:52-88 | In every run release ids and revisions are distinct, every release repeats its draft, and a draft is marked published exactly when one publish, never two, released it |
| ConfigRuns.RunsPreserve | crates/sdkwork-discovery-storage-memory/src/config.rs:83-105 | From any point of a run to any later one releases grow only at the end, drafts keep their content and idempotency records their value |
| ConfigEffects.CreationStoresItsCommand | crates/sdkwork-discovery-storage-memory/src/config.rs:15-41 | A creation that is no retry succeeds if and only if every field is given, and stores and answers the commanded content and author, unpublished, under the next id |
| ConfigEffects.PublishReleasesItsDraft | crates/sdkwork-discovery-storage-memory/src/config.rs:43-107 | A publish that is no retry releases the content of the draft it names under its own author and time and marks that draft alone; what it answers otherwise |
| ConfigEffects.RollbackRepeatsItsSource | crates/sdkwork-discovery-storage-memory/src/config.rs:109-162 | A rollback that is no retry releases again the draft and content of the first release with the id it names, under its own author and time; what it answers otherwise |
| ConfigEffects.ReleaseOrigin | crates/sdkwork-discovery-storage-memory/src/config.rs:52-161 | In every run every release was made by one publish or rollback, from what that operation named at the time |
| ConfigEffects.DraftOrigin | crates/sdkwork-discovery-storage-memory/src/config.rs:24-38 | In every run every draft still has the content and author one creation commanded |
| ConfigEffects.RollbackRestores | crates/sdkwork-discovery-storage-memory/src/config.rs:118-141 | In every run a rollback gives every reader the named release's value and format back, unless it does not apply or is outranked; then, and for other keys, nothing changes |
| ConfigEffects.ConfigReadNeedsNames | crates/sdkwork-discovery-storage-memory/src/config.rs:168-172 | A configuration read is refused if and only if a name is missing |
| ConfigRuns.OneResourcePerKey | crates/sdkwork-discovery-storage-memory/src/config.rs:215-292 | Each operation and key pair makes at most one resource in a run; a valid retry gets the same id or is rejected for another hash, without any change |
| ConfigRuns.RetryReplays | crates/sdkwork-discovery-storage-memory/src/config.rs:228-261 | A recorded request is replayed or rejected and changes nothing |
| ConfigRuns.TargetsAreNeverMissing | crates/sdkwork-discovery-storage-memory/src/config.rs:229-260 | The missing-target errors are unreachable when each kind of request carries its own operation id |
| ConfigRuns.OperationIdsDiffer | crates/sdkwork-discovery-rpc/src/services.rs:1042-1043 | The operation ids the service stamps on create, publish and rollback are distinct |
| ConfigRuns.TargetIsMissingIff | crates/sdkwork-discovery-storage-memory/src/config.rs:215-262 | Over any run, whatever operation ids are used, a valid retry under a recorded context changes nothing and gets the missing-target error if and only if the record was made by the other kind of request, create against publish or rollback |
| Witnesses.SharedOperationIdLosesTarget | crates/sdkwork-discovery-storage-memory/src/config.rs:253-260 | A run that publishes under the context of its draft's creation and gets the missing-target error |
| EffectiveConfigs.FoldAnswers | crates/sdkwork-discovery-storage-memory/src/config.rs:174-210 | The loop selects, for each key of an applicable release, the greatest specificity and then revision, no other key, and the greatest applicable revision |
| EffectiveConfigs.AnswerIsLookup | crates/sdkwork-discovery-contract/src/registry.rs:368-388 | The loop computes a lookup: the newest release of the key for the reader's own service, else for its application, else for the namespace, else none |
| EffectiveConfigs.AnswerIgnoresOrder | crates/sdkwork-discovery-storage-memory/src/config.rs:177-208 | In every run the answer is the same for any ordering of the releases |
| EffectiveConfigs.NewReleaseEffect | crates/sdkwork-discovery-contract/src/registry.rs:368-388 | A newer release takes its key for a query if and only if it applies and no strictly more specific applicable release exists |
| EffectiveConfigs.PublishOrRollbackEffect | crates/sdkwork-discovery-storage-memory/src/config.rs:43-162 | A publish or rollback changes no answer or acts on every query exactly as its one new release |
| EffectiveConfigs.AddedReleaseChangesIff | crates/sdkwork-discovery-storage-memory/src/config.rs:186-207 | In every run an added release changes some value a reader sees if and only if it applies and is not outranked |
| Configs.FindReleaseIsFirst | crates/sdkwork-discovery-storage-memory/src/config.rs:118-123 | The release found is the first with the id |
| Pagination.FollowedPagesArePrefix | crates/sdkwork-discovery-contract/src/pagination.rs:24-57 | Following the tokens yields full pages of the list in order and ends with the whole list |
| Pagination.UnknownTokenEnds | crates/sdkwork-discovery-contract/src/pagination.rs:42-52 | A token that names no item gives an empty last page |
| Pagination.EmptyTokenStartsOver | crates/sdkwork-discovery-contract/src/pagination.rs:39-42 | An empty token gives the first page |
| Pagination.NormalizePageSize | crates/sdkwork-discovery-contract/src/pagination.rs:4-10 | Sizes up to the maximum are kept; zero means the default and an oversize request the maximum |
| Discovery.WalkYieldsEverythingOnce | crates/sdkwork-discovery-contract/src/registry.rs:176-239 | Over an unchanged store, for any page size and any map order per page, following the tokens ends and yields every wanted live instance once, in the one sorted order |
| Discovery.FinalizeIgnoresMapOrder | crates/sdkwork-discovery-storage-memory/src/registry.rs:430-451 | A page is cut from the same sorted list whatever order the map yields |
| Discovery.SortedWantedIsOrdered | crates/sdkwork-discovery-contract/src/registry.rs:190-211 | What each order promises of any earlier and later instance of the list |
| Discovery.WeightedPageIsFair | crates/sdkwork-discovery-contract/src/registry.rs:212-225 | For any hash and map order a weighted-random answer is one page, without a token, of a list of every wanted instance with positive weights first and zero weights by priority |
| Discovery.FiltersAgree | crates/sdkwork-discovery-contract/src/registry.rs:143-157 | What the label filters mean to each other: inequality complements equality, a list is any of its values, existence is equality with something |
| Discovery.ShuffleIsFair | crates/sdkwork-discovery-contract/src/registry.rs:241-279 | For any hash the shuffle is a permutation, puts positive weights first and keeps zero-weight instances in order |
| Discovery.DrawFollowsHash | crates/sdkwork-discovery-contract/src/registry.rs:250-276 | Every draw takes the instance in whose share of the remaining weight the hash falls |
| Discovery.PickIsProportional | crates/sdkwork-discovery-contract/src/registry.rs:263-273 | Each instance is picked by exactly as many targets, in a row, as its weight |
| Discovery.WeightedShuffle | crates/sdkwork-discovery-contract/src/registry.rs:245-278 | The shuffle loop computes the specified draws |
| Discovery.SelectIndex | crates/sdkwork-discovery-contract/src/registry.rs:265-273 | The scan stops at the first cumulative weight above the target |
| Discovery.FinalizeDiscoverInstances | crates/sdkwork-discovery-contract/src/registry.rs:176-239 | Label filtering, ordering, shuffling or paging as specified |
| Discovery.SplitIsExact | crates/sdkwork-discovery-contract/src/registry.rs:149-154 | An `In` filter's value is cut at every comma and nothing is lost |
| ServiceList.SummariesGrow | crates/sdkwork-discovery-storage-memory/src/registry.rs:494-504 | Counting an instance changes its own service's count and latest revision and no other entry |
| ServiceList.SummariesSortUniquely | crates/sdkwork-discovery-contract/src/registry.rs:281-292 | The summaries sort to one list whatever order they come in |
| EventLog.CollectionCutsAPrefix | crates/sdkwork-discovery-storage-memory/src/watch.rs:33-42 | On an ascending log retention cuts a prefix and leaves no hole |
| EventLog.CollectionKeepsExactly | crates/sdkwork-discovery-storage-memory/src/watch.rs:33-42 | Retention keeps an event exactly when it is newer than the bound or behind as many events as may be deleted |
| EventLog.CompactionKeepsExactly | crates/sdkwork-discovery-storage-memory/src/watch.rs:45-83 | Compaction keeps an event exactly when it is out of scope or fewer than the limit of later in-scope events share its resource id, in order |
| EventLog.MatchingIsExact | crates/sdkwork-discovery-contract/src/registry.rs:534-550 | A watch query selects exactly the matching events, in order |
| Compaction.ExcessIsSuperseded | crates/sdkwork-discovery-storage-memory/src/watch.rs:66-73 | The leading indices of a group are exactly its superseded events |
| MemoryStore.MemoryDiscoveryStore.RegisterInstance | crates/sdkwork-discovery-storage-memory/src/registry.rs:23-133 | The whole new store and answer of a registration, with the numbers a failed one still consumes |
| MemoryStore.MemoryDiscoveryStore.BatchRegisterInstances | crates/sdkwork-discovery-storage-memory/src/registry.rs:135-154 | A batch registers each command in turn and goes on past errors |
| MemoryStore.BatchAnswersEveryCommand | crates/sdkwork-discovery-storage-memory/src/registry.rs:139-153 | Every command of a batch is answered once, errors by increasing index |
| MemoryStore.MemoryDiscoveryStore.RenewLease | crates/sdkwork-discovery-storage-memory/src/registry.rs:156-208 | The whole new store and answer of a renewal |
| MemoryStore.MemoryDiscoveryStore.ReportInstanceStatus | crates/sdkwork-discovery-storage-memory/src/registry.rs:210-267 | The whole new store and answer of a status report |
| MemoryStore.MemoryDiscoveryStore.DeregisterInstance | crates/sdkwork-discovery-storage-memory/src/registry.rs:269-331 | The whole new store and answer of a deregistration |
| MemoryStore.MemoryDiscoveryStore.BatchDeregisterInstances | crates/sdkwork-discovery-storage-memory/src/registry.rs:333-349 | A batch deregisters in turn and stops at the first error, keeping what it did |
| MemoryStore.MemoryDiscoveryStore.ExpireInstances | crates/sdkwork-discovery-storage-memory/src/registry.rs:351-418 | The scan over any map order is the specified scan |
| MemoryStore.MemoryDiscoveryStore.RetrieveInstance | crates/sdkwork-discovery-storage-memory/src/registry.rs:454-475 | The instance when it is live, nothing otherwise |
| MemoryStore.MemoryDiscoveryStore.DiscoverInstances | crates/sdkwork-discovery-storage-memory/src/registry.rs:420-452 | The page of the sorted wanted instances, or for weighted-random order a fair page of them |
| MemoryStore.MemoryDiscoveryStore.ListServices | crates/sdkwork-discovery-storage-memory/src/registry.rs:477-512 | One summary per service with a live instance, counted over any map order, sorted and paged |
| MemoryStore.MemoryDiscoveryStore.UpdateHealthCheckState | crates/sdkwork-discovery-storage-memory/src/registry.rs:526-545 | Only the health state changes: no revision, no event |
| MemoryStore.MemoryDiscoveryStore.CreateConfigDraft | crates/sdkwork-discovery-storage-memory/src/config.rs:15-41 | The whole new store and answer of a draft creation |
| MemoryStore.MemoryDiscoveryStore.PublishConfig | crates/sdkwork-discovery-storage-memory/src/config.rs:43-107 | The whole new store and answer of a publish |
| MemoryStore.MemoryDiscoveryStore.RollbackConfig | crates/sdkwork-discovery-storage-memory/src/config.rs:109-162 | The whole new store and answer of a rollback |
| MemoryStore.MemoryDiscoveryStore.RetrieveEffectiveConfig | crates/sdkwork-discovery-storage-memory/src/config.rs:164-211 | The loop's answer is the selection said without the loop, and the lookup by service, application and namespace |
| MemoryStore.MemoryDiscoveryStore.RecordIdempotency | crates/sdkwork-discovery-storage-memory/src/config.rs:264-282 | A context leaves one record; no context leaves none |
| MemoryStore.MemoryDiscoveryStore.GcWatchEvents | crates/sdkwork-discovery-storage-memory/src/watch.rs:22-43 | The retaining pass removes the first old events up to the limit and returns how many |
| MemoryStore.MemoryDiscoveryStore.CompactWatchEvents | crates/sdkwork-discovery-storage-memory/src/watch.rs:45-83 | Grouping and removal from the back is the filter, and the answer is the number removed |
| MemoryStore.MemoryDiscoveryStore.RemoveIndices | crates/sdkwork-discovery-storage-memory/src/watch.rs:75-80 | Removal in descending order removes exactly the listed events |
| MemoryStore.MemoryDiscoveryStore.NextRevision | crates/sdkwork-discovery-storage-memory/src/store.rs:46-49 | The revision grows by one |
| MemoryStore.MemoryDiscoveryStore.NextId | crates/sdkwork-discovery-storage-memory/src/store.rs:51-54 | The sequence grows by one and names the id |
| CircuitBreakers.EveryRunStaysInLimits | crates/sdkwork-discovery-rpc/src/circuit_breaker.rs:75-159 | In every run of an enabled breaker with nonzero limits counters stay within their limits, successes are zero outside half-open, and an open breaker knows its last failure |
| CircuitBreakers.NoAdmissionBeforeRecovery | crates/sdkwork-discovery-rpc/src/circuit_breaker.rs:82-96 | The first request admitted after opening, without a reset, comes at least a recovery timeout later |
| CircuitBreakers.OpensIff | crates/sdkwork-discovery-rpc/src/circuit_breaker.rs:129-151 | A call opens the breaker if and only if it is a failure while half-open, or the failure that makes as many in a row as the threshold while closed |
| CircuitBreakers.FailedProbeShuts | crates/sdkwork-discovery-rpc/src/circuit_breaker.rs:143-147 | After a failure while half-open no request before the recovery timeout since is admitted, whatever is called but a reset |
| CircuitBreakers.OpenAdmitsIff | crates/sdkwork-discovery-rpc/src/circuit_breaker.rs:82-96 | The request that half-opens an open breaker is admitted if and only if the timeout has passed since the failure that opened it |
| CircuitBreakers.ClosesIff | crates/sdkwork-discovery-rpc/src/circuit_breaker.rs:117-124 | A half-open period is closed by a reset or by the success that makes as many in the period as the limit, and by nothing else |
| CircuitBreakers.DisabledAdmitsAll | crates/sdkwork-discovery-rpc/src/circuit_breaker.rs:75-78 | A disabled breaker is as new after any calls and admits everything |
| CircuitBreakers.HalfOpenPeriodIsBounded | crates/sdkwork-discovery-rpc/src/circuit_breaker.rs:87-104 | A half-open period admits at most one more request than its limit |
| CircuitBreakers.SequentialHalfOpenNeverRefuses | crates/sdkwork-discovery-rpc/src/circuit_breaker.rs:97-127 | If every admitted request is recorded before the next, half-open never refuses, whatever other results are recorded in between |
| CircuitBreakers.HalfOpenRefusesIff | crates/sdkwork-discovery-rpc/src/circuit_breaker.rs:82-104 | A half-open breaker refuses if and only if its period has admitted one request more than the limit |
| CircuitBreakers.RefusalNeedsTwoUnanswered | crates/sdkwork-discovery-rpc/src/circuit_breaker.rs:97-127 | A refusal takes at least two admitted requests of the period without a success right behind them |
| CircuitBreakers.ExhaustedStaysExhausted | crates/sdkwork-discovery-rpc/src/circuit_breaker.rs:97-127 | A refusing half-open breaker refuses every request until a failure, a reset or enough successes; only the success count changes |
| CircuitBreakers.SuccessesEndExhaustion | crates/sdkwork-discovery-rpc/src/circuit_breaker.rs:117-124 | The success that reaches the limit closes it |
| CircuitBreakers.UnrecordedRequestsExhaust | crates/sdkwork-discovery-rpc/src/circuit_breaker.rs:75-151 | For every active configuration, a run from a new breaker that ends refusing every later request |
| CircuitBreakers.CircuitBreaker.AllowRequest | crates/sdkwork-discovery-rpc/src/circuit_breaker.rs:75-106 | Whether the request is admitted, and the new state |
| CircuitBreakers.CircuitBreaker.RecordSuccess | crates/sdkwork-discovery-rpc/src/circuit_breaker.rs:108-127 | The new state after a success |
| CircuitBreakers.CircuitBreaker.RecordFailure | crates/sdkwork-discovery-rpc/src/circuit_breaker.rs:129-151 | The new state after a failure |
| CircuitBreakers.CircuitBreaker.IsOpen | crates/sdkwork-discovery-rpc/src/circuit_breaker.rs:56-73 | Open and not yet recovered |
| CircuitBreakers.CircuitBreaker.Reset | crates/sdkwork-discovery-rpc/src/circuit_breaker.rs:153-159 | The state of a new breaker |
| RateLimiters.WindowIsBounded | crates/sdkwork-discovery-rpc/src/rate_limiter.rs:22-39 | In any run with nondecreasing time a window of length T is granted at most capacity plus rate times T acquisitions |
| RateLimiters.StockIsGranted | crates/sdkwork-discovery-rpc/src/rate_limiter.rs:22-32 | A bucket grants as many calls as it has tokens, at whatever times, so a full one grants its capacity at once |
| RateLimiters.RefusedIff | crates/sdkwork-discovery-rpc/src/rate_limiter.rs:22-39 | After any run a call is refused if and only if what was left and what the time since has brought make no whole token |
| RateLimiters.WaitIsGranted | crates/sdkwork-discovery-rpc/src/rate_limiter.rs:34-39 | A call one token's time after the last is granted |
| RateLimiters.TokensAreConserved | crates/sdkwork-discovery-rpc/src/rate_limiter.rs:22-39 | While nothing overflows, what is left and what was granted is what was there and what time has brought |
| RateLimiters.EveryRunStaysValid | crates/sdkwork-discovery-rpc/src/rate_limiter.rs:34-39 | Tokens stay between zero and the capacity |
| RateLimiters.TokenBucketRateLimiter.TryAcquire | crates/sdkwork-discovery-rpc/src/rate_limiter.rs:22-32 | Whether a token is granted, and the new bucket |
| StaleReads.StaleAnswersWereFresh | crates/sdkwork-discovery-rpc/src/stale_read_cache.rs:20-42 | A stale answer is the latest fresh answer to the very same query, no older than the limit, given injective keys |
| StaleReads.StaleInstanceAnswersWereFresh | crates/sdkwork-discovery-rpc/src/actor.rs:881-886 | The same for instance reads over validated identities |
| StaleReads.StaleConfigAnswersWereFresh | crates/sdkwork-discovery-rpc/src/actor.rs:895-900 | The same for effective-configuration reads over validated fields |
| StaleReads.StaleReadCache.Resolve | crates/sdkwork-discovery-rpc/src/stale_read_cache.rs:20-42 | A fresh value is stored and returned; a recent entry replaces an unavailable result when stale reads are served |
| CacheKeys.JoinIsInjective | crates/sdkwork-discovery-rpc/src/codec.rs:819-850 | Equally many fields of identity characters can be read back from their colon-joined key |
| CacheKeys.RetrieveKeyIsInjective | crates/sdkwork-discovery-rpc/src/actor.rs:881-886 | Different validated instance reads have different keys |
| CacheKeys.ConfigKeyIsInjective | crates/sdkwork-discovery-rpc/src/actor.rs:895-900 | Different validated configuration reads have different keys |
| CacheKeys.WatchKeyIsInjective | crates/sdkwork-discovery-rpc/src/actor.rs:902-913 | Different validated watch reads have different keys |
| Resilience.RuntimeResilience.Gate | crates/sdkwork-discovery-rpc/src/resilience.rs:54-76 | Which commands pass rate limit, read-only mode and breaker, in that order, and what each refusal has consumed |
| Resilience.RuntimeResilience.RecordResult | crates/sdkwork-discovery-rpc/src/resilience.rs:78-94 | What a success, a storage failure or any other error leaves behind |
| Resilience.BreakerFollowsCommands | crates/sdkwork-discovery-rpc/src/resilience.rs:54-94 | In any run of commands the breaker is the one made by exactly the requests the gate asks it and the results that say something about storage |
| Resilience.AcceptedWindowIsBounded | crates/sdkwork-discovery-rpc/src/resilience.rs:54-59 | With rate limiting on, at most capacity plus rate times span commands of any window of any run are accepted |
| Resilience.NoTokenNoService | crates/sdkwork-discovery-rpc/src/resilience.rs:55-59 | A command without a token is refused and changes nothing but the bucket |
| Resilience.ModeDecides | crates/sdkwork-discovery-rpc/src/resilience.rs:61-73 | With a token, read-only mode accepts exactly the reads, past the breaker, and normal mode leaves it to the breaker |
| Resilience.DispatchRead | crates/sdkwork-discovery-rpc/src/actor.rs:705-722 | A read passes the gate, is resolved against the cache and is recorded, or is refused and recorded nowhere |
| Resilience.ReadOnlyEndsIff | crates/sdkwork-discovery-rpc/src/actor.rs:693-703 | A command ends read-only mode if and only if it is an accepted read that storage answered or, storage being down, the cache answered recently enough |
| Resilience.StaleAnswerEndsReadOnly | crates/sdkwork-discovery-rpc/src/resilience.rs:54-94 | A run from a new runtime that serves a stale answer, is back in normal mode with storage down, and refuses every command until the recovery timeout |
| Resilience.OneStaleAnswerPerOpening | crates/sdkwork-discovery-rpc/src/resilience.rs:67-73 | In any run, after a stale answer with the breaker open every command before the recovery timeout is refused, cached reads included |
| Resilience.ShutRefusesAll | crates/sdkwork-discovery-rpc/src/resilience.rs:67-73 | In normal mode with the breaker open, any commands before the recovery timeout are refused and change only rate-limit tokens |
| Resilience.StaleAnswersHideOutage | crates/sdkwork-discovery-rpc/src/resilience.rs:78-94 | With a threshold of two or more, repeating one recently cached read while storage is down alternates failures with stale answers and never opens the breaker |
| Resilience.ModeFollowsLastReply | crates/sdkwork-discovery-rpc/src/resilience.rs:78-94 | At any point of any run of commands the mode is read-only exactly when the last accepted command with a conclusive reply was told of a storage failure |
| Resilience.NeverReadOnlyWhenOff | crates/sdkwork-discovery-rpc/src/resilience.rs:86-91 | With the setting off no run enters read-only mode or answers from the cache |

## Left out

- The Postgres and Redis adapters, snapshots and serialisation: the watch and paging guarantees here are those of the memory store.
- Wrap-around of the 64-bit revision and sequence counters: the model's counters are unbounded.
- Floating-point rounding in the token bucket: tokens and time are real numbers.
- Error message texts, and the health-check probe settings a registration carries; runtime health state is modelled.
- Instance payloads inside service watch responses: a failed lookup is a failed send, the payload itself is not modelled.
- Live broadcast delivery and lag: a live event only triggers a drain, which may happen at any time in the model.
- The discovery and listing cache keys: label values are free text inside a joined key, so nothing is claimed for them.
- Permissions, tenant scope, tokens, rate policies on lease times, transport, metrics, health probing and configuration loading.
- Trimming of page tokens by the transport layer: pages are followed at the storage contract's level.
