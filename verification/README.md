# GeoID / DynaStore: a verified model of its coordination core

GeoID (the `dynastore` packages) is a catalogue of geospatial collections served by many
processes at once. What is hard in it is coordination: which pod leads, what happens to a
batch that is cut short, what a crashed or cancelled run leaves behind. This project models
that code in Dafny and proves what it promises, for every interleaving, every input and every
way the outside world can answer. Where a promise does not hold of the code, the exact
condition under which it does is proved instead, with the run or input that breaks it.

The files follow the system:

- `LeaseElection`, `LeaderLoop`: leader election over the lease table, as a step system of any
  number of pods, and the loop that runs one leader tick per tenure.
- `BufferAggregator`, `KeyValueAggregator`: the buffering producers/flush-loop objects.
- `IdMigration`, `CollectionIds`, `MigrationScripts`: the two scripts that re-key rows from
  external to internal collection ids while iterating over a snapshot.
- `BulkIngest`, `IngestRequest`, `AcceptedIds`, `BulkOffload`, `Json`: a bulk write cut into
  sub-batches, deferred to a job when its budget runs out, and answered.
- `TaskRunner`: the one-shot task process around one row of the tasks table.
- `Discovery`, `Requirements`, `ModuleLifespan`: protocol lookup behind its caches,
  requirement files that include each other, module start and stop.
- `SqlText`, `UpsertMeaning`: identifier quoting and upsert rendering, read back as SQL and run.
- `WorkerSizing`, `BboxGrid`: the worker count and the bounding-box grid.

The outside world (clock, database answers, storage, queue, tick results, cancellation) is a
parameter or an event throughout. Real time and coordinates are `real`; Python integers are
`int`; text is `string`.

## Where the code and its documentation disagree

The model follows the code. Each of these is a lemma below.

- Two leaders can tick at once with the shipped heartbeat settings: the tick is clamped by the
  lease lifetime minus the skew margin, but may start any time until the next renewal has come
  back. `HeartbeatExclusiveIff` gives the cadences and timeouts that are safe, `HeartbeatOverlap` the
  run that is not, and `MutualExclusionIff` the timing condition in general. The shipped maintenance
  supervisor is outside the safe range (`ShippedHeartbeatExclusiveIff`).
- `tick_timeout = 0`, documented as disabling the timeout, cancels every tick in the per-tick
  regime (`PerTickServiceTicksIff`).
- A renewal can resume a tenure that another pod held in between, if that pod's lease is over
  by then (`RenewalAfterSuccessor`); the documentation of `renew_lease` says it never can. It
  cannot exactly as long as renewals come at most one lease lifetime apart
  (`RenewalsKeepTenureIff`).
- The configs migration predicts, settles and reaches its targets only as far as hand-made ids
  and external ids are kept apart (`ConfigsMigrationIff`); a collection whose hand-made id is its
  own external id loses its configuration (`SelfNamedCollectionLosesConfig`).
- A permanent task failure is put back in the queue or dead-lettered
  (`PermanentFailureIsRequeued`); a completed row can be overwritten when teardown raises
  (`CompletedStaysIff`); and a failure already recorded inside the lifecycle is recorded a second
  time when leaving the modules raises, or the call that recorded it did (`ReportedTwiceIff`).
- A deferred bulk write is not always the same write (`SpillRoundTripIff`), and a request whose
  remainder is already with a job can still end in a server error (`DeferredButFailed`), exactly
  when its flushes stored and refused nothing (`DeferredButFailedIff`).
- A column is bound to a parameter of its own name exactly when that name is a word
  (`BindsOwnNameIff`); the documentation of `build_upsert` promises it for every column.
- Quoting keeps a name exactly when the name is not empty and not already wrapped in quotes
  (`QuoteKeepsNameIff`).

## Model

| member | source | states |
|---|---|---|
| `LeaseElection.PrecheckIsTransparent` | packages/core/src/dynastore/modules/db_config/locking_tools.py:65-298 | looking at the row before the compare-and-set never changes who wins, and a pod wins exactly when the row is missing, its own, or expired |
| `LeaseElection.BudgetNeverAboveCap` | packages/core/src/dynastore/tools/background_service.py:502-511 | no cadence or timeout a service chooses lifts its tick above lease lifetime minus skew |
| `LeaseElection.PerTickServiceTicksIff` | packages/core/src/dynastore/tools/async_utils.py:727-734 | a per-tick service ever runs its tick if and only if the lease outlasts the skew and an explicit timeout is positive |
| `LeaseElection.StepKeepsInv` | packages/core/src/dynastore/modules/db_config/locking_tools.py:481-867 | every acquire, renewal, tick, resignation, release, crash and passing of time keeps: a pod with a tenure owns the row until its lease ends, or that moment has passed, and the row's times are those of its last round trip |
| `LeaseElection.RunKeepsInv` | packages/core/src/dynastore/modules/db_config/locking_tools.py:481-867 | so it holds in every state any fleet can reach |
| `LeaseElection.MutualExclusionIff` | packages/core/src/dynastore/tools/background_service.py:475-531 | in every interleaving of any number of pods no two are inside a tick at once, if and only if no tick can run or start delay plus budget fits in the lease |
| `LeaseElection.UnsafeRun` | packages/core/src/dynastore/tools/background_service.py:475-531 | outside those settings a run with two ticking pods exists, for any two pods |
| `LeaseElection.PerTickExclusiveIff` | packages/core/src/dynastore/tools/background_service.py:489-521 | for every cadence, timeout and start delay, the per-tick regime is exclusive if and only if no tick ever runs, the delay is within the skew, or the service's own timeout (its cadence, without one) ends in time by itself |
| `LeaseElection.HeartbeatExclusiveIff` | packages/core/src/dynastore/tools/background_service.py:590-639 | for every cadence, timeout and start delay, the heartbeat regime is exclusive if and only if the delay is within the skew or the service's own positive timeout (its cadence, without one) ends in time by itself |
| `LeaseElection.ShippedHeartbeatExclusiveIff` | packages/core/src/dynastore/modules/db_config/connection_health_config.py:98-127 | with the shipped lease, margin and renewal interval and renewals that take up to a given round trip: exclusive if and only if the cadence, or the explicit timeout, is positive and at most 290 seconds less that round trip; the maintenance supervisor is not |
| `LeaseElection.HeartbeatOverlap` | packages/core/src/dynastore/tools/background_service.py:555-639 | the overlapping run of the heartbeat loop, for any settings outside the condition: a first tick at once, a renewal, a second tick just before the next renewal fails, which goes on under its clamp while a successor takes over and ticks |
| `LeaseElection.OverlapBound` | packages/core/src/dynastore/tools/background_service.py:489-499 | when two ticks do overlap, one is past its lease, by at most start delay plus budget minus lifetime |
| `LeaseElection.EpochFences` | packages/core/src/dynastore/modules/db_config/locking_tools.py:65-86 | the epoch never goes back along a run, and one epoch names one owner and one acquisition time |
| `LeaseElection.ReleaseFrees` | packages/core/src/dynastore/modules/db_config/locking_tools.py:577-600 | after a release that lands any other pod can take the row at once, and a release that does not changes nothing |
| `LeaseElection.SameEpochIff` | packages/core/src/dynastore/modules/db_config/locking_tools.py:65-86 | two winning round trips of a run carry the same epoch if and only if the same pod won both and no other pod won in between; successive tenures of one pod share an epoch |
| `LeaseElection.FailoverWithinTtl` | packages/core/src/dynastore/modules/db_config/connection_health_config.py:98-112 | once a lease lifetime has passed with nobody ticking, any waiting pod can take over, whoever held the lease |
| `LeaseElection.RenewalKeepsTenureIff` | packages/core/src/dynastore/modules/db_config/locking_tools.py:603-631 | in every reachable state a renewal that succeeds keeps its tenure if and only if the row is still the pod's own, if and only if the epoch stays; within one lifetime of its last round trip that is certain |
| `LeaseElection.RenewalsKeepTenureIff` | packages/core/src/dynastore/modules/db_config/locking_tools.py:603-631 | renewals never follow a successor, in any run of any fleet, if and only if they come at most one lease lifetime after the last round trip |
| `LeaseElection.RenewalAfterSuccessor` | packages/core/src/dynastore/modules/db_config/locking_tools.py:603-631 | for every delay longer than the lease lifetime, a run in which a renewal that late succeeds after another pod's tenure, visible only in the epoch |
| `LeaderLoop.TenuresNest` | packages/core/src/dynastore/tools/async_utils.py:753-778 | at every point of an allowed trace each tenure is released before the next is acquired, and ticks never outnumber probes or probes acquisitions |
| `LeaderLoop.LeadOnce` | packages/core/src/dynastore/tools/async_utils.py:753-772 | a tenure is released on every way out of probe and tick, and ends the loop only when cancelled |
| `LeaderLoop.RunLeaderLoop` | packages/core/src/dynastore/tools/async_utils.py:665-778 | whatever the rounds do, the trace is allowed and ends with nothing held; the loop ends early if and only if something is cancelled, and otherwise sleeps once per round and ticks exactly when elected and probed |
| `BufferAggregator.AddKeepsInv` | packages/core/src/dynastore/tools/async_utils.py:230-257 | an add keeps the conservation law, the cap and the pending wake-up, also when it drops |
| `BufferAggregator.SwapKeepsInv` | packages/core/src/dynastore/tools/async_utils.py:259-294 | a swap empties the buffer and keeps them too |
| `BufferAggregator.RunKeepsInv` | packages/core/src/dynastore/tools/async_utils.py:230-332 | they hold after every interleaving of producers, loop, callback, flushes asked for from outside, stop and restart |
| `BufferAggregator.NothingLostOrRepeated` | packages/core/src/dynastore/tools/async_utils.py:230-294 | everything added is, in order and once, what left followed by what is buffered; the buffer stays within its cap, and without a cap nothing is dropped |
| `BufferAggregator.ExitIsSegment` | packages/core/src/dynastore/tools/async_utils.py:247-294 | each batch or drop took a contiguous segment starting where the earlier ones stopped, so a dropped item was the oldest |
| `BufferAggregator.DropsIff` | packages/core/src/dynastore/tools/async_utils.py:239-257 | in every run an item is dropped exactly when one is added to a buffer at its cap, and it is the oldest; below the cap adding only appends |
| `BufferAggregator.NoLostWakeup` | packages/core/src/dynastore/tools/async_utils.py:313-332 | a loop at its wait with a full buffer has its event set, in every interleaving, after a raising callback and after any stop and restart |
| `BufferAggregator.EventIff` | packages/core/src/dynastore/tools/async_utils.py:255-326 | in every run the event is set if and only if some add since the last clear left at least `threshold` items |
| `BufferAggregator.StopDrains` | packages/core/src/dynastore/tools/async_utils.py:302-311 | after stop the buffer is empty and everything accepted has left |
| `BufferAggregator.ZeroCapRefusesAll` | packages/core/src/dynastore/tools/async_utils.py:238-254 | a cap of zero or less refuses every item |
| `BufferAggregator.Aggregator.constructor` | packages/core/src/dynastore/tools/async_utils.py:201-228 | a new object stands at the start of the step system |
| `BufferAggregator.Aggregator.Add` | packages/core/src/dynastore/tools/async_utils.py:230-257 | the object's add is that step of a run; it accepts exactly when the cap is not zero, and the item is then the newest |
| `BufferAggregator.Aggregator.TriggerFlush` | packages/core/src/dynastore/tools/async_utils.py:259-294 | for the loop, for stop and for a caller from outside alike: hands over the whole buffer, or nothing when it is empty, as that step of a run |
| `BufferAggregator.Aggregator.LoopOnce` | packages/core/src/dynastore/tools/async_utils.py:313-332 | one pass with producers getting in between clear and swap: all of theirs and the earlier items leave, none stays behind |
| `KeyValueAggregator.BumpAddsOnce` | packages/core/src/dynastore/tools/async_utils.py:343-347 | an increment changes the sum of its own key by its amount and no other sum |
| `KeyValueAggregator.BumpKeepsKeysDistinct` | packages/core/src/dynastore/tools/async_utils.py:343-347 | a key is in the table at most once |
| `KeyValueAggregator.IncrementsConserved` | packages/core/src/dynastore/tools/async_utils.py:334-370 | in every interleaving, per key: added is dispatched plus buffered; a batch names a key once; a full table at the wait has its event set |
| `KeyValueAggregator.KvNoLostWakeup` | packages/core/src/dynastore/tools/async_utils.py:313-347 | a loop at its wait with a full table has its event set, in every interleaving |
| `KeyValueAggregator.KvEventIff` | packages/core/src/dynastore/tools/async_utils.py:343-347 | in every run the event is set if and only if some increment since the last clear left at least `threshold` keys |
| `KeyValueAggregator.StopDispatchesAllIncrements` | packages/core/src/dynastore/tools/async_utils.py:349-370 | after stop every increment ever made is in some batch |
| `KeyValueAggregator.KvAggregator.AddIncrement` | packages/core/src/dynastore/tools/async_utils.py:343-347 | the object's add is that step and adds its amount to that key only |
| `KeyValueAggregator.KvAggregator.FinalFlush` | packages/core/src/dynastore/tools/async_utils.py:349-370 | hands over the whole table, after which all increments are accounted for in batches |
| `IdMigration.OutcomesSumToTotal` | scripts/migrate_styles_collection_id_to_internal_id.py:116-192 | the four outcome counts sum to the rows seen, in both modes, whatever the verdicts |
| `IdMigration.CountersCount` | scripts/migrate_styles_collection_id_to_internal_id.py:121-192 | each counter counts the rows of its own verdict, in both modes |
| `IdMigration.OtherCatalogsUntouched` | scripts/migrate_styles_collection_id_to_internal_id.py:121-192 | a catalog's migration leaves every other catalog's rows as they were |
| `IdMigration.UnprocessedStays` | scripts/migrate_styles_collection_id_to_internal_id.py:121-192 | a snapshot row is still there, unchanged, when its turn comes |
| `IdMigration.RowsConserved` | scripts/migrate_styles_collection_id_to_internal_id.py:141-192 | rows disappear only by being counted as deleted |
| `IdMigration.CommitMigrates` | scripts/migrate_styles_collection_id_to_internal_id.py:116-192 | with targets that stay, every order of the snapshot leaves the table described without the loop: movable keys gone, any other key holding its own row, else the one that moves to it |
| `IdMigration.MigratedIsUnique` | scripts/migrate_styles_collection_id_to_internal_id.py:116-192 | that description has one solution, so the order of the snapshot does not matter |
| `IdMigration.DryRunPredictsIff` | scripts/migrate_collection_configs_to_internal_id.py:116-185 | dry-run reports the commit's counts on every table if and only if no target moves on |
| `IdMigration.ChainBreaksPrediction` | scripts/migrate_collection_configs_to_internal_id.py:138-185 | the two-row table on which it does not |
| `IdMigration.ReachesTargetsIff` | scripts/migrate_collection_configs_to_internal_id.py:116-185 | every movable row's target is occupied afterwards, on every table, if and only if no target is itself movable |
| `IdMigration.MigratesIff` | scripts/migrate_collection_configs_to_internal_id.py:116-185 | every commit, on every table and order, leaves exactly the described table, each row where it belongs, if and only if no target is itself movable |
| `IdMigration.SettlesIff` | scripts/migrate_collection_configs_to_internal_id.py:116-185 | a second commit finds nothing to do, on every table, if and only if no target moves on |
| `CollectionIds.JudgesAreInjective` | packages/core/src/dynastore/modules/catalog/catalog_service.py:96-109 | under the table's unique index no two external ids resolve to one internal id |
| `CollectionIds.ShapeIsGenerated` | packages/core/src/dynastore/modules/catalog/catalog_service.py:170-221 | an id looks internal if and only if the generator can produce it |
| `CollectionIds.StylesVerdicts` | scripts/migrate_styles_collection_id_to_internal_id.py:72-139 | what the styles script takes an id for: internal exactly for a live collection's id, orphaned exactly when no live collection has it either way, else moved to the collection of that external id |
| `CollectionIds.ConfigsVerdicts` | scripts/migrate_collection_configs_to_internal_id.py:116-136 | what the configs script takes an id for: internal exactly for what the generator can produce, and else as the table says |
| `CollectionIds.StylesTargetsStay` | scripts/migrate_styles_collection_id_to_internal_id.py:72-88 | what the styles script resolves to is always an id it would leave alone |
| `CollectionIds.StylesMigrationCorrect` | scripts/migrate_styles_collection_id_to_internal_id.py:116-192 | the styles migration, for every table and order: dry-run predicts, a second commit is idle, other catalogs and orphans stay, and the row found under a live collection's internal id is the one that was there, else the one under its external id |
| `CollectionIds.ConfigsTargetsStayIff` | scripts/migrate_collection_configs_to_internal_id.py:116-136 | when the configs script's verdicts have the needed shape, in terms of the collections table |
| `CollectionIds.ConfigsMigrationIff` | scripts/migrate_collection_configs_to_internal_id.py:88-192 | each promise of the configs migration (dry-run predicts, second commit idle, targets reached, and the committed table being exactly the described one) holds if and only if hand-made ids are kept apart from external ids, and all hold when every live id has the generated shape |
| `CollectionIds.SelfNamedCollectionLosesConfig` | scripts/migrate_collection_configs_to_internal_id.py:138-155 | a hand-made id equal to its own external id makes its row collide with itself and be deleted |
| `MigrationScripts.MigrateRow` | scripts/migrate_styles_collection_id_to_internal_id.py:121-192 | one row of the loop over the mutable table, in both modes |
| `MigrationScripts.MigrateCatalog` | scripts/migrate_styles_collection_id_to_internal_id.py:102-200 | one transaction: the table is untouched by a dry run or a failure and only then, else that of the loop; rows lost equal rows counted deleted; the counters of a failed catalog are those gathered before the failure |
| `MigrationScripts.StatsAreLocal` | scripts/migrate_styles_collection_id_to_internal_id.py:121-192 | a catalog's counters depend on its own rows only |
| `MigrationScripts.CatalogsAreIndependent` | scripts/migrate_styles_collection_id_to_internal_id.py:203-232 | after a whole run each catalog holds what its own migration alone would have left, failed and unlisted ones what they held before |
| `MigrationScripts.MigrateAll` | scripts/migrate_styles_collection_id_to_internal_id.py:203-232 | the run over all catalogs: its table, every total as the sum of what each catalog would report alone on the original table, and that without failures rows lost equal rows counted deleted |
| `BulkOffload.SpillRoundTripIff` | packages/core/src/dynastore/extensions/ogc_bulk_offload.py:154-223 | whatever the reader does to properties it does not give back, what the job prepares from a spilled item says all the submitted item said if and only if its id is a non-empty string, its geometry not an empty object, the reserved property unused and no validity given |
| `BulkOffload.ClassifyIff` | packages/core/src/dynastore/extensions/ogc_bulk_offload.py:154-223 | exactly the plain features are taken: a feature's own members, an identity, a shape or none, and properties the reader gives back |
| `BulkOffload.DedupKeySeparates` | packages/core/src/dynastore/extensions/ogc_bulk_offload.py:336-346 | for one collection two remainders share a key exactly when their contents hash alike, and no other catalog or collection has it |
| `BulkOffload.IdentityIs` | packages/core/src/dynastore/extensions/ogc_bulk_offload.py:226-232 | a rejection names an item by its id's own text |
| `BulkOffload.SpillPathsDiffer` | packages/core/src/dynastore/extensions/ogc_bulk_offload.py:300-312 | whatever the base paths, two calls with different uuids of one length never spill to the same file |
| `BulkOffload.SpillAndEnqueue` | packages/core/src/dynastore/extensions/ogc_bulk_offload.py:264-408 | storage and queue after every way they can answer: a file stays exactly when the queue took the work or the delete failed, a job is reported exactly when it was enqueued and has an id; over any run of calls with new files and working deletes, every file has a job and every job its file |
| `BulkOffload.RejectAll` | packages/core/src/dynastore/extensions/ogc_bulk_offload.py:226-245 | one rejection per item, in order, naming that item |
| `BulkOffload.OffloadBulkRemainder` | packages/core/src/dynastore/extensions/ogc_bulk_offload.py:411-482 | exactly one of four outcomes and which, with the queue after each; success only with the whole remainder stored and queued; an unsupported shape touches nothing; failure names every item once; no file is left without a job to read it |
| `BulkOffload.RetryIsDeduplicated` | packages/core/src/dynastore/extensions/ogc_bulk_offload.py:330-395 | repeating a deferred remainder while its job is unfinished enqueues nothing more |
| `AcceptedIds.ResolveAcceptedIds` | packages/core/src/dynastore/extensions/ogc_base.py:2189-2219 | one id per row in order, or an error if and only if some row has none |
| `AcceptedIds.IdIsFirstTruthy` | packages/core/src/dynastore/extensions/ogc_base.py:2200-2213 | a row's id is the first true value among its own id, external id, geoid and, with attributes, their id and external id |
| `AcceptedIds.FalsyValues` | packages/core/src/dynastore/extensions/ogc_base.py:2201-2213 | the seven values that count as no id |
| `AcceptedIds.ResolveDistributes` | packages/core/src/dynastore/extensions/ogc_base.py:2189-2219 | resolving in pieces and gluing is resolving the whole, errors included |
| `AcceptedIds.ResolveIsIdempotent` | packages/core/src/dynastore/extensions/ogc_base.py:2189-2219 | ids already resolved pass through |
| `JsonValues.IntTextReadsBack` | packages/core/src/dynastore/extensions/ogc_base.py:2214-2215 | the text of an integer id reads back as the integer |
| `BulkIngest.TruncationCommutes` | packages/core/src/dynastore/extensions/ogc_base.py:1988-2085 | keeping the last samples after every flush keeps the same ones as keeping them once at the end |
| `BulkIngest.LastNIsSuffix` | packages/core/src/dynastore/extensions/ogc_base.py:1992-1993 | what is kept is the end of the list |
| `BulkIngest.Flush` | packages/core/src/dynastore/extensions/ogc_base.py:1939-2005 | a flush that goes through counts as written and the ids and samples carried are again those of all sub-batches written; one that does not changes nothing; it goes through exactly when the store takes the batch and every row has an id |
| `BulkIngest.ErrorKinds` | packages/core/src/dynastore/extensions/ogc_base.py:1966-2001 | which error each of the store's answers turns into, both ways |
| `BulkIngest.FlushIsReported` | packages/core/src/dynastore/extensions/ogc_base.py:1950-2001 | all a flush refused, the batch's own refusal first, and every row it stored are reported right after those of the flushes before it |
| `BulkIngest.Gate` | packages/core/src/dynastore/extensions/ogc_base.py:2014-2087 | offers the remainder once, at the first flush that used up the budget with something left, and says whether it is dealt with |
| `BulkIngest.SplitIngest` | packages/core/src/dynastore/extensions/ogc_base.py:1930-2094 | for every store, clock and offload: sub-batches followed by the remainder are the submitted list; each sub-batch was written without error, is non-empty, within the row cap, under the byte budget without its last item, and at a limit unless last; at most one offload, none with the gates off; a remainder is left only to a job, to the rejections or to an upsert error |
| `BulkIngest.AccountMeans` | packages/core/src/dynastore/extensions/ogc_base.py:2035-2089 | the sizes in plain numbers: at most the row cap (one row if that is less), under the byte budget without the last item, at a limit unless last; no offload with both budgets off |
| `BulkIngest.CutWhereBudgetEnds` | packages/core/src/dynastore/extensions/ogc_base.py:2044-2087 | an offload is tried exactly when some flush that leaves items over brings the bytes written or the clock up to its limit, at the first such flush, with all that is left |
| `IngestRequest.NeedsSplit` | packages/core/src/dynastore/extensions/ogc_base.py:1912-1926 | the early-exit size estimate gives the answer of the full sum |
| `IngestRequest.IngestItems` | packages/core/src/dynastore/extensions/ogc_base.py:1816-2155 | the whole request: refused when too long, one upsert when small, otherwise the split path, and the last check on an empty result |
| `IngestRequest.SingleAnswers` | packages/core/src/dynastore/extensions/ogc_base.py:2095-2155 | what an unsplit request makes of each answer of the store: rows, single row, batch refusal, nothing, and the three errors |
| `IngestRequest.SingleItemsAddUp` | packages/core/src/dynastore/extensions/ogc_base.py:2095-2155 | with a store that stores or refuses each item once, an unsplit request's two lists add up to the batch |
| `IngestRequest.SplitConcludesAsSingle` | packages/core/src/dynastore/extensions/ogc_base.py:1930-2155 | one batch under limits that split it and limits that do not: the same ids in the same order, the split one's refusals the last samples of the other's, a server error for both or neither |
| `IngestRequest.SplitReportsSame` | packages/core/src/dynastore/extensions/ogc_base.py:1939-2094 | with a store that treats items one by one, any way of cutting the list reports the same ids in order and refuses the same items |
| `IngestRequest.SplitEqualsSingle` | packages/core/src/dynastore/extensions/ogc_base.py:2088-2155 | so a request split and not deferred reports what the single call would have, up to the sample limit on refusals |
| `IngestRequest.ItemsAddUp` | packages/core/src/dynastore/extensions/ogc_base.py:1930-2094 | stored, refused and deferred items add up to the batch |
| `IngestRequest.EveryItemAnswered` | packages/core/src/dynastore/extensions/ogc_base.py:2221-2301 | the total in the response is the batch size although the two builders compute it differently, and untruncated lists add up to it |
| `IngestRequest.ResponseWithoutOffload` | packages/core/src/dynastore/extensions/ogc_base.py:2248-2301 | without a deferred remainder: created exactly when nothing was refused, else a report with both lists and the batch size |
| `IngestRequest.EndsInErrorIff` | packages/core/src/dynastore/extensions/ogc_base.py:2067-2155 | a split request without an upsert error ends in a server error if and only if its flushes stored and refused nothing and no failed offload refused anything |
| `IngestRequest.DeferredButFailedIff` | packages/core/src/dynastore/extensions/ogc_base.py:2067-2155 | for every limit, store and list: with the remainder at a job, the request still ends in a server error if and only if its flushes stored and refused nothing |
| `IngestRequest.DeferredButFailed` | packages/core/src/dynastore/extensions/ogc_base.py:2067-2155 | the request itself, run through `IngestItems`: two items, the second handed to a job, and a server error |
| `TaskRunner.ClaimExcludesOthers` | packages/core/src/dynastore/modules/tasks/tasks_module.py:3522-3591 | a claim shuts other processes out exactly for its lease, readmits its owner, and never revives a finished row |
| `TaskRunner.ClaimableIff` | packages/core/src/dynastore/modules/tasks/tasks_module.py:3560-3577 | exactly the unfinished rows can be claimed, the active ones only when their lease is over, missing or one's own |
| `TaskRunner.RunTask` | packages/core/src/dynastore/main_task.py:406-550 | the row and the ending after the task and its own handlers, for writes that land or not however their calls end, with the heartbeat cancelled on every way out |
| `TaskRunner.InsideTasks` | packages/core/src/dynastore/main_task.py:345-550 | a row that cannot be claimed is neither run nor heartbeaten nor written; otherwise claim, heartbeat and the task's own end |
| `TaskRunner.MainTask` | packages/core/src/dynastore/main_task.py:234-602 | an exception carries the reported stamp only if a row was really put back in the queue or dead-lettered |
| `TaskRunner.Process` | packages/core/src/dynastore/main_task.py:650-669 | the process exits 0 exactly when it returns, and after running its task only if that succeeded; an ordinary exception exits with 1 and, under a task id, is reported inside the lifecycle, from outside, or both; no heartbeat outlives the run |
| `TaskRunner.ReturnsIff` | packages/core/src/dynastore/main_task.py:234-602 | the process ends well if and only if everything around the task did and the task succeeded and was recorded, or its row was not to be had for no failure of its own |
| `TaskRunner.ExitsEarlyIff` | packages/core/src/dynastore/main_task.py:352-384 | it chooses status 1 itself if and only if the row was not to be had because an earlier attempt had failed for good |
| `TaskRunner.CancelledOnlyIf` | packages/core/src/dynastore/main_task.py:234-602 | a cancellation comes out only if something was cancelled |
| `TaskRunner.WithoutIdNothingWritten` | packages/core/src/dynastore/main_task.py:395-400 | without a task id nothing is written to the row |
| `TaskRunner.RetriesAreBounded` | packages/core/src/dynastore/modules/tasks/tasks_module.py:3030-3062 | failed attempts are counted one by one and the row is back in the queue exactly while both retry limits allow another |
| `TaskRunner.ReportedTwiceIff` | packages/core/src/dynastore/main_task.py:551-669 | such an exception is never left unreported, and is reported both ways if and only if the write from inside has landed and leaving the modules raises, or that write's own call did; the row put back in the queue then ends FAILED with its retry counted |
| `TaskRunner.PermanentFailureIsRequeued` | packages/core/src/dynastore/modules/tasks/tasks_module.py:2988-3113 | with everything answering, a permanent failure ends in the queue or dead-lettered, never FAILED |
| `TaskRunner.PermanentFailureEndsFailedIff` | packages/core/src/dynastore/main_task.py:515-600 | whatever the writes and teardowns do, it ends FAILED if and only if the report from outside lands, or no requeue lands and the task handler's own write does or the row was FAILED already |
| `TaskRunner.OrdinaryFailureEnds` | packages/core/src/dynastore/main_task.py:551-600 | after an ordinary failure the status and retry count the row ends with, exactly, for every way writes and teardowns end |
| `TaskRunner.CompletedStaysIff` | packages/core/src/dynastore/main_task.py:415-600 | a row once written COMPLETED, however that call ended, stays so if and only if neither outer handler's write lands, and what it becomes when only the requeue does |
| `TaskRunner.RefusedRowUntouchedIff` | packages/core/src/dynastore/main_task.py:345-394 | a row that may not be claimed is left as it was if and only if no requeue lands and any FAILED write finds it FAILED already |
| `TaskRunner.CancelledTaskIsReleased` | packages/core/src/dynastore/main_task.py:458-514 | a cancelled run leaves the row FAILED on a final timeout if still its own, else returns an active row to the queue; it stays so, and no retry is used up, if and only if no outer handler's write changes it |
| `Discovery.SortSorts` | packages/core/src/dynastore/tools/discovery.py:118-119 | the sort is by priority and loses nothing |
| `Discovery.SortIsStable` | packages/core/src/dynastore/tools/discovery.py:118-119 | and keeps the order of equal priorities |
| `Discovery.SortFilter` | packages/core/src/dynastore/tools/discovery.py:71-169 | stable sorting commutes with filtering |
| `Discovery.FoundIsAvailablePart` | packages/core/src/dynastore/tools/discovery.py:71-169 | the cached lookup is the available part of the full one, in the same order |
| `Discovery.HeadIsBest` | packages/core/src/dynastore/tools/discovery.py:66-119 | the single lookup is empty if and only if no registered instance serves the protocol, and otherwise serves it and is unbeaten in priority |
| `Discovery.FoundMembers` | packages/core/src/dynastore/tools/discovery.py:71-169 | the lookup finds exactly the instances of the four registries that serve the protocol, the full listing exactly those that implement it |
| `Discovery.RegistriesInOrder` | packages/core/src/dynastore/tools/discovery.py:92-119 | among equal priorities plugins win over modules, modules over extensions, extensions over tasks |
| `Discovery.TieGoesToEarlier` | packages/core/src/dynastore/tools/discovery.py:92-119 | among equal priorities the candidate met first wins |
| `Discovery.TouchKeepsFresh` | packages/core/src/dynastore/tools/discovery.py:65-71 | a cache filled with right answers stays right through refresh and eviction |
| `Discovery.TouchRemembers` | packages/core/src/dynastore/tools/discovery.py:65-71 | what was just used is remembered, and nothing else is forgotten until 128 are, then the longest unused |
| `Discovery.Registry.RegisterPlugin` | packages/core/src/dynastore/tools/discovery.py:42-52 | adds an instance once and leaves no stale cache entry |
| `Discovery.Registry.UnregisterPlugin` | packages/core/src/dynastore/tools/discovery.py:54-63 | removes exactly that instance, keeps the others in their order and leaves no stale cache entry |
| `Discovery.Registry.Reconfigure` | packages/core/src/dynastore/tools/discovery.py:172-180 | instance slots and availability may change freely together with a cache clear |
| `Discovery.Registry.Discover` | packages/core/src/dynastore/tools/discovery.py:71-119 | one pass finds every usable candidate at its first occurrence, sorted |
| `Discovery.Registry.GetProtocols` | packages/core/src/dynastore/tools/discovery.py:71-130 | after any run of registrations and lookups the cached answer is the recomputed one |
| `Discovery.Registry.GetProtocol` | packages/core/src/dynastore/tools/discovery.py:65-125 | and the cached single answer is its head |
| `Requirements.WalkStaysInside` | packages/core/src/dynastore/tools/dependencies.py:28-81 | a set of files closed under inclusion holds every file reachable from it |
| `Requirements.UpToBrokenIs` | packages/core/src/dynastore/tools/dependencies.py:55-81 | a line that raises ends its file, what came before it counts |
| `Requirements.Parse` | packages/core/src/dynastore/tools/dependencies.py:28-81 | one file: the requirements of exactly the files newly read because of it, all reachable and with their includes read, through the shared set; it ends on every finite include graph |
| `Requirements.ParseLine` | packages/core/src/dynastore/tools/dependencies.py:57-77 | one line keeps that account, an include by recursion |
| `Requirements.ParseRequirementsList` | packages/core/src/dynastore/tools/dependencies.py:28-81 | a requirement is returned if and only if some file reachable by includes states it, cycles and diamonds included |
| `ModuleLifespan.OrderIsSorted` | packages/core/src/dynastore/modules/__init__.py:127-146 | the start order holds every registered module once, by priority and then name |
| `ModuleLifespan.OrderMeans` | packages/core/src/dynastore/modules/__init__.py:127-146 | a smaller declared priority starts first, none counting as 100, and among equals the name first in code point order |
| `ModuleLifespan.OrderIgnoresDiscovery` | packages/core/src/dynastore/modules/__init__.py:127-146 | the same modules start in the same order whatever order they were discovered in |
| `ModuleLifespan.Startup` | packages/core/src/dynastore/modules/__init__.py:306-345 | startup reaches the application if and only if no live module is cancelled or fails below priority 20 other than by a missing dependency; what was entered is what has to be left |
| `ModuleLifespan.AbortsIff` | packages/core/src/dynastore/modules/__init__.py:306-345 | startup fails if and only if an instantiated module is cancelled on entry or, declaring a priority under 20, fails there other than by a missing dependency |
| `ModuleLifespan.Unwind` | packages/core/src/dynastore/modules/__init__.py:301-306 | every entered lifespan is left once, last first, also when an earlier exit raises |
| `ModuleLifespan.ErrorAfterIff` | packages/core/src/dynastore/modules/__init__.py:301-306 | an error comes out if and only if some exit raised, or there was one to begin with, and no exit after that swallowed it |
| `ModuleLifespan.Lifespan` | packages/core/src/dynastore/modules/__init__.py:285-408 | the whole log of a process: entries, application, wait (none with an empty registry), exits in reverse, and whether an error comes out |
| `ModuleLifespan.StartsIff` | packages/core/src/dynastore/modules/__init__.py:306-345 | a module starts if and only if it is live, enters, and nothing up to it in the order is fatal |
| `ModuleLifespan.LifespansNest` | packages/core/src/dynastore/modules/__init__.py:127-408 | of two started modules the one with the smaller priority and name enters first and leaves last, at mirrored places of the log |
| `SqlText.QuoteIsIdempotent` | packages/core/src/dynastore/tools/db.py:137-159 | quoting a quoted identifier changes nothing, for every string and with or without the wildcard |
| `SqlText.QuoteKeepsNameIff` | packages/core/src/dynastore/tools/db.py:137-159 | read by the delimited-identifier rule of section 5.2 of ISO/IEC 9075-2, a quoted name is the name if and only if it is not empty and not already wrapped |
| `SqlText.QuoteSeparatesProperNames` | packages/core/src/dynastore/tools/db.py:137-159 | two such names never quote alike, while a name and its own quoted form always do |
| `SqlText.ListReadsBack` | packages/core/src/dynastore/tools/db.py:238-257 | a rendered column list, SET clause or RETURNING list reads back as the list it was made from, whatever follows it in the statement |
| `SqlText.ValuesReadBack` | packages/core/src/dynastore/tools/db.py:239-241 | the VALUES clause reads back as the columns' own expressions, in column order |
| `SqlText.BindsOwnNameIff` | packages/core/src/dynastore/tools/db.py:239-241 | a column without a literal binds the parameter of its own name if and only if that name is a word |
| `SqlText.UpsertReadsBack` | packages/core/src/dynastore/tools/db.py:188-257 | the rendered statement, read as SQL, names exactly the columns, the i-th value for the i-th column, the conflict target, assignments and returned columns it was built from; the two error cases |
| `UpsertMeaning.UpsertLaws` | packages/core/src/dynastore/tools/db.py:235-257 | any such upsert keeps the key unique, stores one row under the proposed key, touches no other, and run again changes nothing |
| `UpsertMeaning.IsPutIff` | packages/core/src/dynastore/tools/db.py:235-250 | every listed column takes its proposed value if and only if it is in the conflict target or refreshed |
| `UpsertMeaning.UpsertIsPut` | packages/core/src/dynastore/tools/db.py:188-257 | the statement with default update columns, rendered, read back and run on the values it carries, is refused if and only if a column is named twice, and is otherwise a put: listed columns take their parameters or literals, the others keep theirs, the rest of the table stays, twice is once |
| `WorkerSizing.FitsIff` | packages/core/src/dynastore/scripts/worker_sizing.py:150-159 | the circular memory constraint is the closed-form cap |
| `WorkerSizing.WorkerCountIsLargest` | packages/core/src/dynastore/scripts/worker_sizing.py:130-164 | whatever the environment says, an explicit count is taken as it is, and else the count is the largest feasible one under the given or default memory, reserve, cache share, maximum and cores, and 1 when none is |
| `BboxGrid.PartitionBbox` | scripts/preseed_fanout.py:82-103 | a degenerate extent and a missing grid size are refused, and only those; otherwise the row-by-row grid |
| `BboxGrid.CellAt` | scripts/preseed_fanout.py:95-103 | there are exactly columns times rows cells, in row-major order |
| `BboxGrid.NeighboursShareEdges` | scripts/preseed_fanout.py:95-103 | neighbours share their edges exactly and the outer edges are those of the rounded extent |
| `BboxGrid.CellsAreAlike` | scripts/preseed_fanout.py:93-102 | before rounding every cell has an equal part of the width and height, at its own place |
| `BboxGrid.EveryPointInOneCell` | scripts/preseed_fanout.py:82-103 | with any rounding that keeps order, every point of the half-open rounded extent is in exactly one half-open cell |
| `BboxGrid.CellInExtent` | scripts/preseed_fanout.py:82-103 | and no cell reaches outside that extent |

## Left out

- Retries, backoff and the circuit breaker inside a lease round trip: a round trip that gives up is a failed one.
- Two loops of one process contending for the same lock key: they share an owner, so the lease does not separate them.
- Clocks of pods: the database clock decides; a pod's timeouts are taken to fire on time.
- `LeaseElection.FailoverWithinTtl`: states that the takeover is possible, not that some pod attempts it.
- Overlapping `stop()` calls of one aggregator with a `start()` between them, which leave two flush loops running: one stop at a time is modelled.
- Logging, jitter, warning cooldowns, metrics and the lock that serialises flush callbacks.
- `WaitableSignal`, `SignalBus` and `PgListenBridge`: they drop signals by design, so there is no delivery to prove.
- The inherited plain `add` on the key/value aggregator, which its loop never flushes.
- JSON text encoding, the content hash and float text: arbitrary functions here; the spill reader is its documented contract only, restricted to id, geometry and properties.
- `BulkOffload.RetryIsDeduplicated`: with a working queue key per body; two bodies with one hash are one remainder to it, as in the code.
- Merging of index results into the upsert results and the HTTP wiring around `_ingest_items`.
- Output persistence with its own retry loop, environment parsing of the final-timeout test and payload validation in the task runner: one setup step and one flag here.
- The heartbeat's own writes to the tasks row while the task runs: covered by the arbitrary change other processes may make.
- `IdMigration.Row`: the columns carried along are one opaque value; an unreadable table is not modelled.
- Include-only aliases and instantiation of modules: a registry entry says whether it was instantiated.
- The runtime protocol audit and the bootstrap mark at the end of startup: they swallow their own errors.
- `validate_sql_identifier`, `validate_column_identifier` and the qualify helpers: each accepts or refuses a name by its length, its characters and a word list, and renders nothing new.
- `SqlText.UpsertReadsBack`: the table reference is the caller's own SQL, and a literal is taken to be one whole expression; NULL keys and other unique indexes of the table are not modelled.
- Truncation of worker settings from text and memory units; the share is computed over reals.
- `BboxGrid.PartitionBbox`: over reals; in floating point the far side of a cell and the near side of the next may differ before rounding.
- Mutation by a caller of a list returned from the lookup cache.
- `Requirements.ParseRequirementsList`: needs a finite set of paths, since joined relative paths are not normalised and an include could otherwise name ever longer ones.
- HTTP handlers, localisation, expression templates, field-type tables and operator scripts for resets and clean-up: wiring, finite tables and DDL without an algorithm of their own.
