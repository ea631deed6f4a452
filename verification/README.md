# Verified model of the hyperfleet store, its teardown protocol and its rate limiter

This project models three parts of the repository in Dafny and proves what they promise.

1. **The list/watch store on Postgres** (`hyperfleet-db`). Writers take increasing
   transaction ids, stamp rows with them and commit in any order. `List` and each poll read
   one snapshot. The watcher moves its mark to `xmin - 1`, the relay maps events for an
   informer, and a compactor removes tombstones and raises a horizon in one statement.
   `Database`, `History`, `Framing`, `Deletion`, `Undeletion`, `Watch`, `WatchLaws` and
   `Resuming` treat this as one state machine and reason over all its runs; `Rows` and
   `Tombstone` hold the meaning of a single write and of "deleted". `Reader` and
   `WriterSession` hold the same steps as loops and state-changing methods, each proved to do
   what the state machine does.
2. **The teardown protocol of the operator.** The cluster and node pool controllers turn
   desires into removals, wait for the applier's status and drop their finalizers. Each read
   and write of a reconcile is one step, and steps of the controllers, users, the placement
   controller and the applier interleave freely (`Teardown`). `TeardownLimits` shows, for
   each assumption of the safety theorems, a run that goes wrong without it;
   `TeardownProgress` shows that a teardown can always be finished. `Reconcilers` holds the two
   delete reconciles as methods. `Desires`, `DesireStatus` and `DesireStore`
   cover the client with its cache, the status check and the tables.
3. **The in-memory GCRA rate limiter** (`RateLimit`), in the virtual scheduling form of
   Annex A of ITU-T Recommendation I.371.

`Shard`, `ResourceVersion` and `Debounce` cover sharding, version strings and poll timing.
`dafny verify dfyconfig.toml` checks everything.

## What does not hold, and when it does

- **Resuming from the relay's version can lose objects.** `hyperfleet-db/docs/DESIGN.md`
  (line 86) says everything at or below a version is committed and delivered. The relay
  stamps objects with the largest id seen, and the code resumes from any version.
  `Resuming.RelayResumeLoses` is a run that loses an object this way. `Resuming.ResumeExact`
  gives the exact condition for any state, and `Resuming.ResumeAtSnapshotExact` spells it out
  for a consumer that holds a snapshot's view: the resume will be refused, or no id at or
  below the version is unissued, idle, or has written a row in scope that is listed or
  replaces a listed one. What a caller can rely on: all ids up to the version had finished in
  a snapshot relayed in full (`Resuming.AllFinishedSuffices`), as is always so for List
  versions (`Resuming.ListVersionCovered`).
- **A deletion can be undone across incarnations.** Object versions restart at 1 when a
  tombstone is revived, so an update holding a version of the old uid can pass the check
  against the new one. `Undeletion.UpdateAcrossIncarnationsUndeletes` is such a run of client
  calls. `Undeletion.UpdateCanClearIff` is the exact condition on the caller's side: other
  calls can bring an update to clear a deletion if and only if it holds version 2 or later and
  read an undeleted row. In every run of client calls, only an update that holds a version of an
  earlier uid and read an undeleted row clears a deletion (`Undeletion.OnlyStaleUpdatesClear`);
  without such updates deletions stand (`Deletion.DeletionIsOneWay`).
- **A create may not carry its deletion time.** Reviving a tombstone always clears it
  (`Rows.SuccessCarriesRequestIff`). The client's own `Create` never sets one.
- **A JSON null in the finalizers field** makes a row listed yet hidden from Get
  (`Tombstone.JsonNullDisagrees`); `Tombstone.GoAgreesWithSqlIff` is the exact condition,
  which all metadata written by the client meets.
- **Teardown rests on assumptions**, and each promise on its own ones. A pool's finalizer
  (`Teardown.PoolTeardownSafe`) needs: distinct desires of a pool document carry distinct
  seconds, the lookup of the cluster succeeds, no pool is created and no placement reference is
  set once the cluster is being deleted, and the cluster is deleted only under its finalizer.
  The set the cluster's delete reconcile rendered (`Teardown.RenderedTeardownSafe`) needs only
  distinct seconds of cluster desires. All that was ever written for the cluster
  (`Teardown.WrittenTeardownSafe`) needs moreover that the placement lookup succeeds and that
  the delete reconcile renders every document ever written. `TeardownLimits` shows for each of
  them a run that violates it alone and lets a finalizer go too early. The comment in
  `cluster_controller.go` (lines 281-282) that no management cluster means nothing was ever
  placed holds only under the last theorem's assumptions, and the one at lines 320-322 that the
  rendered set must match the original is itself one of them. The staleness check singles out
  the latest desire exactly when its second is the latest (`DesireStore.CheckSinglesOutIff`).
- **The desire cache answers where a client without one would fail**: exactly when it spares a
  read that would have failed (`Desires.CacheIsTransparent`).
- **Poll spacing** is kept by every schedule exactly when the debounce floor does not exceed
  the baseline (`Debounce.SpacingIff`).
- **A negative object version** is dropped by the version encoder
  (`ResourceVersion.RoundTripIff`).

## Model

| member | source | states |
|---|---|---|
| `Watch.WatchComplete` | hyperfleet-db/internal/reader/watcher.go:343-462 | in every run of writers committing out of id order, compactors, polls, relays, relists and resumes that are covered (the exact condition of `Resuming.ResumeExact`), a poll is refused as gone, or the consumer, once the channel has been relayed, holds exactly the live and dying rows of that poll's snapshot |
| `Watch.PollCatchesUp` | hyperfleet-db/internal/reader/watcher.go:391-459 | under the invariant, cache plus channel plus the answer of an unrefused poll is exactly the snapshot's view |
| `Watch.StepSound` | hyperfleet-db/internal/reader/watcher.go:383-462 | every step of writers, compactors, poller, relay, relists and covered resumes keeps the watch invariant |
| `Watch.RunSound` | hyperfleet-db/internal/reader/watcher.go:343-462 | the watch invariant holds in every state of every run whose resumes are covered |
| `Watch.CompactionKeepsUpToDate` | hyperfleet-db/compaction/compactor.go:32-46 | a compaction that removes a row still cached raises the horizon above the mark, so the next poll is refused |
| `Watch.StoreKeepsUpToDate` | hyperfleet-db/internal/writer/writer.go:496-520 | no commit changes, unseen, a row at or below a mark that nothing can slip under |
| `Watch.RelaySound` | hyperfleet-db/pgwatch.go:80-102 | forwarding the next event keeps the invariant, dying objects arriving as Modified |
| `WatchLaws.RefusedIffCompactedAbove` | hyperfleet-db/internal/reader/watcher.go:391-402 | in every run a poll from any mark is refused exactly when a row of the group stamped above the mark was compacted |
| `WatchLaws.CompactionNeverHidesDeletion` | hyperfleet-db/internal/reader/watcher.go:391-402 | when a poll is not refused, nothing was ever compacted above its mark and every object still held has a row, so each compacted object's deletion had been delivered |
| `WatchLaws.HwmNeverFalls` | hyperfleet-db/internal/reader/watcher.go:454-459 | from a mark all ids up to which have finished, and while no version is resumed from, the mark never decreases and lies below every open id |
| `WatchLaws.BoundedRedelivery` | hyperfleet-db/internal/reader/watcher.go:410-459 | a later poll returns only rows stamped at or above an earlier poll's xmin, so a row whose ids had all finished is not redelivered unless rewritten |
| `WatchLaws.DeliveredInCommitOrder` | hyperfleet-db/internal/reader/watcher.go:343-381 | over a whole run, listings, relists and resumes from any version included, the states handed over for a key are its committed states in commit order, some skipped, some repeated |
| `WatchLaws.StampsCanFall` | hyperfleet-db/internal/writer/writer.go:496-520 | there is a run in which a key's later commit carries a smaller stamp, so commit order is not stamp order |
| `Resuming.ResumeExact` | hyperfleet-db/pgcache.go:259-286 | resuming from a version never loses anything, whatever happens afterwards, if and only if polling from it is refused, or all at or below it is in the cache and no id there may still commit a change in scope |
| `Resuming.ResumeAtSnapshotExact` | hyperfleet-db/pgcache.go:259-286 | for a consumer that holds a snapshot's view: if and only if it will be refused, the scope owns nothing, or no id at or below the version is unissued, idle, or has written a row in scope that is listed or replaces a listed one |
| `Resuming.AllFinishedSuffices` | hyperfleet-db/internal/reader/watcher.go:454-459 | in every run from a listing: once a snapshot was relayed in full, every version whose ids had all finished there is safe to resume from, then and after whatever follows; so is the watcher's own mark whenever the channel is empty |
| `Resuming.ListVersionCovered` | hyperfleet-db/internal/reader/list.go:41-51 | a List version is the largest all ids up to which have finished, and stays safe to resume from after every run of polls, relays, relists, covered resumes, writers and compactors |
| `Resuming.SlippingLoses` | hyperfleet-db/pgcache.go:259-286 | whenever an id at or below the mark may still commit a change in scope (unissued, idle or pending), there is a run whose poll is not refused and yet misses it |
| `Resuming.RelayResumeLoses` | hyperfleet-db/pgwatch.go:80-88 | a full run in which the consumer holds everything, resumes from the version the relay put on its last object, and misses an object |
| `WatchLaws.RelayVersionIsLargest` | hyperfleet-db/pgwatch.go:80-88 | during a watch the relay's version is the largest stamp forwarded, or the starting version |
| `WatchLaws.RelayVersionCanOverrun` | hyperfleet-db/pgwatch.go:84-88 | there is a run in which the relay names a version above an id that is still open and may write in scope |
| `Reader.List` | hyperfleet-db/internal/reader/list.go:31-107 | returns the requested page of exactly the rows of the view that satisfy the added clauses, each key once in stamp order, with the largest version all ids up to which have finished; without clauses and limit, a whole listing |
| `Reader.Page` | hyperfleet-db/internal/reader/list.go:71-78 | with a limit, at most that many rows from the offset on, in order; without, all |
| `Reader.Select` | hyperfleet-db/internal/reader/list.go:86-97 | collects exactly the rows of the scan that satisfy the clause, in order |
| `Reader.Watcher.PollAll` | hyperfleet-db/internal/reader/watcher.go:383-462 | refused exactly when a row of the group stamped above the mark was compacted; otherwise an answer to the poll query with reader types, and the mark moved to xmin - 1, never back |
| `Reader.Classify` | hyperfleet-db/internal/reader/watcher.go:428-449 | keeps the rows in order and types each one |
| `WatchLaws.TypesTellTheCommit` | hyperfleet-db/internal/reader/watcher.go:439-446 | in every run a commit reads as Deleted iff it carries a deletion time, otherwise as Added iff it is the first of its uid; the relay forwards Deleted exactly for rows List hides |
| `Reader.SelectedIsAnswer` | hyperfleet-db/internal/reader/watcher.go:410-420 | filtering a scan by group, shard and stamp gives an answer the protocol allows |
| `Scans.PresentationExists` | hyperfleet-db/internal/reader/watcher.go:420-426 | whatever rows of a snapshot a query wants, they can be presented once each in stamp order, so every poll and list has an answer |
| `Reader.RelayLoop.Forward` | hyperfleet-db/pgwatch.go:58-114 | each event keeps its object and object version, carries the largest stamp so far, and is Deleted only without finalizers; the first event that cannot be converted ends the watch |
| `WatchLaws.MarkIsLargest` | hyperfleet-db/pgwatch.go:84-88 | the mark the relay carries is the largest stamp forwarded so far, or the starting one |
| `Reader.ForwardingDrains` | hyperfleet-db/pgwatch.go:90-102 | what the relay forwards acts on a consumer exactly as the protocol assumes |
| `Database.ConsistentStep` | hyperfleet-db/internal/writer/writer.go:454-536 | every begin, upsert, compaction, commit and rollback keeps ids, row locks and stamps consistent |
| `Database.XminMonotone` | hyperfleet-db/internal/reader/watcher.go:384-389 | xmin never decreases |
| `Database.AllFinishedIffBelowXmin` | hyperfleet-db/internal/reader/watcher.go:454-459 | every id up to a version has finished exactly when it lies below xmin |
| `Database.RaiseIsLeastCover` | hyperfleet-db/compaction/compactor.go:40-45 | the raised horizon covers every removed stamp, never falls, and is no higher than the old horizon or a removed stamp |
| `Database.HorizonStep` | hyperfleet-db/compaction/compactor.go:32-46 | one step keeps the horizon over all stamps ever compacted, and a row vanishes only by being recorded as compacted |
| `Database.HorizonNeverLags` | hyperfleet-db/compaction/compactor.go:20-46 | over every run the horizon covers all compacted stamps, never decreases, and is always the stamp of a row that was compacted |
| `Database.WriteUninterrupted` | hyperfleet-db/internal/writer/writer.go:496-535 | begin, upsert and commit with nothing in between add exactly one row version and keep consistency |
| `WriterSession.Writer.ExecWrite` | hyperfleet-db/internal/writer/writer.go:454-536 | suppressed exactly when not forced and the row already holds every column the request carries, changing nothing; otherwise, whatever others do between the check and the id and while it waits for the row, a changing write moves the table as the protocol's steps do and leaves the row carrying the request, and a failed one gives only its id back |
| `WriterSession.Writer.PutRow` | hyperfleet-db/internal/writer/writer.go:508-535 | upsert and commit under an acquired id: the table is that of the protocol steps, or the id is given back |
| `WriterSession.Compactor.Compact` | hyperfleet-db/compaction/compactor.go:23-52 | removes, of the rows seen, exactly those that List hides and that were deleted and last written strictly before the cutoff, and moves the table as the protocol's compaction step and its commit do, horizons included |
| `WriterSession.Compactor.DeleteOld` | hyperfleet-db/compaction/compactor.go:33-39 | deletes exactly the hidden rows deleted and last written before the cutoff, and changes nothing else |
| `WriterSession.Compactor.RaiseHorizon` | hyperfleet-db/compaction/compactor.go:40-45 | each group's horizon becomes the larger of itself and the deleted stamps |
| `History.RecordedStep` | hyperfleet-db/internal/writer/writer.go:224-298 | every step keeps the visible row last in its history, the chain of versions and the ownership of uids |
| `History.RecordedRun` | hyperfleet-db/internal/writer/writer.go:224-375 | these facts hold after every run |
| `History.AtMostOneWinner` | hyperfleet-db/internal/writer/writer.go:275-294 | in every run at most one commit carries a given uid and version, across all three write paths |
| `History.NoGaps` | hyperfleet-db/internal/writer/writer.go:247-294 | in every run each incarnation is numbered 1, 2, 3, … in consecutive commits |
| `History.StaleWriteRejected` | hyperfleet-db/internal/writer/writer.go:315-331 | a write naming a version the row does not have gets a conflict and leaves rows and history unchanged |
| `History.SameUidContiguous` | hyperfleet-db/internal/writer/writer.go:247-261 | two commits of one uid lie as far apart as their versions, with no other uid in between |
| `Deletion.DeletionIsOneWay` | hyperfleet-db/pgclient.go:204-250 | in every interleaving of client calls whose updates carry versions of the uid they write to, a set deletion timestamp of a uid is never cleared |
| `Deletion.UpdateReadWhatItReplaces` | hyperfleet-db/pgclient.go:218-250 | an update whose version is of the current uid and passes the check read the very row it replaces |
| `Deletion.DeletingTwiceIsSuppressed` | hyperfleet-db/pgclient.go:295-337 | deleting the latest version of an object already being deleted keeps the first deletion time and is suppressed |
| `Deletion.CallClearsIff` | hyperfleet-db/pgclient.go:204-250 | of all client writes that pass the version check, exactly an update that read an undeleted row and replaces a deleted one clears a deletion |
| `Undeletion.OnlyStaleUpdatesClear` | hyperfleet-db/pgclient.go:204-250 | in every run of client calls, whatever their callers hold, a deletion is cleared only by an update that holds a version of an earlier uid and had read an undeleted row |
| `Undeletion.UpdateCanClearIff` | hyperfleet-db/pgclient.go:204-250 | after any run of client calls: other client calls can bring an update that has read its row to clear a deletion if and only if it holds version 2 or later and read an undeleted row |
| `Undeletion.ClearingRun` | hyperfleet-db/internal/writer/writer.go:247-261 | the run of client calls that brings this about from any state, through a new incarnation of the key |
| `Undeletion.UpdateAcrossIncarnationsUndeletes` | hyperfleet-db/pgclient.go:204-250 | a run made of client calls only, from the empty table, in which an update holding a version of one uid clears the deletion of another |
| `Framing.EveryCommitFrames` | hyperfleet-db/internal/writer/writer.go:210-375 | in every run each committed row goes back to the request its transaction was given, and when: it holds what that request carries (but for a revival asked to carry a deletion time) and that update time, and what the request does not carry is as in the key's commit before; so no status write changes spec, metadata or deletion, and no object write changes status |
| `Framing.ExplainedStep` | hyperfleet-db/internal/writer/writer.go:224-375 | every step keeps: a pending row is its request applied to the row committed now, and so is every commit to the one before |
| `Framing.SuppressedUnobservable` | hyperfleet-db/internal/writer/writer.go:463-488 | a suppressed write takes no id: take all of them out of any run and it ends in the same table, marks, channel, cache and deliveries, so they cause no event in any later poll |
| `Framing.SuppressedCarries` | hyperfleet-db/internal/writer/writer.go:471-487 | a suppressed write finds the columns it carries equal to the request |
| `Rows.SuccessCarriesRequestIff` | hyperfleet-db/internal/writer/writer.go:217-298 | one upsert: the row carries the request, except a revival asked to carry a deletion time |
| `Rows.EveryVerdict` | hyperfleet-db/internal/writer/writer.go:228-293 | when a write succeeds and how it fails otherwise: a create exactly on a status and a key List does not show, any other write exactly on a version the row has |
| `Rows.SuppressedIff` | hyperfleet-db/internal/writer/writer.go:217-222 | a write is suppressed exactly when it is not forced and the row already carries the request; a full write without status never is |
| `Rows.CompactableIff` | hyperfleet-db/compaction/compactor.go:33-38 | the compactor's filter takes exactly the rows List hides that were deleted and last written strictly before the cutoff, for any metadata |
| `Rows.UpdateFrames` | hyperfleet-db/internal/writer/writer.go:307-375 | one update: it succeeds exactly on the expected version, bumps it by one and touches only the columns it carries |
| `Framing.EveryRowOneTombstone` | hyperfleet-db/internal/reader/list.go:59-60 | for every row of every run: hidden from List iff from the client's read iff from Get iff revived by a create at version 1 with a fresh uid, and compactable at a cutoff iff hidden and both deleted and last written before it |
| `Rows.OneTombstone` | hyperfleet-db/internal/writer/writer.go:247-261 | the same for any row with client metadata |
| `Rows.CreateOverTombstoneNotSuppressed` | hyperfleet-db/internal/writer/writer.go:217-222 | a create by the client over a tombstone is never taken for unchanged |
| `Tombstone.SqlFiltersAgree` | hyperfleet-db/internal/reader/list.go:59-60 | the four SQL filters split all rows alike under three-valued logic, for any metadata |
| `Tombstone.GoAgreesWithSqlIff` | hyperfleet-db/convert.go:67-80 | Go's test agrees with SQL exactly on undeleted rows and on metadata both read alike |
| `Tombstone.JsonNullDisagrees` | hyperfleet-db/convert.go:67-80 | a JSON null is a concrete disagreement |
| `Tombstone.ExtractMetadata` | hyperfleet-db/convert.go:117-126 | encoded metadata reads alike and has finalizers iff the object does |
| `Teardown.PoolTeardownSafe` | hyperfleet-operator/internal/controller/nodepool_controller.go:201-287 | in every run that meets the pools' five assumptions, whenever a pool's finalizer is about to go, the applier has confirmed the removal of its resource, or no desire for it was ever written |
| `Teardown.RenderedTeardownSafe` | hyperfleet-operator/internal/controller/cluster_controller.go:332-411 | in every run in which cluster desires carry distinct seconds, whenever the cluster's finalizer is about to go, the applier has confirmed the removal of everything rendered in that reconcile |
| `Teardown.WrittenTeardownSafe` | hyperfleet-operator/internal/controller/cluster_controller.go:271-440 | if moreover placement lookups succeed and the delete reconcile renders all that was written, the applier has by then confirmed the removal of every cluster resource for which a desire was ever written |
| `Teardown.PoolsSafeStep` | hyperfleet-operator/internal/controller/nodepool_controller.go:66-287 | every step of either controller, users, placement controller and applier keeps the pools' invariant under the pools' assumptions |
| `Teardown.RenderedSafeStep` | hyperfleet-operator/internal/controller/cluster_controller.go:332-390 | every step keeps: what is flipped stays flipped, and what was found confirmed is torn down |
| `Teardown.WrittenSafeStep` | hyperfleet-operator/internal/controller/cluster_controller.go:96-440 | every step keeps: the reconcile deals with all that was written, or nothing is left |
| `TeardownProgress.TeardownCanFinish` | hyperfleet-operator/internal/controller/cluster_controller.go:271-440 | after every run that meets the pools' assumptions, with the cluster being deleted, some continuation within all assumptions ends with the cluster and all its pools gone, wherever the reconciles and the applier were |
| `TeardownLimits.ReadsNeeded` | hyperfleet-operator/internal/controller/nodepool_controller.go:211-214 | a failed list of clusters lets a pool's finalizer go with its resource standing |
| `TeardownLimits.FinalizerNeeded` | hyperfleet-operator/internal/controller/cluster_controller.go:104-120 | so does a cluster deleted before it has its finalizer |
| `TeardownLimits.LatePlacementHarms` | hyperfleet-operator/internal/controller/placement_controller.go:128-140 | so does a placement reference set after the delete reconcile found none |
| `TeardownLimits.LatePoolHarms` | hyperfleet-operator/internal/controller/cluster_controller.go:297-312 | so does a pool created after the delete reconcile listed the pools |
| `TeardownLimits.SameSecondHarms` | hyperfleet-operator/internal/controller/desire_status.go:66-68 | so does a removal written in the same second as the desire before it |
| `TeardownLimits.SameSecondHarmsCluster` | hyperfleet-operator/internal/controller/desire_status.go:66-68 | the same for a cluster document: the rendered set is taken for confirmed while its resource stands |
| `TeardownLimits.PlacementReadsNeeded` | hyperfleet-operator/internal/controller/cluster_controller.go:287-295 | a failed lookup of the placement lets the cluster's finalizer go with its resources standing |
| `TeardownLimits.RenderingNeeded` | hyperfleet-operator/internal/controller/cluster_controller.go:320-330 | a document applied earlier but not rendered by the delete reconcile keeps its resource when the cluster's finalizer goes |
| `TeardownLimits.ReachedByRun` | hyperfleet-operator/internal/controller/cluster_controller.go:271-440 | each of these paths is a legal run that violates no other assumption |
| `Reconcilers.Controllers.ReconcileClusterDelete` | hyperfleet-operator/internal/controller/cluster_controller.go:271-440 | the reconcile is a run of the protocol's steps; it drops the finalizer exactly when there is no placement, or no pool was listed and every removal was upserted and is confirmed, and then the placement (if readable) could be deleted and the update went through |
| `Reconcilers.Controllers.ReconcilePoolDelete` | hyperfleet-operator/internal/controller/nodepool_controller.go:201-287 | likewise for a pool: exactly when no placed cluster is found, or its removal was rendered, upserted and is confirmed, and the update went through |
| `Reconcilers.Controllers.DeletePools` | hyperfleet-operator/internal/controller/cluster_controller.go:297-312 | marks the pools in order up to the first whose deletion fails; one without a finalizer is gone at once |
| `Reconcilers.Controllers.FlipAll` | hyperfleet-operator/internal/controller/cluster_controller.go:332-382 | every document whose upsert succeeds gets its removal, with the time the upsert returns |
| `Reconcilers.Controllers.SweepAll` | hyperfleet-operator/internal/controller/cluster_controller.go:398-408 | removes exactly the rendered desires whose clean-up succeeds |
| `Reconcilers.Controllers.CleanupAndRemoveFinalizer` | hyperfleet-operator/internal/controller/cluster_controller.go:413-440 | drops the finalizer unless the placement's deletion or the update fails; the placement goes unless it cannot be read or deleted |
| `DesireStore.PassingMeansTornDown` | hyperfleet-operator/internal/controller/desire_status.go:55-84 | a status that passes the check for the latest removal was reported for that removal |
| `DesireStore.CheckSinglesOutIff` | hyperfleet-operator/internal/controller/desire_status.go:66-68 | the staleness check accepts only the latest desire's status exactly when all others carry earlier seconds |
| `DesireStatus.Check` | hyperfleet-operator/internal/controller/desire_status.go:30-112 | synced iff every status is found, successful and not older than its desire; failed iff some read failed or some such status is unsuccessful; missing and stale statuses only wait; with the exact count and the names that failed |
| `Desires.CacheIsTransparent` | hyperfleet-operator/internal/dynamo/client.go:132-189 | over every run of upserts and deletes, failed requests included, the cache agrees with the table, the table is the one a client without cache leaves, and the answers are the same one by one except exactly where the cache spares a read that would have failed |
| `Desires.SameAnswersWhenReadsSucceed` | hyperfleet-operator/internal/dynamo/client.go:132-189 | when every read succeeds, cached and cache-free client give the same sequence of answers |
| `Desires.CachedUpsertRefinesDirect` | hyperfleet-operator/internal/dynamo/client.go:132-189 | a cached upsert leaves the table of the cache-free one and gives its answer if and only if the read succeeds or the cache is not hit; on a hit it gives the stored time |
| `Desires.AgreesStep` | hyperfleet-operator/internal/dynamo/client.go:104-117 | every upsert, delete or restart, failed requests included, keeps cache and table in agreement |
| `Desires.StoredTimeRoundTripsIff` | hyperfleet-operator/internal/dynamo/client.go:179-187 | a stored time reads back unchanged exactly when truncated to the second |
| `Desires.CacheKeyInjective` | hyperfleet-operator/internal/dynamo/client.go:128-130 | documents without a slash have distinct cache keys |
| `Desires.UpsertTakesEffect` | hyperfleet-operator/internal/dynamo/client.go:132-189 | an upsert that answers has its spec in the table with the time it returns and touches nothing else; it writes, at the current second, exactly when the table held no item or another spec; it fails only if a request does |
| `Desires.Client.UpsertDesire` | hyperfleet-operator/internal/dynamo/client.go:132-189 | the same of the code, cache included |
| `Desires.Client.DeleteDesireSpec` | hyperfleet-operator/internal/dynamo/client.go:104-117 | a successful delete removes exactly the item, and the cache entry; a failed one nothing |
| `RateLimit.WindowBound` | platform-api/pkg/ratelimit/local.go:65-96 | calls allowed for a key in any interval of length L number at most burst + floor(L / T) with T = period / rate, whatever other keys do |
| `RateLimit.SpacedNeverDenied` | platform-api/pkg/ratelimit/local.go:65-96 | a key with a burst of at least one whose calls come at least period / rate apart is never denied, whatever other keys do |
| `RateLimit.AllowedCallCosts` | platform-api/pkg/ratelimit/local.go:70-78 | an allowed call moves the key's arrival time by t with rate * t <= period < rate * (t + 1) |
| `RateLimit.QuotientTruncates` | platform-api/pkg/ratelimit/local.go:70-98 | the division is Go's: what is left over is smaller than the divisor and has the sign of the dividend |
| `RateLimit.FreshKeyAllowsBurst` | platform-api/pkg/ratelimit/local.go:71-96 | a fresh key allows exactly burst calls at one instant |
| `RateLimit.CleanupUnobservable` | platform-api/pkg/ratelimit/local.go:117-123 | every answer equals that of a limiter that never forgets |
| `RateLimit.RemainingIsExact` | platform-api/pkg/ratelimit/local.go:98-101 | of further calls at the same instant exactly the first `Remaining` are allowed |
| `RateLimit.RetryAfterIsExact` | platform-api/pkg/ratelimit/local.go:81-94 | a denial changes nothing, and the key is next allowed exactly after `RetryAfter` if the burst is at least one, otherwise never |
| `RateLimit.ResetAfterIsExact` | platform-api/pkg/ratelimit/local.go:83-114 | the key answers like a fresh one after `ResetAfter` and not before; from then on under any limit |
| `RateLimit.LocalLimiter.Allow` | platform-api/pkg/ratelimit/local.go:65-115 | answer and entries are those of the specified step; a zero rate panics, a period of at least a positive rate never does; a retry time is positive exactly on denial |
| `RateLimit.LocalLimiter.Cleanup` | platform-api/pkg/ratelimit/local.go:117-123 | keeps exactly the entries whose time has not passed |
| `Shard.Validate` | hyperfleet-db/internal/reader/shard.go:14-32 | accepts exactly the valid specs and names an offending value |
| `Shard.ListAndPollAgree` | hyperfleet-db/internal/reader/shard.go:34-55 | the clause, numbered for either query, evaluates to the same ownership test |
| `Shard.ResidueIsRemainder` | hyperfleet-db/internal/reader/shard.go:34-39 | the tested residue is the remainder that the hash's absolute value leaves |
| `Shard.OrdinalsPartition` | hyperfleet-operator/cmd/manager/main.go:126-132 | one residue per replica is a partition |
| `Shard.ShardsPartitionTheView` | hyperfleet-db/internal/reader/shard.go:34-39 | at one snapshot the shards' views are disjoint and together the unsharded view |
| `Shard.NoObjectChangesShard` | hyperfleet-db/internal/reader/shard.go:34-39 | replicas holding one key at any two times are the same replica |
| `ResourceVersion.RoundTripIff` | hyperfleet-db/internal/resourceversion/rv.go:17-58 | for all 64-bit values, parsing undoes printing exactly for non-negative object versions; the printed forms are digits, or `o`, digits, `;`, digits |
| `ResourceVersion.ParseAcceptsIff` | hyperfleet-db/internal/resourceversion/rv.go:24-58 | exactly the empty string, a 64-bit watermark, and an object version followed by one parse; all else is refused |
| `ResourceVersion.WriteRecoversVersion` | hyperfleet-db/convert.go:128-143 | a write recovers the object version from the plain and the composite form |
| `ResourceVersion.CollectionVersionReadsAsObjects` | hyperfleet-db/convert.go:128-143 | a collection version is accepted as an object version when it fits |
| `Debounce.EveryScheduleOnTime` | hyperfleet-db/internal/reader/watcher.go:136-215 | every schedule keeps the deadline at last poll plus floor (pending) or baseline, and polls spaced between the two |
| `Debounce.DoorbellServed` | hyperfleet-db/internal/reader/watcher.go:144-180 | a doorbell at d is served by max(d, last poll + floor), whatever doorbells follow |
| `Debounce.SpacingIff` | hyperfleet-db/internal/reader/watcher.go:68-74 | all schedules are spaced exactly when the floor does not exceed the baseline |
| `Debounce.RunLoop.OnDoorbell` | hyperfleet-db/internal/reader/watcher.go:144-180 | polls at once iff the floor has passed, otherwise arms the timer for the rest |
| `Debounce.RunLoop.OnTimer` | hyperfleet-db/internal/reader/watcher.go:182-213 | polls and re-arms the baseline |

## Left out

- The stored procedure and the migrations: the multi-statement path is the meaning of a write. The procedure compares a nil status differently and takes its id before the suppression check.
- WriterSession.Writer.ExecWrite: what other transactions do meanwhile is a parameter; a wait for the row that never ends, or that the database breaks off, is not modelled.
- WriterSession.Compactor.Compact: starts where the statement holds its id and the locks of the rows it removes; the waiting appears only as interleaved steps in `Database`.
- Deletion.DeletionIsOneWay: leaves out updates that carry a version of an earlier uid, because for them the promise is false; `Undeletion.OnlyStaleUpdatesClear` covers all client runs and `Undeletion.UpdateCanClearIff` says exactly when.
- A create that fails its INSERT and then misses the row because a compaction commits in between gets "already exists"; the model runs both statements on one table state.
- Columns that are NOT NULL but sent as nil, other than status on a create.
- JSON values are opaque with an equality; number rounding in the comparison, Go's case-insensitive field names, and reflection are not modelled. Only the finalizers field has structure.
- Overflow of 64-bit transaction ids, object versions and durations.
- How selectors and continue tokens become list clauses and offsets; Get, DeleteAllOf, Patch and the generation counter.
- LISTEN/NOTIFY, reconnects, metrics, tracing, hooks and the verifier; a poll or relay cut off by cancellation, which ends the watch.
- Read-back after an ambiguous commit; a commit either happens or does not.
- The informer beyond a map that a listing replaces and Added, Modified and Deleted events update.
- Debounce.EveryScheduleOnTime: polls take no time and the loop reacts at once.
- Watch.WatchComplete: the events of one poll enter the channel together, and a full channel, which only delays the poller, is not modelled.
- Desires.CacheIsTransparent: reads are consistent, hashes do not collide, a failed request has no effect, and one caller at a time uses a document; `ResetCache` is a process restart.
- Teardown.WrittenTeardownSafe: one cluster and one management cluster; a placement counts from when it is bound; it is deleted only by the cluster controller; an upsert is one atomic step; the read desire, phases and conditions are not modelled; status reads see the latest status.
- The controllers' apply path as methods: it exists as steps of `Teardown`; only the delete reconciles are also written as methods, because only they take decisions the theorem is about.
- TeardownProgress.TeardownCanFinish: a teardown can always be finished; that it eventually is, or that an event is eventually delivered, would need fairness of the schedulers and the applier, which the program does not state.
- Rendered resource contents, DynamoDB itself, secrets, HTTP handlers, authorization, generated code and the Redis limiter: foreign services, request plumbing and a wrapper around a library.
