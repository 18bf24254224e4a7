# Verified model of the discovery service

The discovery service keeps, for each Talos cluster, the affiliates that announced themselves: opaque data
and a bounded list of endpoints, all with expiry times. Clients list a cluster or watch it: a watcher gets a
snapshot and then a stream of events, and must be able to rebuild the cluster from them. This project models
that registry, its watch protocol, the RPC handlers, its snapshot file and the web front end's watch manager,
and proves what they promise over whole runs.

Time is an integer number of nanoseconds passed into each operation. Go maps are iterated in an arbitrary
order: a method that iterates one is verified for every order, and a specification that depends on the order
is a predicate over the possible results. Ids, data and endpoints are byte sequences; nil and empty are the same.

## Layers

- `Affiliates`, `Registry`, `Validation`: values and what each operation computes on them, error paths included.
  `Affiliates` also holds the affiliate as an object that is updated in place.
- `Clusters`, `State`, `Server`: the subscriptions, clusters, registry, handlers and watch streams as objects
  updated in place. Each method is proved against the value operation it carries out.
- `MergeLaws`, `UpdateLaws`, `PruneLaws`, `FanOut`, `ExpiryLaws`: what the value operations mean.
- `WatchRuns`, `WatchViews`, `PerAffiliate`: all runs of one cluster, one operation at a time.
- `Interleaving`, `Convergence`, `LastWord`, `Overlap`: all schedules with commit, copy of the subscribers, delivery,
  subscription, read and close as separate steps.
- `Lifecycle`, `LifecycleLaws`, `ClosedSends`: all schedules of the lock operations, checks, sends and closes themselves.
- `Discovery`, `Flat`, `Retention`: all runs of the whole service, restarts from its snapshot file included, with each
  request getting its cluster and using it in one step; `Handles`, `Acknowledged`: with these as two steps.
- `Snapshots`, `AtomicWrite`: the snapshot message, and the crash steps of writing its file.
- `WebHub`, `HubRuns`, `WatchManager`, `ManagerRuns`, `Backoff`: the web front end's hub, manager and retry delay.

## What the model shows about the code

- A watcher sees the server's table at some commit after every run without a visibly failing update, and no
  schedule of the finer steps makes it miss or repeat an event.
- An update that fails with too many endpoints leaves its new data and the endpoints merged so far in place but
  announces nothing. `UpdateKeepsAgreement` states exactly which failures a watcher can notice, and `EveryRunSees`
  that one of them can only spoil the copy of the affiliate it names, and only until that is announced again.
- Notification happens after the affiliates lock is released, so two overlapping commits about one affiliate can be
  delivered in the wrong order. `LastWordDecides` states exactly when a watcher ends up right, in every schedule;
  `OverlapMayDiverge` gives a schedule for any two commits and `DeleteOverlapDiverges` what an overlapping delete
  does; `WatcherConverges` shows that without such overlaps the watcher always ends up right.
- `Subscription.notify` checks the closed flag, sends the event and, when the channel is full, sends an error. A close
  between two of these makes the later send hit a closed channel, which crashes the process; `CrashesExactly` states
  exactly which schedules do, and `EventSendCrashes` and `ErrorSendCrashes` give one of each kind.
- `ClusterFor` or `GetCluster` and the operation that follows are not one step, and getting an existing cluster renews
  nothing. A cleanup between the two that drops an expired cluster leaves a new watcher on an object nobody updates,
  or an update acknowledged that nobody is shown. `NoOrphanIffAttached` and `UpdateShownIff` state exactly when this
  happens; `NoOrphanWhenAtomic` and `RunsAtOnceAreFlat` that making the two one step would be enough.
- An evicted watcher is told about the lost update only if the stream's select takes the error before the end of
  the event channel; otherwise the stream ends without an error after sending what was buffered (`Drain`).
- `api/cluster.proto:33` promises a first message even for an empty snapshot; the code sends none
  (`internal/server/cluster_server.go:148`). The model follows the code.
- The sync of the directory after a snapshot was renamed may fail unnoticed. A crash in a later save may then bring back
  content older than what readers had found; `OldOrNewExactly` states exactly when it cannot.
- The deferred removal of the temporary snapshot file is harmless because the temporary name is never the
  target's: `CleanupRemovesIff` and `BeginExposesIff` state that this proviso is needed.
- The watch manager does not check the channel it is given; `LeavingKeepsCountsIff` states exactly which calls
  keep its reference counts right. The web handler only makes such calls.

## Model

| member | source | states |
|---|---|---|
| Affiliates.Affiliate.FindEndpointIndex | internal/state/affiliate.go:57-64 | finds the first endpoint with these bytes, or reports -1 exactly when there is none |
| Affiliates.Affiliate.MergeEndpoints | internal/state/affiliate.go:69-100 | the loop over the request computes the merge specification on the whole record: endpoints, the changed flag, the error, and the affiliate's own expiry, which only a success raises |
| Affiliates.Affiliate.ToInfo | internal/state/affiliate.go:41-55 | what is shown of an affiliate: id, data and its endpoints in order, no expiries |
| MergeLaws.MergeExact | internal/state/affiliate.go:66-100 | a merge succeeds if and only if the union of old and requested endpoints has at most 64 elements; then the result is that union without duplicates, old order first, requested expiries raised to the maximum, others untouched, changed exactly if something was new |
| MergeLaws.MergeStopsAtFirstOverflow | internal/state/affiliate.go:82-85 | a failing merge has merged exactly the requests before the first one that would be the 65th endpoint, and leaves 64 |
| MergeLaws.MergeJoinsAccepted | internal/state/affiliate.go:69-100 | whether or not it fails, a merge joins exactly the requested endpoints up to which everything still fits: each new one with the request's expiry, each old one raised to it |
| MergeLaws.MergeCommutes | internal/state/affiliate.go:69-100 | merging A then B and B then A give every endpoint the same expiry when the union fits |
| MergeLaws.MergeConcat | internal/state/affiliate.go:72-92 | merging a concatenation is merging its halves in turn, including endpoint order and the changed report |
| MergeLaws.MergeIdempotent | internal/state/affiliate.go:73-80 | a merge that names only endpoints which already last as long changes nothing and reports no change |
| MergeLaws.MergeTwice | internal/state/affiliate.go:66-80 | repeating a successful merge changes nothing and reports no change |
| UpdateLaws.OutcomeOf | internal/state/cluster.go:70-106 | which of success, too many affiliates, too many endpoints and silence an update has is decided by the sizes of the table and of one union |
| UpdateLaws.RecordExactly | internal/state/cluster.go:70-98 | what an update leaves of its affiliate, failing or not: the id, new data or the old, the expiry time plus TTL if it carries data, or if everything fits and that is later, and otherwise the old expiry; and the endpoints that fit |
| UpdateLaws.TableExactly | internal/state/cluster.go:70-82 | a new affiliate starts empty at the year 1 and is refused, changing nothing, only as the 1025th; no other affiliate changes |
| UpdateLaws.EventExactly | internal/state/cluster.go:84-105 | an update announces its affiliate as it then stands, unless it fails, or carries no data and only endpoints that were there |
| UpdateLaws.UpdateKeepsValid | internal/state/limits.go:12-13 | after any update there are at most 1024 affiliates, each under its own id, each with at most 64 distinct endpoints |
| UpdateLaws.UpdateKeepsAgreement | internal/state/cluster.go:84-105 | a client's correct copy stays correct if and only if the update was refused, fits, or fails on a full affiliate without replacing its data |
| UpdateLaws.DeleteKeepsAgreement | internal/state/cluster.go:121-134 | the tombstone of a delete removes exactly the deleted affiliate from a correct copy |
| UpdateLaws.OverflowBreaksAgreement | internal/state/cluster.go:91-94 | concretely: a new affiliate with 65 endpoints is stored with 64 and never announced |
| PruneLaws.LiveExact | internal/state/cluster.go:178-186 | exactly the endpoints that outlive now survive a prune, untouched and in order |
| PruneLaws.TableExactly | internal/state/cluster.go:160-198 | exactly the affiliates that outlive now survive a prune, each with its id, data and expiry, and exactly its endpoints that do, untouched and in order |
| PruneLaws.PrunePrune | internal/state/cluster.go:160-198 | pruning at t1 and then at a later t2 is pruning at t2 |
| PruneLaws.PruneAgainSilent | internal/state/cluster.go:160-198 | a second prune at the same time changes and announces nothing |
| PruneLaws.PruneAnnounces | internal/state/cluster.go:168-195 | a prune announces an affiliate exactly when it changes what a client can see of it |
| PruneLaws.PruneKeepsValid | internal/state/cluster.go:160-198 | pruning keeps the limits, the keys and distinct endpoints |
| PruneLaws.BatchesAgree | internal/state/cluster.go:167-196 | every iteration order emits the same set of events |
| PruneLaws.BatchOrderIrrelevant | internal/state/cluster.go:153-158 | a client that replays the events of one prune in any order ends with the same copy |
| PruneLaws.PruneKeepsAgreement | internal/state/cluster.go:153-198 | a client with a correct copy has a correct copy after replaying a prune's events |
| ExpiryLaws.ExpiryClosedForm | internal/state/cluster.go:70-98 | from any table without the affiliate, through any updates that succeed or fail, prunes and deletes that leave it alive: its stored expiry is the greatest of time plus TTL over its last update that put data in place and the later ones all of whose endpoints fit; over all of these if none carried data |
| ExpiryLaws.DataClosedForm | internal/state/cluster.go:84-89 | over the same histories: its stored data is that of the last update that put data in place, and empty if none did |
| ExpiryLaws.EndpointClosedForm | internal/state/affiliate.go:73-92 | over the same histories, endpoints lost to prunes and added again included: each stored endpoint's expiry is the greatest over the updates that merged it since it was last added, and one that is not stored was not merged since |
| FanOut.NotifyEachSubs | internal/state/cluster_subscribe.go:124-136 | a burst of events is buffered for each open subscription up to 64 unread and evicts it at the first that does not fit, independently of all other subscriptions |
| FanOut.NotifyEachExpiry | internal/state/cluster_subscribe.go:81-94 | a fan-out prolongs the cluster exactly when it evicts somebody |
| FanOut.DeleteExactly | internal/state/cluster.go:108-134 | a delete removes the affiliate, gives the cluster 30 more minutes and sends each open subscription the tombstone, last; of an unknown affiliate it changes nothing |
| Clusters.Subscription.Close | internal/state/cluster_subscribe.go:41-48 | closes both channels and removes the subscription from its cluster once, prolonging the cluster only the first time |
| Clusters.Subscription.Notify | internal/state/cluster_subscribe.go:50-69 | buffers, skips or evicts; an eviction leaves exactly one lost-update error and removes exactly this subscriber, and without one the error channel is untouched |
| Clusters.Subscription.Receive | internal/state/cluster_subscribe.go:38-39 | takes the oldest unread event |
| Clusters.Subscription.ReceiveError | internal/state/cluster_subscribe.go:38-39 | takes the queued error, if there is one |
| Clusters.Cluster.constructor | internal/state/cluster.go:25-33 | a new cluster is empty and lasts 30 minutes |
| Clusters.Cluster.IsExpired | internal/state/cluster.go:39-41 | true exactly after the expiry instant |
| Clusters.Cluster.IsEmpty | internal/state/cluster.go:43-53 | true exactly when there is no affiliate and no open subscription |
| Clusters.Cluster.UpdateAffiliate | internal/state/cluster.go:55-106 | the whole new cluster and the returned error, for every outcome, with the event fanned out when there is one |
| Clusters.Cluster.DeleteAffiliate | internal/state/cluster.go:108-134 | removes the affiliate, prolongs the cluster and announces a tombstone; an unknown id changes nothing |
| Clusters.Cluster.ListAffiliates | internal/state/cluster.go:136-151 | lists every affiliate once, in any order |
| Clusters.Cluster.Prune | internal/state/cluster.go:153-198 | for every iteration order: the expired affiliates and endpoints go, and each change is announced once |
| Clusters.Cluster.Notify | internal/state/cluster_subscribe.go:124-136 | notifying a copy of the subscribers in any order is the fan-out specification |
| Clusters.Cluster.SubscribeWithSnapshot | internal/state/cluster_subscribe.go:72-122 | returns a full listing and registers a new subscription, open and empty, under an id never used before |
| Registry.ListingMirror | internal/state/cluster.go:145-151 | a client that stores a listing, in any order, has exactly the server's table |
| WatchRuns.EveryRunGapFree | internal/state/cluster_subscribe.go:96-136 | in every run of a new or restored cluster, what a watcher was sent plus what is buffered for it is a prefix of the event log since it subscribed, and all of it while it is open |
| WatchRuns.BornOpen | internal/state/cluster_subscribe.go:96-122 | in every run a new watcher is open, has the table of that moment, and nothing buffered or sent |
| WatchRuns.ClosedExactly | internal/state/cluster_subscribe.go:50-69 | in every run a step closes an open watcher if and only if it closes that watcher itself or commits events that leave it more than 64 behind, exactly then an update is recorded as lost, and the events that fit are buffered in order |
| WatchRuns.ClosedIff | internal/state/cluster_subscribe.go:41-69 | at the end of every run a watcher is closed if and only if some step was its own close or left it more than 64 events behind, and it lost an update if and only if one of the latter found it open |
| WatchViews.EveryRunConsistent | internal/state/cluster_subscribe.go:96-136 | in every run of a new or restored cluster without a visibly failing update, replaying the log from a subscription to any commit gives the table of that commit; each event of a prune counts as a commit |
| WatchViews.ClientFollowsServer | internal/server/cluster_server.go:147-200 | every client sees the server's table at the commit its messages reach, and the current one when it is open with nothing unread |
| WatchViews.VisibleFailureDiverges | internal/state/cluster.go:91-94 | a visibly failing update announces nothing and leaves every correct copy wrong |
| PerAffiliate.EveryRunSees | internal/state/cluster.go:84-106 | in every run, visible failures included: what a client has of an affiliate at any commit is what the table had, unless an update of this affiliate failed visibly after the client subscribed and no event about it followed up to that commit |
| PerAffiliate.ClientSees | internal/server/cluster_server.go:147-200 | so for what a client was sent, which is the log from its subscription up to such a commit |
| Interleaving.EveryScheduleComplete | internal/state/cluster_subscribe.go:96-136 | from any table, in every interleaving of commits, copies, deliveries, subscriptions, reads and closes, an open watcher has or will be offered every event committed after it registered, and gets none twice |
| Interleaving.ScheduleClosesExactly | internal/state/cluster_subscribe.go:50-69 | in every schedule an open watcher never has more than 64 unread events; a step closes it if and only if it is its own close or an offer when 64 are unread, and any other offer is put in its channel last |
| Convergence.WatcherConverges | internal/state/cluster.go:55-106 | from any valid table: if no update fails visibly and no commit announces an affiliate still being announced, an open watcher with nothing pending has the server's table |
| Convergence.QuiescentAgreement | internal/state/cluster_subscribe.go:124-136 | under the same condition every open watcher agrees with the server whenever no operation is notifying |
| LastWord.LastWordDecides | internal/state/cluster.go:55-106 | in every schedule in which no update of the affiliate fails visibly, overlapping commits and prunes included: an open watcher with nothing pending has the table's value of it if and only if the last event it was offered about it shows the same as the last one committed |
| LastWord.SettledAgreesIff | internal/state/cluster_subscribe.go:124-136 | so its whole copy is the server's table if and only if that holds for every affiliate |
| Overlap.OverlapMayDiverge | internal/state/cluster.go:56-65 | two overlapping commits about one affiliate, updates, deletes or one-event prunes in any combination, have a schedule that delivers them swapped; the watcher then agrees if and only if their events are interchangeable |
| Overlap.DeleteOverlapDiverges | internal/state/cluster.go:108-118 | a delete overlapping an update can leave a watcher with an affiliate the server has deleted, and an update overlapping a delete without one the server has |
| Overlap.TombstonesDiverge | internal/state/cluster.go:100-134 | an update and a delete of one affiliate are never interchangeable, in either order |
| Overlap.TwoDataUpdatesDiverge | internal/state/cluster.go:56-65 | a concrete schedule after which a watcher with nothing pending has the older data |
| LifecycleLaws.ClosedOnce | internal/state/cluster_subscribe.go:41-94 | in every interleaving each channel is closed at most once and only under the closed flag, a finished close is absent from the subscriber map, and an open registered subscription is in it |
| LifecycleLaws.RegisteredOnce | internal/state/cluster_subscribe.go:73-112 | an id is put into the subscriber map once |
| LifecycleLaws.NothingReopens | internal/state/cluster_subscribe.go:41-94 | no step undoes a registration, a closed flag or a finished close, or lists a removed subscription again |
| LifecycleLaws.NeverStuck | internal/state/cluster.go:43-67 | no reachable state deadlocks, even with notify re-entering Close: while an operation is unfinished and the process has not crashed, some operation can take its next step |
| LifecycleLaws.OperationsComplete | internal/state/cluster_subscribe.go:41-136 | once no new operation starts every schedule is finite, with an explicit bound, so all operations finish |
| ClosedSends.CrashesExactly | internal/state/cluster_subscribe.go:50-68 | a schedule has crashed the process if and only if its last step is a send, on the event or the error channel, on a channel another thread closed since the sender's step before |
| ClosedSends.NextStepIsSafe | internal/state/cluster_subscribe.go:50-68 | a check and a send, or two sends, with no other step between them never crash |
| ClosedSends.EventSendCrashes | internal/state/cluster_subscribe.go:55-60 | a concrete schedule of three threads with a close between the check and the send of the event |
| ClosedSends.ErrorSendCrashes | internal/state/cluster_subscribe.go:62-66 | and one with the close between a full event channel and the send of the error |
| Validation.CheckEndpoints | internal/server/validation.go:52-59 | rejects exactly when some endpoint is over 32 bytes |
| Validation.UpdateExactly | internal/server/validation.go:25-73 | in numbers: an update is accepted if and only if both ids have at most 256 bytes and are not only white space, the data has at most 2048, each endpoint at most 32, and there is a TTL of at most 30 minutes; each rejection is for the first of these that fails |
| Validation.BlankExactly | internal/server/validation.go:25-43 | trimming leaves nothing of an id if and only if it is the UTF-8 encoding of white-space characters |
| Discovery.EveryRunValid | internal/server/validation.go:25-73 | in every run of the service, across restarts from its snapshot file, all counts, byte sizes, keys and buffers stay within their limits |
| Discovery.EveryRunInLimits | internal/state/limits.go:6-13 | the same limits as numbers: 256 bytes for ids, 1024 affiliates, 2048 bytes of data, 64 distinct endpoints of 32 bytes, 64 events waiting for a watcher |
| Flat.RunRefines | internal/state/state.go:24-67 | with each request getting its cluster and using it in one step, every run, across restarts, is a run of one flat table; creating, collecting and watching clusters are stutter steps and a cleanup is exactly the expiry filter |
| Flat.ListIsFlat | internal/server/cluster_server.go:107-127 | after any such run List answers from the flat table, so clusters coming and going cannot be observed |
| Flat.OutcomeIsFlat | internal/server/cluster_server.go:75-89 | so does the outcome of an update in such a run |
| Retention.BoundedRetention | internal/state/state.go:57-67 | an unwatched cluster that nothing touched since some time, a restart included, is gone after any cleanup more than 30 minutes later |
| Retention.ExpiryIsRenewal | internal/state/cluster.go:31-37 | in every run, across restarts, a cluster's expiry is 30 minutes after its last creation, load, watcher close or effective delete |
| Retention.RemovedExactly | internal/state/state.go:59-66 | a cleanup removes a cluster if and only if all its affiliates have expired, nobody watches it and its last renewal is more than 30 minutes ago |
| Retention.RemovedBy | internal/state/state.go:57-67 | in every run a step removes a cluster if and only if it is a cleanup under these conditions, or a restart from a file that lacks the cluster |
| Handles.NoOrphanIffAttached | internal/state/state.go:45-67 | in every run of a new or loaded registry an open watcher is registered in the object the map holds for its cluster if and only if it was when it registered |
| Handles.NoOrphanWhenAtomic | internal/state/state.go:45-67 | when every ClusterFor and its subscription are one step, in every run each open watcher is registered in the object the map holds, and the next request for that cluster gets that object |
| Handles.UpdateReachesWatcher | internal/server/cluster_server.go:75-80 | in such a run the events of a later update of the cluster are delivered to each open watcher's subscription, or evict it |
| Handles.CleanupBetweenOrphans | internal/state/state.go:57-67 | a cleanup between getting an existing, expired cluster and subscribing to it, all at one instant, leaves a watcher on an object the map no longer holds |
| Acknowledged.UpdateShownIff | internal/server/cluster_server.go:75-80 | an update through a handle changes what other requests find if and only if the map still holds the handle's object; otherwise it changes nothing they find |
| Acknowledged.RemoveShownIff | internal/server/cluster_server.go:99-103 | the same for a delete |
| Acknowledged.CleanupBetweenLosesUpdate | internal/state/state.go:57-67 | a cleanup between getting an existing, expired cluster and updating it, all at one instant: the update succeeds and the cluster is not found |
| Acknowledged.DroppedForGood | internal/state/state.go:45-67 | an object the map has dropped never comes back |
| Acknowledged.RunsAtOnceAreFlat | internal/state/state.go:45-67 | when every handle is used in the step after it was got, every run of cluster objects, cleaned up one at a time between requests, is a run of one flat table |
| State.State.ClusterFor | internal/state/state.go:45-51 | loads the cluster or creates it, leaving all others as they were |
| State.State.GetCluster | internal/state/state.go:53-55 | finds exactly the clusters there are |
| State.State.Cleanup | internal/state/state.go:57-67 | for every iteration order: every cluster is pruned, and exactly those then expired and empty are dropped |
| Server.AffiliateUpdate | internal/server/cluster_server.go:59-90 | an update is rejected if and only if it is not acceptable, with the first failing check and changing nothing; otherwise it is applied and its error mapped |
| Server.AnswersExactly | internal/server/cluster_server.go:75-89 | an accepted update is answered with too many affiliates if it would be the 1025th of its cluster, with too many endpoints if its affiliate would have more than 64, and with success otherwise |
| Server.UpdateStores | internal/server/cluster_server.go:75-80 | what an accepted update leaves in the service: its cluster exists, no other cluster or affiliate changes, and its affiliate has the data, expiry and endpoints described above |
| Server.AffiliateDelete | internal/server/cluster_server.go:92-105 | deletes from an existing cluster and never creates one; rejected if and only if an id is not legal, changing nothing |
| Server.List | internal/server/cluster_server.go:107-127 | lists exactly the cluster's affiliates, none for an unknown cluster |
| Server.StartWatch | internal/server/cluster_server.go:130-162 | subscribes and sends the snapshot unless it is empty; the subscription is open, empty and registered in the cluster the registry holds |
| Server.SnapshotMessagesExactly | internal/server/cluster_server.go:147-162 | no message for an empty snapshot; any other is one message with every affiliate as it is, in order |
| Server.StreamRebuilds | internal/server/cluster_server.go:147-199 | a client that stores and forgets what the messages say has what replaying the events on the snapshot gives |
| Server.MessagesFollowServer | internal/server/cluster_server.go:147-200 | in every run of a new or restored cluster without a visibly failing update, the messages sent, beginning with a listing in any order, rebuild the server's table at the commit they reach |
| Server.WatchStream.Iterate | internal/server/cluster_server.go:165-201 | one select round, for every ready case, and how it ends the stream |
| Server.WatchStream.Drain | internal/server/cluster_server.go:165-201 | after the subscription is closed the loop ends within buffered events plus one rounds for every choice of the select, having sent a prefix of what was buffered |
| Snapshots.SaveSnapshot | internal/state/snapshot.go:20-47 | for every iteration order the message holds every cluster and affiliate once |
| Snapshots.SavedExactly | internal/state/snapshot.go:23-47 | such a message has one entry for each cluster and affiliate, with every field: data, endpoints in order, and expiries as seconds and nanoseconds |
| Snapshots.LoadSnapshot | internal/state/snapshot.go:58-104 | builds the registry the message describes, or an empty one without a file; clusters get a new expiry and no subscribers |
| Snapshots.LoadedExactly | internal/state/snapshot.go:75-104 | any message, whoever wrote it: each cluster id gets a cluster with 30 minutes and no watchers, with an affiliate for each id of its last entry, as that affiliate's last entry says; a missing expiry is the year 1 |
| Snapshots.SnapshotRoundTrip | internal/state/snapshot.go:23-104 | loading what was saved in any order restores every id, data, expiry and ordered endpoint list |
| Snapshots.EveryRunRoundTrips | internal/state/snapshot.go:23-104 | for every registry a run can reach, across restarts and expired entries included, loading what was saved is the restart of the service that saved it |
| Snapshots.RoundTripCommutesWithPrune | internal/state/snapshot.go:23-104 | pruning before saving and pruning after loading leave the same registry |
| AtomicWrite.CrashAtomic | internal/state/snapshot.go:107-150 | after any steps, errors and crashes the target holds what it held when the directory was last on disk, or all the bytes of a write renamed over it since |
| AtomicWrite.SaveAddsOnly | internal/state/snapshot.go:107-150 | after any history, failed writes and crashes included, saving some bytes adds only exactly these bytes to what a crash may find in the target |
| AtomicWrite.OldOrNewExactly | internal/state/snapshot.go:107-150 | every crash in the next save leaves what readers found or all the new bytes, if and only if every directory state a crash may bring back shows the target as it is |
| AtomicWrite.SettledShows | internal/state/snapshot.go:141-147 | which holds when nothing was renamed over the target since the directory was on disk |
| AtomicWrite.UnsyncedRename | internal/state/snapshot.go:141-147 | and fails after a save that renames its file but cannot sync the directory, an error the code ignores |
| AtomicWrite.RenameInstalls | internal/state/snapshot.go:137-139 | a successful rename installs all the new bytes |
| AtomicWrite.SettledIsNew | internal/state/snapshot.go:141-147 | once the directory is synced a crash can only find the new bytes |
| AtomicWrite.CleanupSparesTarget | internal/state/snapshot.go:116-119 | the deferred cleanup never changes what the target holds, on success or failure |
| AtomicWrite.NothingLeftBehind | internal/state/snapshot.go:107-150 | writes that ran to their deferred cleanup, whatever failed in them, leave every name but the target's and every file there was as they were |
| AtomicWrite.FailureEndsWrite | internal/state/snapshot.go:121-139 | after a failing step only the cleanup is left, and readers of the target find what they found before |
| WebHub.Hub.Subscribe | internal/web/discovery_hub.go:24-30 | adds a new, empty channel; a joining step of the hub's runs |
| WebHub.Hub.Unsubscribe | internal/web/discovery_hub.go:32-36 | removes exactly this channel; a leaving step |
| WebHub.Hub.Send | internal/web/discovery_hub.go:46-52 | one client gets the event last if it has fewer than 64 unread, and otherwise keeps its queue and is counted as one drop; a sending step |
| WebHub.Hub.Broadcast | internal/web/discovery_hub.go:38-53 | for every iteration order every client with fewer than 64 unread gets the event last, every other keeps its queue as it was and is counted as one drop; the deliveries are a whole broadcast of the hub's runs |
| WebHub.Hub.Took | internal/web/discovery_endpoints.go:82-84 | a client's read of its channel is a reading step |
| WebHub.ObjectKeepsOrder | internal/web/discovery_hub.go:24-53 | so for a hub object that went through a run: at most 64 unread, and what a client read and has unread is an order-preserving part of the broadcasts made while it was subscribed, short by its drops and all of them if there were none |
| HubRuns.Conservation | internal/web/discovery_hub.go:38-53 | over any run, with other steps between deliveries, deliveries plus drops plus those still owed are the sum of client counts at each broadcast |
| HubRuns.OrderKept | internal/web/discovery_hub.go:24-53 | each queue stays within 64, and what a client got is an order-preserving part of the broadcasts made while it was subscribed, short by exactly its drops |
| HubRuns.KeepingUpMissesNothing | internal/web/discovery_hub.go:46-52 | a client has every broadcast in order if and only if none was dropped for it |
| HubRuns.BroadcastIsSends | internal/web/discovery_hub.go:46-52 | uninterrupted deliveries in any order amount to one step of the whole broadcast |
| HubRuns.BroadcastContinues | internal/web/discovery_hub.go:38-53 | an uninterrupted broadcast of the object continues a run |
| WatchManager.Manager.Subscribe | internal/web/discovery_watch_manager.go:45-62 | a new channel in the hub of the cluster, whose entry stays if there is one; otherwise one watcher is started for it; counts and gauges move by one |
| WatchManager.Manager.Unsubscribe | internal/web/discovery_watch_manager.go:64-81 | an unknown cluster changes nothing; the last reference cancels the watcher and removes the entry, any other leaves it running |
| ManagerRuns.ManagerConserves | internal/web/discovery_watch_manager.go:45-81 | in every run each count is its hub's client count and at least one, each handler's channel is in the current hub of its cluster, the gauges are the sum of counts and the number of entries, and exactly the removed entries' watchers are cancelled |
| ManagerRuns.ManagerObjectConserves | internal/web/discovery_watch_manager.go:45-81 | the same for a manager object with real channels: counts, clients, gauges, and an entry is cancelled exactly if the manager no longer holds it |
| ManagerRuns.AllLeftAllCancelled | internal/web/discovery_endpoints.go:72-73 | when the last handler has left no watcher runs and both gauges are zero |
| ManagerRuns.LeavingKeepsCountsIff | internal/web/discovery_watch_manager.go:64-81 | leaving with any cluster and channel keeps counts and clients together if and only if the channel is outstanding under that cluster, or is not outstanding and the cluster has no entry |
| Backoff.DelayIsMeant | internal/web/discovery_watch_manager.go:98-109 | for every attempt, overflowing and word-size shifts included, the wrapped and clamped delay is half a second doubled per attempt up to fifteen seconds |
| Backoff.DelayGrows | internal/web/discovery_watch_manager.go:106-111 | the random draw is always over a non-empty range, and later attempts never wait less |
| Backoff.NextBackoff | internal/web/discovery_watch_manager.go:98-113 | the delay with jitter lies in [d, d + d/2) for that d |
| Backoff.WatchDiscovery | internal/web/discovery_watch_manager.go:116-164 | after a stream that opened, the wait is half a second, and it is doubled by each refusal since then or since the start, up to fifteen seconds; jitter adds up to half |
| Backoff.DoublingsExactly | internal/web/discovery_watch_manager.go:117-162 | no doubling after an opened stream, and one for each refusal since |
| Backoff.AttemptsCountRefusals | internal/web/discovery_watch_manager.go:117-162 | the retry counter counts the rounds since the last opened stream |

## Left out

- 64-bit wrap-around of the subscription counter and of UnixNano: ids and times are unbounded integers.
- Clock reads within one operation: an operation reads the clock once; `Retention` and `ExpiryLaws` take it to read 1970 or later.
- `Subscription.notify`'s check and its two sends are one step everywhere but in `Lifecycle`, `LifecycleLaws` and `ClosedSends`; Cleanup's check and delete are one step.
- `Discovery`, `Flat`, `Retention` and `Snapshots` take ClusterFor or GetCluster and the operation on the cluster as one step; `Handles` and `Acknowledged` take them as two and state what that changes.
- Cleanup visits the clusters of one moment; clusters stored while it iterates are not modelled, apart from `Handles`, which cleans one cluster at a time among other steps.
- A snapshot saved while other operations run: `SaveSnapshot` is one step over the whole registry, and so are a save and a restart in `Discovery`.
- Overlap.OverlapMayDiverge: a schedule for two commits that announce one event each; prunes that announce several, and all other schedules, are covered by `LastWordDecides`.
- A failing removal of the temporary snapshot file, an error the code ignores: the cleanup always removes it.
- Two snapshot writers at once and reuse of a temporary name after a crash: one actor saves, and a new temporary name does not exist when it is taken.
- `Lifecycle` abstracts from events and tables: a commit notifies any number of events, and an overflow may happen at any send.
- Object identity in `Flat`, `Retention` and the run theorems: they speak of the values that the classes are proved to compute.
- Protobuf, JSON and base64 encoding, and reading and writing the file's bytes: marshalling is taken to be inverse on the message values.
- gRPC and HTTP servers, TLS, listeners, run groups, signals, flags, metrics registration, logging and the user interface: plumbing without state of its own.
- Hello, extractClientIP, grpcErrorToHTTPStatus and context error mapping: small case tables.
- Agreement of web subscribers with the server: the hub drops events and replays no snapshot, so only conservation and order hold there.
- Fields of metrics beyond the drop counter and the two gauges.
- The internals of the concurrent map: it is a plain map with atomic load-or-create, load and delete.
- Backoff.WatchDiscovery: the cancellation of the wait is the end of the sequence of rounds, and the messages of an opened stream are not modelled there.
