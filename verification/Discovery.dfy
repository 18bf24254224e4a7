/** The whole service as a value: clusters created on demand and collected when expired and empty. */
module Discovery {
  import opened Basics
  import opened Affiliates
  import opened Registry
  import opened Validation
  import UpdateLaws
  import PruneLaws
  import FanOut
  import WatchViews

  type Clusters = map<Id, ClusterValue>

  datatype Action =
    | Update(msg: UpdateMessage, now: Time)
    | Remove(clusterId: Id, id: Id, now: Time)
    | Watch(clusterId: Id, now: Time)
    | Receive(clusterId: Id, i: nat)
    | Close(clusterId: Id, i: nat, now: Time)
    | Cleanup(batches: map<Id, seq<Event>>, now: Time)

  /** State.ClusterFor: load the cluster, or create it. */
  function ClusterFor(s: Clusters, id: Id, now: Time): ClusterValue {
    if id in s then s[id] else NewCluster(id, now)
  }

  ghost predicate Collectable(c: ClusterValue, now: Time) {
    Expired(c, now) && Empty(c)
  }

  /** The events each cluster's prune found, in the order it found them. */
  ghost predicate AreBatches(s: Clusters, now: Time, batches: map<Id, seq<Event>>) {
    forall id :: id in s ==> id in batches && IsPruneBatch(s[id].table, now, batches[id])
  }

  ghost predicate Enabled(s: Clusters, a: Action) {
    match a
    case Receive(c, i) => c in s && i < |s[c].subs| && s[c].subs[i].buffer != []
    case Close(c, i, _) => c in s && i < |s[c].subs|
    case Cleanup(batches, now) => AreBatches(s, now, batches)
    case _ => true
  }

  ghost function Pruned(s: Clusters, batches: map<Id, seq<Event>>, now: Time): Clusters
    requires AreBatches(s, now, batches)
  {
    map id | id in s :: PruneCluster(s[id], batches[id], now)
  }

  ghost function Collect(s: Clusters, now: Time): Clusters {
    map id | id in s && !Collectable(s[id], now) :: s[id]
  }

  ghost function Do(s: Clusters, a: Action): Clusters
    requires Enabled(s, a)
  {
    match a
    case Update(msg, now) =>
      if CheckUpdate(msg).Some? then s
      else s[msg.clusterId := UpdateCluster(ClusterFor(s, msg.clusterId, now), ToRequest(msg), now)]
    case Remove(c, id, now) =>
      if CheckClusterID(c).Some? || CheckAffiliateID(id).Some? || c !in s then s
      else s[c := DeleteFromCluster(s[c], id, now)]
    case Watch(c, now) =>
      if CheckClusterID(c).Some? then s else s[c := SubscribeTo(ClusterFor(s, c, now))]
    case Receive(c, i) => s[c := Registry.Receive(s[c], i)]
    case Close(c, i, now) => s[c := CloseSub(s[c], i, now)]
    case Cleanup(batches, now) => Collect(Pruned(s, batches, now), now)
  }

  // ----- runs, across restarts -----

  /** The service: the registry, and the registry as the snapshot file describes it, empty without a file. */
  datatype Service = Service(clusters: Clusters, saved: Clusters)

  /** Save writes the snapshot file; a restart, after a shutdown or a crash, loads what was last saved. */
  datatype Step =
    | Perform(a: Action)
    | Save
    | Restart(now: Time)

  const Initial := Service(map[], map[])

  /** Every cluster and affiliate as it was, with a new lease for the clusters and no watchers. */
  ghost function Restarted(s: Clusters, now: Time): Clusters {
    map id | id in s :: ClusterValue(s[id].id, now + CLUSTER_TTL, s[id].table, [])
  }

  ghost predicate CanTake(s: Service, x: Step) {
    x.Perform? ==> Enabled(s.clusters, x.a)
  }

  ghost function Take(s: Service, x: Step): Service
    requires CanTake(s, x)
  {
    match x
    case Perform(a) => s.(clusters := Do(s.clusters, a))
    case Save => s.(saved := s.clusters)
    case Restart(now) => s.(clusters := Restarted(s.saved, now))
  }

  /** The service after a run; None when some step of it was not possible. */
  ghost function After(steps: seq<Step>): Option<Service>
    decreases |steps|
  {
    if steps == [] then Some(Initial)
    else
      var p := After(steps[..|steps| - 1]);
      if p.Some? && CanTake(p.value, steps[|steps| - 1]) then Some(Take(p.value, steps[|steps| - 1])) else None
  }

  // ----- what every reachable state keeps -----

  ghost predicate BytesBounded(rec: Record) {
    && |rec.id| <= AFFILIATE_ID_MAX && !Blank(rec.id) && |rec.data| <= AFFILIATE_DATA_MAX
    && forall i :: 0 <= i < |rec.endpoints| ==> |rec.endpoints[i].data| <= AFFILIATE_ENDPOINT_MAX
  }

  /** Counts, keys, distinct endpoints, buffers and byte sizes within their limits. */
  ghost predicate Bounded(c: ClusterValue) {
    ValidCluster(c) && forall id :: id in c.table ==> BytesBounded(c.table[id])
  }

  ghost predicate Valid(s: Clusters) {
    forall id :: id in s ==> s[id].id == id && !Blank(id) && |id| <= CLUSTER_ID_MAX && Bounded(s[id])
  }

  lemma NotifyEachBounded(c: ClusterValue, evs: seq<Event>, now: Time)
    requires Bounded(c)
    ensures Bounded(NotifyEach(c, evs, now)) && NotifyEach(c, evs, now).id == c.id
  {
    FanOut.NotifyEachSubs(c, evs, now);
  }

  lemma NotifyOptionBounded(c: ClusterValue, ev: Option<Event>, now: Time)
    requires Bounded(c)
    ensures Bounded(NotifyOption(c, ev, now)) && NotifyOption(c, ev, now).id == c.id
  {
    if ev.Some? {
      NotifyEachSnoc(c, [], ev.value, now);
      NotifyEachBounded(c, [] + [ev.value], now);
    }
  }

  lemma {:induction false} MergeBytes(eps: seq<Endpoint>, req: seq<Bytes>, e: Time)
    requires forall i :: 0 <= i < |eps| ==> |eps[i].data| <= AFFILIATE_ENDPOINT_MAX
    requires EndpointsFit(req)
    ensures var r := Merge(eps, req, e).endpoints;
            forall i :: 0 <= i < |r| ==> |r[i].data| <= AFFILIATE_ENDPOINT_MAX
    decreases |req|
  {
    if req != [] {
      MergeUnfold(eps, req, e);
      var rest := req[1..];
      assert EndpointsFit(rest);
      if req[0] in Names(eps) {
        MergeBytes(Raise(eps, IndexOf(eps, req[0]), e), rest, e);
      } else if |eps| < AFFILIATE_ENDPOINTS_MAX {
        MergeBytes(eps + [Endpoint(req[0], e)], rest, e);
      }
    }
  }

  lemma UpdateBytes(t: Table, req: UpdateRequest, now: Time)
    requires Keyed(t) && forall id :: id in t ==> BytesBounded(t[id])
    requires |req.id| <= AFFILIATE_ID_MAX && !Blank(req.id) && |req.data| <= AFFILIATE_DATA_MAX
    requires EndpointsFit(req.endpoints)
    ensures forall id :: id in UpdateTable(t, req, now) ==> BytesBounded(UpdateTable(t, req, now)[id])
  {
    var rec := Target(t, req.id);
    assert BytesBounded(rec);
    RecordBytes(rec, req, now);
  }

  lemma RecordBytes(rec: Record, req: UpdateRequest, now: Time)
    requires BytesBounded(rec) && |req.data| <= AFFILIATE_DATA_MAX && EndpointsFit(req.endpoints)
    ensures BytesBounded(UpdatedRecord(rec, req, now))
  {
    MergeBytes(rec.endpoints, req.endpoints, now + req.ttl);
    UpdateLaws.UpdatedEndpoints(rec, req, now);
  }

  lemma UpdateBounded(c: ClusterValue, msg: UpdateMessage, now: Time)
    requires Bounded(c) && CheckUpdate(msg).None?
    ensures Bounded(UpdateCluster(c, ToRequest(msg), now)) && UpdateCluster(c, ToRequest(msg), now).id == c.id
  {
    var req := ToRequest(msg);
    UpdateLaws.UpdateKeepsValid(c.table, req, now);
    UpdateBytes(c.table, req, now);
    NotifyOptionBounded(c.(table := UpdateTable(c.table, req, now)), UpdateLaws.EventOf(c.table, req, now), now);
  }

  lemma RemoveBounded(c: ClusterValue, id: Id, now: Time)
    requires Bounded(c)
    ensures Bounded(DeleteFromCluster(c, id, now)) && DeleteFromCluster(c, id, now).id == c.id
  {
    WatchViews.RemovalValid(c.table, id);
    if id in c.table {
      NotifyOptionBounded(c.(table := c.table - {id}, expiry := now + CLUSTER_TTL), Some(Delete(id)), now);
    }
  }

  lemma PruneBounded(c: ClusterValue, evs: seq<Event>, now: Time)
    requires Bounded(c)
    ensures Bounded(PruneCluster(c, evs, now)) && PruneCluster(c, evs, now).id == c.id
  {
    PruneLaws.PruneKeepsValid(c.table, now);
    forall id | id in PruneTable(c.table, now)
      ensures BytesBounded(PruneTable(c.table, now)[id])
    {
      var pos := PruneLaws.LiveExact(c.table[id].endpoints, now);
    }
    NotifyEachBounded(c.(table := PruneTable(c.table, now)), evs, now);
  }

  lemma ReplaceValid(s: Clusters, id: Id, c: ClusterValue)
    requires Valid(s) && c.id == id && !Blank(id) && |id| <= CLUSTER_ID_MAX && Bounded(c)
    ensures Valid(s[id := c])
  {
  }

  lemma ClusterForBounded(s: Clusters, id: Id, now: Time)
    requires Valid(s)
    ensures Bounded(ClusterFor(s, id, now)) && ClusterFor(s, id, now).id == id
  {
  }

  lemma SubsBounded(c: ClusterValue, subs: seq<Sub>, expiry: Time)
    requires Bounded(c)
    requires forall i :: 0 <= i < |subs| ==> |subs[i].buffer| <= SUBSCRIPTION_BUFFER
    ensures Bounded(c.(subs := subs, expiry := expiry))
  {
  }

  lemma ValidAfterCleanup(s: Clusters, batches: map<Id, seq<Event>>, now: Time)
    requires Valid(s) && AreBatches(s, now, batches)
    ensures Valid(Collect(Pruned(s, batches, now), now))
  {
    forall id | id in s
      ensures Bounded(PruneCluster(s[id], batches[id], now)) && PruneCluster(s[id], batches[id], now).id == id
    {
      PruneBounded(s[id], batches[id], now);
    }
  }

  lemma ValidAfterUpdate(s: Clusters, msg: UpdateMessage, now: Time)
    requires Valid(s)
    ensures Valid(Do(s, Update(msg, now)))
  {
    if CheckUpdate(msg).None? {
      var c := ClusterFor(s, msg.clusterId, now);
      ClusterForBounded(s, msg.clusterId, now);
      UpdateBounded(c, msg, now);
      ReplaceValid(s, msg.clusterId, UpdateCluster(c, ToRequest(msg), now));
    }
  }

  lemma ValidAfterRemove(s: Clusters, c: Id, id: Id, now: Time)
    requires Valid(s)
    ensures Valid(Do(s, Remove(c, id, now)))
  {
    if c in s {
      RemoveBounded(s[c], id, now);
      ReplaceValid(s, c, DeleteFromCluster(s[c], id, now));
    }
  }

  lemma ValidAfterWatch(s: Clusters, c: Id, now: Time)
    requires Valid(s)
    ensures Valid(Do(s, Watch(c, now)))
  {
    var before := ClusterFor(s, c, now);
    ClusterForBounded(s, c, now);
    SubsBounded(before, SubscribeTo(before).subs, before.expiry);
    if CheckClusterID(c).None? {
      ReplaceValid(s, c, SubscribeTo(before));
    }
  }

  lemma ValidAfterStream(s: Clusters, a: Action)
    requires Valid(s) && Enabled(s, a) && (a.Receive? || a.Close?)
    ensures Valid(Do(s, a))
  {
    var c := s[a.clusterId];
    var c' := if a.Receive? then Registry.Receive(c, a.i) else CloseSub(c, a.i, a.now);
    SubsBounded(c, c'.subs, c'.expiry);
    ReplaceValid(s, a.clusterId, c');
  }

  lemma ValidStep(s: Clusters, a: Action)
    requires Valid(s) && Enabled(s, a)
    ensures Valid(Do(s, a))
  {
    match a
    case Update(msg, now) => ValidAfterUpdate(s, msg, now);
    case Remove(c, id, now) => ValidAfterRemove(s, c, id, now);
    case Watch(c, now) => ValidAfterWatch(s, c, now);
    case Receive(_, _) => ValidAfterStream(s, a);
    case Close(_, _, _) => ValidAfterStream(s, a);
    case Cleanup(batches, now) => ValidAfterCleanup(s, batches, now);
  }

  lemma ValidAfterRestart(s: Clusters, now: Time)
    requires Valid(s)
    ensures Valid(Restarted(s, now))
  {
  }

  /** In every run, across restarts, each cluster and affiliate is stored under its id and every limit holds. */
  lemma {:induction false} EveryRunValid(steps: seq<Step>)
    requires After(steps).Some?
    ensures Valid(After(steps).value.clusters) && Valid(After(steps).value.saved)
    decreases |steps|
  {
    if steps != [] {
      var s, x := After(steps[..|steps| - 1]).value, steps[|steps| - 1];
      EveryRunValid(steps[..|steps| - 1]);
      match x
      case Perform(a) => ValidStep(s.clusters, a);
      case Save =>
      case Restart(now) => ValidAfterRestart(s.saved, now);
    }
  }

  /** The limits as numbers: on ids, affiliates, data, endpoints and the events waiting for a watcher. */
  ghost predicate InLimits(id: Id, c: ClusterValue) {
    && c.id == id && |id| <= 256 && !OnlySpace(id) && |c.table| <= 1024
    && (forall k :: k in c.table ==> AffiliateInLimits(k, c.table[k]))
    && (forall i :: 0 <= i < |c.subs| ==> |c.subs[i].buffer| <= 64)
  }

  ghost predicate AffiliateInLimits(id: Id, rec: Record) {
    && rec.id == id && |id| <= 256 && !OnlySpace(id) && |rec.data| <= 2048 && |rec.endpoints| <= 64
    && (forall i :: 0 <= i < |rec.endpoints| ==> |rec.endpoints[i].data| <= 32)
    && (forall i, j :: 0 <= i < j < |rec.endpoints| ==> rec.endpoints[i].data != rec.endpoints[j].data)
  }

  /** In every run, across restarts, everything stored and everything saved is within these limits. */
  lemma EveryRunInLimits(steps: seq<Step>, id: Id)
    requires After(steps).Some?
    ensures var s := After(steps).value;
            && (id in s.clusters ==> InLimits(id, s.clusters[id]))
            && (id in s.saved ==> InLimits(id, s.saved[id]))
  {
    EveryRunValid(steps);
    var s := After(steps).value;
    if id in s.clusters {
      ValidInLimits(id, s.clusters[id]);
    }
    if id in s.saved {
      ValidInLimits(id, s.saved[id]);
    }
  }

  lemma ValidInLimits(id: Id, c: ClusterValue)
    requires c.id == id && !Blank(id) && |id| <= 256 && Bounded(c)
    ensures InLimits(id, c)
  {
    BlankExactly(id);
    forall k | k in c.table
      ensures AffiliateInLimits(k, c.table[k])
    {
      BlankExactly(k);
      DistinctEndpoints(c.table[k].endpoints);
    }
  }

  lemma DistinctEndpoints(eps: seq<Endpoint>)
    requires ValidEndpoints(eps)
    ensures forall i, j :: 0 <= i < j < |eps| ==> eps[i].data != eps[j].data
  {
    forall i, j | 0 <= i < j < |eps|
      ensures eps[i].data != eps[j].data
    {
      NoDuplicatesDiffer(Names(eps), i, j);
    }
  }
}
