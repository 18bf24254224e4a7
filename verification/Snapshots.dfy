/** Saving the registry to a message and loading it back (internal/state/snapshot.go). */
module Snapshots {
  import opened Basics
  import opened Affiliates
  import opened Registry
  import opened Clusters
  import S = State
  import Discovery

  // ----- the message -----

  /** Seconds since the epoch, rounded down, and the nanoseconds beyond them. */
  datatype Timestamp = Timestamp(seconds: int, nanos: int)
  datatype EndpointMessage = EndpointMessage(data: Bytes, expiry: Option<Timestamp>)
  datatype AffiliateMessage =
    AffiliateMessage(id: Id, expiry: Option<Timestamp>, data: Bytes, endpoints: seq<EndpointMessage>)
  datatype ClusterMessage = ClusterMessage(id: Id, affiliates: seq<AffiliateMessage>)
  datatype Snapshot = Snapshot(clusters: seq<ClusterMessage>)

  function ToTimestamp(t: Time): Timestamp {
    Timestamp(t / SECOND, t % SECOND)
  }

  /** An absent timestamp reads as the zero time. */
  function FromTimestamp(ts: Option<Timestamp>): Time {
    if ts.None? then ZERO_TIME else ts.value.seconds * SECOND + ts.value.nanos
  }

  lemma TimestampRoundTrip(t: Time)
    ensures FromTimestamp(Some(ToTimestamp(t))) == t
    ensures IsTime(Some(ToTimestamp(t)), t) && 0 <= ToTimestamp(t).nanos < 1_000_000_000
  {
  }

  /** The timestamp stands for this time; without one it is the year 1. */
  ghost predicate IsTime(ts: Option<Timestamp>, t: Time) {
    match ts
    case None => t == -62_135_596_800_000_000_000
    case Some(v) => t == v.seconds * 1_000_000_000 + v.nanos
  }

  // ----- the format -----

  /** The message holds these endpoints in order, with their expiries. */
  ghost predicate HoldsEndpoints(eps: seq<Endpoint>, ms: seq<EndpointMessage>) {
    && |ms| == |eps|
    && forall i :: 0 <= i < |eps| ==> ms[i].data == eps[i].data && IsTime(ms[i].expiry, eps[i].expiry)
  }

  ghost predicate HoldsRecord(rec: Record, sa: AffiliateMessage) {
    && sa.id == rec.id && sa.data == rec.data && IsTime(sa.expiry, rec.expiry)
    && HoldsEndpoints(rec.endpoints, sa.endpoints)
  }

  ghost function AffiliateIds(sas: seq<AffiliateMessage>): (ids: seq<Id>)
    ensures |ids| == |sas| && forall j :: 0 <= j < |sas| ==> ids[j] == sas[j].id
  {
    seq(|sas|, j requires 0 <= j < |sas| => sas[j].id)
  }

  ghost function ClusterIds(scs: seq<ClusterMessage>): (ids: seq<Id>)
    ensures |ids| == |scs| && forall j :: 0 <= j < |scs| ==> ids[j] == scs[j].id
  {
    seq(|scs|, j requires 0 <= j < |scs| => scs[j].id)
  }

  /** One message for each affiliate of the table, each holding its record. */
  ghost predicate HoldsTable(t: Table, sas: seq<AffiliateMessage>) {
    && NoDuplicates(AffiliateIds(sas)) && Elems(AffiliateIds(sas)) == t.Keys
    && forall j :: 0 <= j < |sas| ==> sas[j].id in t && HoldsRecord(t[sas[j].id], sas[j])
  }

  ghost predicate HoldsClusters(s: Discovery.Clusters, scs: seq<ClusterMessage>) {
    && NoDuplicates(ClusterIds(scs)) && Elems(ClusterIds(scs)) == s.Keys
    && forall j :: 0 <= j < |scs| ==> scs[j].id in s && HoldsTable(s[scs[j].id].table, scs[j].affiliates)
  }

  /** What a snapshot holds: every cluster and affiliate once, each affiliate with all its fields. */
  lemma SavedExactly(s: Discovery.Clusters, snap: Snapshot)
    requires KeyedAll(s) && Saves(s, snap)
    ensures HoldsClusters(s, snap.clusters)
  {
    var ids :| SavesAs(s, ids, snap);
    forall j | 0 <= j < |ids|
      ensures snap.clusters[j].id == ids[j] && HoldsTable(s[ids[j]].table, snap.clusters[j].affiliates)
    {
      SavedTable(s[ids[j]].table, snap.clusters[j].affiliates);
    }
    assert ClusterIds(snap.clusters) == ids;
  }

  lemma SavedTable(t: Table, sas: seq<AffiliateMessage>)
    requires Keyed(t) && exists ids :: SavesTable(t, ids, sas)
    ensures HoldsTable(t, sas)
  {
    var ids :| SavesTable(t, ids, sas);
    forall j | 0 <= j < |ids|
      ensures sas[j].id == ids[j] && HoldsRecord(t[ids[j]], sas[j])
    {
      SavedRecord(t[ids[j]]);
    }
    assert AffiliateIds(sas) == ids;
  }

  lemma SavedRecord(rec: Record)
    ensures HoldsRecord(rec, SaveRecord(rec))
  {
    TimestampRoundTrip(rec.expiry);
    forall i | 0 <= i < |rec.endpoints|
      ensures IsTime(SaveEndpoints(rec.endpoints)[i].expiry, rec.endpoints[i].expiry)
    {
      TimestampRoundTrip(rec.endpoints[i].expiry);
    }
  }

  /** No later message is for the same affiliate or cluster. */
  ghost predicate LastWith(ids: seq<Id>, j: nat) {
    j < |ids| && ids[j] !in ids[j + 1..]
  }

  /**
   * What any snapshot file, whoever wrote it, is loaded as: a cluster for each id, with a lease of 30 minutes and
   * no watchers, holding an affiliate for each id of the last message for it, as that affiliate's last message says.
   */
  lemma LoadedExactly(scs: seq<ClusterMessage>, now: Time, s: Discovery.Clusters, j: nat)
    requires s == LoadClusters(scs, now)
    ensures s.Keys == Elems(ClusterIds(scs))
    ensures LastWith(ClusterIds(scs), j) ==> scs[j].id in s && Describes(scs[j], now, s[scs[j].id])
  {
    ClustersLoaded(scs, now, s, j);
    if LastWith(ClusterIds(scs), j) {
      var t := LoadTable(scs[j].affiliates);
      forall i: nat
        ensures DescribesRecord(scs[j].affiliates, i, t)
      {
        TableLoaded(scs[j].affiliates, t, i);
      }
      TableLoaded(scs[j].affiliates, t, 0);
    }
  }

  ghost predicate Describes(sc: ClusterMessage, now: Time, c: ClusterValue) {
    && c.id == sc.id && c.expiry == now + 1_800_000_000_000 && c.subs == []
    && c.table.Keys == Elems(AffiliateIds(sc.affiliates))
    && forall i: nat :: DescribesRecord(sc.affiliates, i, c.table)
  }

  ghost predicate DescribesRecord(sas: seq<AffiliateMessage>, i: nat, t: Table) {
    LastWith(AffiliateIds(sas), i) ==> sas[i].id in t && HoldsRecord(t[sas[i].id], sas[i])
  }

  lemma {:induction false} ClustersLoaded(scs: seq<ClusterMessage>, now: Time, s: Discovery.Clusters, j: nat)
    requires s == LoadClusters(scs, now)
    ensures s.Keys == Elems(ClusterIds(scs))
    ensures LastWith(ClusterIds(scs), j) ==> scs[j].id in s && s[scs[j].id] == LoadCluster(scs[j], now)
    decreases |scs|
  {
    if scs != [] {
      var n := |scs| - 1;
      var front := ClusterIds(scs[..n]);
      ClustersLoaded(scs[..n], now, LoadClusters(scs[..n], now), j);
      assert ClusterIds(scs) == front + [scs[n].id];
      LastBefore(front, scs[n].id, j);
      ElemsConcat(front, [scs[n].id]);
    }
  }

  lemma LastBefore(front: seq<Id>, last: Id, j: nat)
    ensures LastWith(front + [last], j) && j < |front| ==> LastWith(front, j) && front[j] != last
  {
    if j < |front| {
      assert (front + [last])[j + 1..] == front[j + 1..] + [last];
    }
  }

  lemma {:induction false} TableLoaded(sas: seq<AffiliateMessage>, t: Table, j: nat)
    requires t == LoadTable(sas)
    ensures t.Keys == Elems(AffiliateIds(sas)) && DescribesRecord(sas, j, t)
    decreases |sas|
  {
    if sas != [] {
      var n := |sas| - 1;
      var front := AffiliateIds(sas[..n]);
      TableLoaded(sas[..n], LoadTable(sas[..n]), j);
      assert AffiliateIds(sas) == front + [sas[n].id];
      LastBefore(front, sas[n].id, j);
      ElemsConcat(front, [sas[n].id]);
      LoadedRecord(sas[n]);
    }
  }

  lemma LoadedRecord(sa: AffiliateMessage)
    ensures HoldsRecord(LoadRecord(sa), sa)
  {
    assert forall i :: 0 <= i < |sa.endpoints| ==>
             IsTime(sa.endpoints[i].expiry, LoadEndpoints(sa.endpoints)[i].expiry);
  }

  // ----- saving -----

  function SaveEndpoint(ep: Endpoint): EndpointMessage {
    EndpointMessage(ep.data, Some(ToTimestamp(ep.expiry)))
  }

  function SaveEndpoints(eps: seq<Endpoint>): (r: seq<EndpointMessage>)
    ensures |r| == |eps| && forall i :: 0 <= i < |eps| ==> r[i] == SaveEndpoint(eps[i])
  {
    if eps == [] then [] else SaveEndpoints(eps[..|eps| - 1]) + [SaveEndpoint(eps[|eps| - 1])]
  }

  function SaveRecord(rec: Record): AffiliateMessage {
    AffiliateMessage(rec.id, Some(ToTimestamp(rec.expiry)), rec.data, SaveEndpoints(rec.endpoints))
  }

  /** The message lists the table in the order `ids`. */
  ghost predicate SavesTable(t: Table, ids: seq<Id>, sas: seq<AffiliateMessage>) {
    SavesFirst(t, ids, sas) && NoDuplicates(ids) && forall id :: id in t ==> id in ids
  }

  ghost predicate SavesFirst(t: Table, ids: seq<Id>, sas: seq<AffiliateMessage>) {
    |sas| == |ids| && forall j :: 0 <= j < |ids| ==> ids[j] in t && sas[j] == SaveRecord(t[ids[j]])
  }

  /** Some iteration order of the affiliates gives this cluster message. */
  ghost predicate SavesCluster(c: ClusterValue, sc: ClusterMessage) {
    sc.id == c.id && exists ids :: SavesTable(c.table, ids, sc.affiliates)
  }

  /** Some iteration order of the clusters, and of the affiliates of each, gives this snapshot. */
  ghost predicate Saves(s: Discovery.Clusters, snap: Snapshot) {
    exists ids :: SavesAs(s, ids, snap)
  }

  ghost predicate SavesAs(s: Discovery.Clusters, ids: seq<Id>, snap: Snapshot) {
    SavesFirstClusters(s, ids, snap.clusters) && NoDuplicates(ids) && forall id :: id in s ==> id in ids
  }

  ghost predicate SavesFirstClusters(s: Discovery.Clusters, ids: seq<Id>, scs: seq<ClusterMessage>) {
    |scs| == |ids| && forall j :: 0 <= j < |ids| ==> ids[j] in s && SavesCluster(s[ids[j]], scs[j])
  }

  method SaveAffiliate(a: Affiliate) returns (sa: AffiliateMessage)
    ensures sa == SaveRecord(a.Value())
  {
    var eps: seq<EndpointMessage> := [];
    for j := 0 to |a.endpoints|
      invariant eps == SaveEndpoints(a.endpoints)[..j]
    {
      eps := eps + [EndpointMessage(a.endpoints[j].data, Some(ToTimestamp(a.endpoints[j].expiry)))];
    }
    sa := AffiliateMessage(a.id, Some(ToTimestamp(a.expiry)), a.data, eps);
  }

  method SaveCluster(c: Cluster) returns (sc: ClusterMessage)
    requires c.Valid()
    ensures SavesCluster(c.Value(), sc)
  {
    var ids := AnyOrder(c.affiliates.Keys);
    var sas: seq<AffiliateMessage> := [];
    for j := 0 to |ids|
      invariant j <= |ids| && SavesFirst(c.table, ids[..j], sas)
    {
      assert ids[j] in ids;
      TakeNext(ids, j);
      var sa := SaveAffiliate(c.affiliates[ids[j]]);
      sas := sas + [sa];
    }
    assert ids[..|ids|] == ids;
    assert SavesTable(c.table, ids, sas);
    sc := ClusterMessage(c.id, sas);
  }

  method SaveStored(state: S.State, id: Id) returns (sc: ClusterMessage)
    requires state.Valid() && id in state.clusters
    ensures id in state.model && SavesCluster(state.model[id], sc)
  {
    state.Stored(id);
    sc := SaveCluster(state.clusters[id]);
  }

  lemma SavesNext(s: Discovery.Clusters, ids: seq<Id>, j: nat, scs: seq<ClusterMessage>, sc: ClusterMessage)
    requires j < |ids| && SavesFirstClusters(s, ids[..j], scs)
    requires ids[j] in s && SavesCluster(s[ids[j]], sc)
    ensures SavesFirstClusters(s, ids[..j + 1], scs + [sc])
  {
    assert ids[..j + 1] == ids[..j] + [ids[j]];
  }

  method SaveSnapshot(state: S.State) returns (snap: Snapshot)
    requires state.Valid()
    ensures Saves(state.model, snap)
  {
    ghost var model := state.model;
    var ids := AnyOrder(state.clusters.Keys);
    var scs: seq<ClusterMessage> := [];
    for j := 0 to |ids|
      invariant j <= |ids| && SavesFirstClusters(model, ids[..j], scs)
    {
      assert ids[j] in ids;
      var sc := SaveStored(state, ids[j]);
      SavesNext(model, ids, j, scs, sc);
      scs := scs + [sc];
    }
    snap := Snapshot(scs);
    AllSaved(model, ids, snap);
  }

  lemma AllSaved(s: Discovery.Clusters, ids: seq<Id>, snap: Snapshot)
    requires NoDuplicates(ids) && forall id :: id in s ==> id in ids
    requires SavesFirstClusters(s, ids[..|ids|], snap.clusters)
    ensures Saves(s, snap)
  {
    assert ids[..|ids|] == ids;
    assert SavesAs(s, ids, snap);
  }

  // ----- loading -----

  function LoadEndpoints(eps: seq<EndpointMessage>): (r: seq<Endpoint>)
    ensures |r| == |eps|
    ensures forall i :: 0 <= i < |eps| ==> r[i] == Endpoint(eps[i].data, FromTimestamp(eps[i].expiry))
  {
    if eps == [] then []
    else
      var last := eps[|eps| - 1];
      LoadEndpoints(eps[..|eps| - 1]) + [Endpoint(last.data, FromTimestamp(last.expiry))]
  }

  function LoadRecord(sa: AffiliateMessage): Record {
    Record(sa.id, FromTimestamp(sa.expiry), sa.data, LoadEndpoints(sa.endpoints))
  }

  /** Later affiliates replace earlier ones with the same id. */
  function LoadTable(sas: seq<AffiliateMessage>): Table {
    if sas == [] then map[]
    else
      var last := sas[|sas| - 1];
      LoadTable(sas[..|sas| - 1])[last.id := LoadRecord(last)]
  }

  function LoadCluster(sc: ClusterMessage, now: Time): ClusterValue {
    NewCluster(sc.id, now).(table := LoadTable(sc.affiliates))
  }

  function LoadClusters(scs: seq<ClusterMessage>, now: Time): Discovery.Clusters {
    if scs == [] then map[]
    else
      var last := scs[|scs| - 1];
      LoadClusters(scs[..|scs| - 1], now)[last.id := LoadCluster(last, now)]
  }

  method LoadOne(sc: ClusterMessage, now: Time) returns (c: Cluster)
    ensures fresh(c.repr) && c.Valid() && c.id == sc.id && c.Value() == LoadCluster(sc, now)
  {
    c := new Cluster(sc.id, now);
    for j := 0 to |sc.affiliates|
      invariant c.Valid() && fresh(c.repr)
      invariant c.Value() == NewCluster(sc.id, now).(table := LoadTable(sc.affiliates[..j]))
    {
      var sa := sc.affiliates[j];
      TakeNext(sc.affiliates, j);
      c.Restore(LoadRecord(sa));
    }
    assert sc.affiliates[..|sc.affiliates|] == sc.affiliates;
  }

  /** A missing file is an empty registry. */
  method LoadSnapshot(file: Option<Snapshot>, now: Time) returns (state: S.State)
    ensures fresh(state) && fresh(state.objects) && state.Valid()
    ensures state.model == if file.None? then map[] else LoadClusters(file.value.clusters, now)
  {
    state := new S.State();
    if file.None? {
      return;
    }
    var scs := file.value.clusters;
    for j := 0 to |scs|
      invariant fresh(state) && fresh(state.objects) && state.Valid()
      invariant state.model == LoadClusters(scs[..j], now)
    {
      assert scs[..j + 1][..j] == scs[..j];
      var c := LoadOne(scs[j], now);
      state.Put(c);
    }
    assert scs[..|scs|] == scs;
  }

  // ----- the round trip -----

  lemma {:induction false} EndpointsRoundTrip(eps: seq<Endpoint>)
    ensures LoadEndpoints(SaveEndpoints(eps)) == eps
  {
    forall i | 0 <= i < |eps|
      ensures LoadEndpoints(SaveEndpoints(eps))[i] == eps[i]
    {
      TimestampRoundTrip(eps[i].expiry);
    }
  }

  lemma RecordRoundTrip(rec: Record)
    ensures LoadRecord(SaveRecord(rec)) == rec
  {
    EndpointsRoundTrip(rec.endpoints);
    TimestampRoundTrip(rec.expiry);
  }

  lemma {:induction false} LoadTableMembers(t: Table, ids: seq<Id>, sas: seq<AffiliateMessage>)
    requires Keyed(t) && SavesFirst(t, ids, sas)
    ensures forall id :: id in LoadTable(sas) <==> id in ids
    ensures forall id :: id in LoadTable(sas) ==> id in t && LoadTable(sas)[id] == t[id]
    decreases |ids|
  {
    if ids != [] {
      var last := |ids| - 1;
      SavesFront(t, ids, sas);
      LoadTableMembers(t, ids[..last], sas[..last]);
      LoadedNext(t, LoadTable(sas[..last]), ids[..last], ids[last]);
      TakeNext(ids, last);
    }
  }

  lemma SavesFront(t: Table, ids: seq<Id>, sas: seq<AffiliateMessage>)
    requires SavesFirst(t, ids, sas) && ids != []
    ensures var last := |ids| - 1;
            && ids[last] in t && |sas| == |ids| && sas[last] == SaveRecord(t[ids[last]])
            && SavesFirst(t, ids[..last], sas[..last])
  {
  }

  lemma LoadedNext(t: Table, loaded: Table, ids: seq<Id>, id: Id)
    requires Keyed(t) && id in t
    requires forall k :: k in loaded <==> k in ids
    requires forall k :: k in loaded ==> k in t && loaded[k] == t[k]
    ensures SaveRecord(t[id]).id == id
    ensures var more := loaded[id := LoadRecord(SaveRecord(t[id]))];
            && (forall k :: k in more <==> k in ids + [id])
            && forall k :: k in more ==> k in t && more[k] == t[k]
  {
    RecordRoundTrip(t[id]);
  }

  lemma TableRoundTrip(t: Table, ids: seq<Id>, sas: seq<AffiliateMessage>)
    requires Keyed(t) && SavesTable(t, ids, sas)
    ensures LoadTable(sas) == t
  {
    LoadTableMembers(t, ids, sas);
  }

  lemma ClusterRoundTrip(c: ClusterValue, sc: ClusterMessage, now: Time)
    requires Keyed(c.table) && SavesCluster(c, sc)
    ensures LoadCluster(sc, now) == ClusterValue(c.id, now + CLUSTER_TTL, c.table, [])
  {
    var ids :| SavesTable(c.table, ids, sc.affiliates);
    TableRoundTrip(c.table, ids, sc.affiliates);
  }

  /** Every cluster and every affiliate is stored under its own id. */
  ghost predicate KeyedAll(s: Discovery.Clusters) {
    forall id :: id in s ==> s[id].id == id && Keyed(s[id].table)
  }

  lemma {:induction false} LoadClustersMembers(s: Discovery.Clusters, ids: seq<Id>, scs: seq<ClusterMessage>, now: Time)
    requires KeyedAll(s) && SavesFirstClusters(s, ids, scs)
    ensures forall id :: id in LoadClusters(scs, now) <==> id in ids
    ensures forall id :: id in LoadClusters(scs, now) ==>
              id in s && LoadClusters(scs, now)[id] == Discovery.Restarted(s, now)[id]
    decreases |ids|
  {
    if ids != [] {
      var last := |ids| - 1;
      LoadClustersMembers(s, ids[..last], scs[..last], now);
      ClusterRoundTrip(s[ids[last]], scs[last], now);
      TakeNext(ids, last);
    }
  }

  /** Loading what was saved, in whatever order it was saved, restores the registry. */
  lemma SnapshotRoundTrip(s: Discovery.Clusters, snap: Snapshot, now: Time)
    requires KeyedAll(s) && Saves(s, snap)
    ensures LoadClusters(snap.clusters, now) == Discovery.Restarted(s, now)
  {
    var ids :| SavesAs(s, ids, snap);
    LoadClustersMembers(s, ids, snap.clusters, now);
  }

  /**
   * So for every registry a run can reach, across restarts, expired affiliates and endpoints included:
   * loading what was saved is the restart of the service that saved it.
   */
  lemma EveryRunRoundTrips(steps: seq<Discovery.Step>, s: Discovery.Service, snap: Snapshot, now: Time)
    requires Discovery.After(steps) == Some(s) && Saves(s.clusters, snap)
    ensures LoadClusters(snap.clusters, now) ==
              Discovery.Take(Discovery.Take(s, Discovery.Save), Discovery.Restart(now)).clusters
  {
    Discovery.EveryRunValid(steps);
    ValidKeyed(s.clusters);
    SnapshotRoundTrip(s.clusters, snap, now);
    RestartOfSave(s, now);
  }

  lemma ValidKeyed(s: Discovery.Clusters)
    requires Discovery.Valid(s)
    ensures KeyedAll(s)
  {
  }

  lemma RestartOfSave(s: Discovery.Service, now: Time)
    ensures Discovery.Take(Discovery.Take(s, Discovery.Save), Discovery.Restart(now)).clusters ==
              Discovery.Restarted(s.clusters, now)
  {
  }

  ghost function PruneAll(s: Discovery.Clusters, t: Time): Discovery.Clusters {
    map id | id in s :: s[id].(table := PruneTable(s[id].table, t))
  }

  /** Pruning before saving and pruning after loading leave the same registry. */
  lemma RoundTripCommutesWithPrune(s: Discovery.Clusters, snap: Snapshot, pruned: Snapshot, t: Time, now: Time)
    requires KeyedAll(s) && Saves(s, snap) && Saves(PruneAll(s, t), pruned)
    ensures LoadClusters(pruned.clusters, now) == PruneAll(LoadClusters(snap.clusters, now), t)
  {
    SnapshotRoundTrip(s, snap, now);
    SnapshotRoundTrip(PruneAll(s, t), pruned, now);
    RestartedPruned(s, t, now);
  }

  lemma RestartedPruned(s: Discovery.Clusters, t: Time, now: Time)
    ensures Discovery.Restarted(PruneAll(s, t), now) == PruneAll(Discovery.Restarted(s, now), t)
  {
  }
}
