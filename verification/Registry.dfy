/** What each operation of a cluster computes, on values (internal/state/cluster.go, cluster_subscribe.go). */
module Registry {
  import opened Basics
  import opened Affiliates

  // ----- affiliates -----

  /** The affiliates of one cluster, by id. */
  type Table = map<Id, Record>

  ghost predicate ValidRecord(rec: Record) {
    ValidEndpoints(rec.endpoints)
  }

  /** Every record is stored under its own id. */
  ghost predicate Keyed(t: Table) {
    forall id :: id in t ==> t[id].id == id
  }

  ghost predicate ValidTable(t: Table) {
    && |t| <= AFFILIATES_MAX && Keyed(t)
    && forall id :: id in t ==> ValidRecord(t[id])
  }

  datatype UpdateRequest = UpdateRequest(id: Id, data: Bytes, endpoints: seq<Bytes>, ttl: int)

  datatype Event = Upsert(info: Info) | Delete(id: Id)

  function EventId(ev: Event): Id {
    match ev
    case Upsert(info) => info.id
    case Delete(id) => id
  }

  datatype Outcome = Updated(event: Option<Event>) | TooManyAffiliates | TooManyEndpoints

  /** The record an update starts from: the stored one, or a new one with a zero expiry. */
  function Target(t: Table, id: Id): Record {
    if id in t then t[id] else Record(id, ZERO_TIME, [], [])
  }

  /** Data replaces the old data and resets the expiry, which may move it back. */
  function WithData(rec: Record, data: Bytes, e: Time): Record {
    if data == [] then rec else rec.(data := data, expiry := e)
  }

  function UpdatedRecord(rec: Record, req: UpdateRequest, now: Time): Record {
    MergeRecord(WithData(rec, req.data, now + req.ttl), req.endpoints, now + req.ttl)
  }

  predicate Refused(t: Table, req: UpdateRequest) {
    req.id !in t && |t| >= AFFILIATES_MAX
  }

  function UpdateTable(t: Table, req: UpdateRequest, now: Time): Table {
    if Refused(t, req) then t
    else t[req.id := UpdatedRecord(Target(t, req.id), req, now)]
  }

  /** A failed endpoint merge keeps the new data and the endpoints merged so far, and reports no event. */
  function UpdateOutcome(t: Table, req: UpdateRequest, now: Time): Outcome {
    if Refused(t, req) then TooManyAffiliates
    else
      var m := Merge(Target(t, req.id).endpoints, req.endpoints, now + req.ttl);
      if m.overflow then TooManyEndpoints
      else if req.data == [] && !m.changed then Updated(None)
      else Updated(Some(Upsert(InfoOf(UpdatedRecord(Target(t, req.id), req, now)))))
  }

  function DeleteEvent(t: Table, id: Id): Option<Event> {
    if id in t then Some(Delete(id)) else None
  }

  /** The endpoints whose expiry lies after `now`, in order. */
  function Live(eps: seq<Endpoint>, now: Time): seq<Endpoint> {
    if eps == [] then []
    else
      var last := |eps| - 1;
      Live(eps[..last], now) + if eps[last].expiry > now then [eps[last]] else []
  }

  function PrunedRecord(rec: Record, now: Time): Record {
    rec.(endpoints := Live(rec.endpoints, now))
  }

  function PruneTable(t: Table, now: Time): Table {
    map id | id in t && t[id].expiry > now :: PrunedRecord(t[id], now)
  }

  /** Only the affiliates in `ids` pruned: the table partway through a prune. */
  ghost function PartlyPruned(t: Table, now: Time, ids: set<Id>): Table {
    map id | id in t && (id in ids ==> t[id].expiry > now) :: if id in ids then PrunedRecord(t[id], now) else t[id]
  }

  function PruneEvent(rec: Record, now: Time): Option<Event> {
    if rec.expiry <= now then Some(Delete(rec.id))
    else if Live(rec.endpoints, now) != rec.endpoints then Some(Upsert(InfoOf(PrunedRecord(rec, now))))
    else None
  }

  function Ids(evs: seq<Event>): (ids: seq<Id>)
    ensures |ids| == |evs|
    ensures forall i :: 0 <= i < |evs| ==> ids[i] == EventId(evs[i])
  {
    if evs == [] then [] else Ids(evs[..|evs| - 1]) + [EventId(evs[|evs| - 1])]
  }

  /** The events of one prune, in whatever order the map was iterated: one per record that changes. */
  ghost predicate IsPruneBatch(t: Table, now: Time, evs: seq<Event>) {
    && NoDuplicates(Ids(evs))
    && (forall ev :: ev in evs ==> EventId(ev) in t && PruneEvent(t[EventId(ev)], now) == Some(ev))
    && (forall id :: id in t && PruneEvent(t[id], now).Some? ==> PruneEvent(t[id], now).value in evs)
  }

  /** The listing of a table, in whatever order the map was iterated. */
  ghost predicate IsListing(t: Table, infos: seq<Info>) {
    && |infos| == |t|
    && (forall info :: info in infos ==> info.id in t && info == InfoOf(t[info.id]))
    && (forall id :: id in t ==> InfoOf(t[id]) in infos)
  }

  ghost predicate IsSnapshot(c: ClusterValue, infos: seq<Info>) {
    IsListing(c.table, infos)
  }

  // ----- subscriptions -----

  const SUBSCRIPTION_BUFFER: nat := 64

  /** A subscription: unread events, whether it was closed, and whether its error channel got a lost update. */
  datatype Sub = Sub(buffer: seq<Event>, closed: bool, lost: bool)

  predicate Overflows(sub: Sub) {
    !sub.closed && |sub.buffer| >= SUBSCRIPTION_BUFFER
  }

  predicate AnyOverflows(subs: seq<Sub>) {
    exists i :: 0 <= i < |subs| && Overflows(subs[i])
  }

  function NotifySub(sub: Sub, ev: Event): Sub {
    if sub.closed then sub
    else if |sub.buffer| < SUBSCRIPTION_BUFFER then sub.(buffer := sub.buffer + [ev])
    else sub.(closed := true, lost := true)
  }

  function NotifySubs(subs: seq<Sub>, ev: Event): (r: seq<Sub>)
    ensures |r| == |subs|
    ensures forall i :: 0 <= i < |subs| ==> r[i] == NotifySub(subs[i], ev)
  {
    if subs == [] then [] else NotifySubs(subs[..|subs| - 1], ev) + [NotifySub(subs[|subs| - 1], ev)]
  }

  // ----- a cluster -----

  /** A cluster and every subscription it ever had; subscription ids count from 1, so id k is subs[k - 1]. */
  datatype ClusterValue = ClusterValue(id: Id, expiry: Time, table: Table, subs: seq<Sub>)

  function NewCluster(id: Id, now: Time): ClusterValue {
    ClusterValue(id, now + CLUSTER_TTL, map[], [])
  }

  ghost predicate ValidCluster(c: ClusterValue) {
    && ValidTable(c.table)
    && forall i :: 0 <= i < |c.subs| ==> |c.subs[i].buffer| <= SUBSCRIPTION_BUFFER
  }

  /** Fan out one event; evicting a slow subscriber closes it, and closing prolongs the cluster. */
  function Notify(c: ClusterValue, ev: Event, now: Time): ClusterValue {
    c.(subs := NotifySubs(c.subs, ev),
       expiry := if AnyOverflows(c.subs) then now + CLUSTER_TTL else c.expiry)
  }

  function NotifyEach(c: ClusterValue, evs: seq<Event>, now: Time): ClusterValue {
    if evs == [] then c
    else Notify(NotifyEach(c, evs[..|evs| - 1], now), evs[|evs| - 1], now)
  }

  function NotifyOption(c: ClusterValue, ev: Option<Event>, now: Time): ClusterValue {
    if ev.Some? then Notify(c, ev.value, now) else c
  }

  function UpdateCluster(c: ClusterValue, req: UpdateRequest, now: Time): ClusterValue {
    var outcome := UpdateOutcome(c.table, req, now);
    NotifyOption(c.(table := UpdateTable(c.table, req, now)),
                 if outcome.Updated? then outcome.event else None, now)
  }

  function DeleteFromCluster(c: ClusterValue, id: Id, now: Time): ClusterValue {
    if id in c.table then Notify(c.(table := c.table - {id}, expiry := now + CLUSTER_TTL), Delete(id), now)
    else c
  }

  function PruneCluster(c: ClusterValue, evs: seq<Event>, now: Time): ClusterValue {
    NotifyEach(c.(table := PruneTable(c.table, now)), evs, now)
  }

  function SubscribeTo(c: ClusterValue): ClusterValue {
    c.(subs := c.subs + [Sub([], false, false)])
  }

  function CloseSub(c: ClusterValue, i: nat, now: Time): ClusterValue
    requires i < |c.subs|
  {
    if c.subs[i].closed then c
    else c.(subs := c.subs[i := c.subs[i].(closed := true)], expiry := now + CLUSTER_TTL)
  }

  function Receive(c: ClusterValue, i: nat): ClusterValue
    requires i < |c.subs| && c.subs[i].buffer != []
  {
    c.(subs := c.subs[i := c.subs[i].(buffer := c.subs[i].buffer[1..])])
  }

  ghost predicate HasSubscribers(c: ClusterValue) {
    exists i :: 0 <= i < |c.subs| && !c.subs[i].closed
  }

  ghost predicate Empty(c: ClusterValue) {
    c.table == map[] && !HasSubscribers(c)
  }

  ghost predicate Expired(c: ClusterValue, now: Time) {
    now > c.expiry
  }

  // ----- a watching client -----

  /** The client's copy of a cluster, built from a snapshot and events. */
  type Mirror = map<Id, Info>

  function Apply(m: Mirror, ev: Event): Mirror {
    match ev
    case Upsert(info) => m[info.id := info]
    case Delete(id) => m - {id}
  }

  function Replay(m: Mirror, evs: seq<Event>): Mirror {
    if evs == [] then m else Apply(Replay(m, evs[..|evs| - 1]), evs[|evs| - 1])
  }

  function ApplyOption(m: Mirror, ev: Option<Event>): Mirror {
    if ev.Some? then Apply(m, ev.value) else m
  }

  function MirrorOf(t: Table): Mirror {
    map id | id in t :: InfoOf(t[id])
  }

  /** An affiliate that was created without data and endpoints is never announced. */
  ghost predicate Unannounced(rec: Record) {
    rec.data == [] && rec.endpoints == []
  }

  ghost predicate AgreesAt(m: Mirror, t: Table, id: Id) {
    if id in m then id in t && m[id] == InfoOf(t[id])
    else id in t ==> Unannounced(t[id])
  }

  /** The client's copy is the server's table, up to affiliates that were never announced. */
  ghost predicate Agrees(m: Mirror, t: Table) {
    forall id :: AgreesAt(m, t, id)
  }

  /** The copy a client builds from a listed snapshot. */
  function FromListing(infos: seq<Info>): Mirror {
    if infos == [] then map[]
    else
      var last := infos[|infos| - 1];
      FromListing(infos[..|infos| - 1])[last.id := last]
  }

  /** A client that takes over a snapshot has the server's table. */
  lemma ListingMirror(t: Table, infos: seq<Info>)
    requires IsListing(t, infos) && Keyed(t)
    ensures FromListing(infos) == MirrorOf(t)
  {
    FromListingMembers(infos);
    forall id | id in t
      ensures id in FromListing(infos)
    {
      assert InfoOf(t[id]) in infos;
    }
  }

  lemma {:induction false} FromListingMembers(infos: seq<Info>)
    ensures forall info :: info in infos ==> info.id in FromListing(infos)
    ensures forall id :: id in FromListing(infos) ==> FromListing(infos)[id] in infos && FromListing(infos)[id].id == id
  {
    if infos != [] {
      FromListingMembers(infos[..|infos| - 1]);
    }
  }

  lemma ReplaySnoc(m: Mirror, evs: seq<Event>, ev: Event)
    ensures Replay(m, evs + [ev]) == Apply(Replay(m, evs), ev)
  {
    assert (evs + [ev])[..|evs|] == evs;
  }

  lemma {:induction false} ReplayConcat(m: Mirror, evs: seq<Event>, more: seq<Event>)
    ensures Replay(m, evs + more) == Replay(Replay(m, evs), more)
    decreases |more|
  {
    if more == [] {
      assert evs + more == evs;
    } else {
      var front, ev := more[..|more| - 1], more[|more| - 1];
      assert evs + more == (evs + front) + [ev];
      ReplaySnoc(m, evs + front, ev);
      ReplayConcat(m, evs, front);
    }
  }

  lemma NotifyEachSnoc(c: ClusterValue, evs: seq<Event>, ev: Event, now: Time)
    ensures NotifyEach(c, evs + [ev], now) == Notify(NotifyEach(c, evs, now), ev, now)
  {
    assert (evs + [ev])[..|evs|] == evs;
  }

  lemma NotifyEachNext(c: ClusterValue, evs: seq<Event>, j: nat, now: Time)
    requires j < |evs|
    ensures NotifyEach(c, evs[..j + 1], now) == Notify(NotifyEach(c, evs[..j], now), evs[j], now)
  {
    assert evs[..j + 1] == evs[..j] + [evs[j]];
    NotifyEachSnoc(c, evs[..j], evs[j], now);
  }
}
