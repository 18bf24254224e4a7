/** A cluster and its subscriptions, updated in place (internal/state/cluster.go, cluster_subscribe.go). */
module Clusters {
  import opened Basics
  import opened Affiliates
  import opened Registry
  import UpdateLaws
  import PruneLaws

  datatype StateError = ErrTooManyAffiliates | ErrTooManyEndpoints

  const LOST_UPDATE: string := "lost update"

  /** A watcher's end of the fan-out: a buffered event channel and an error channel of capacity one. */
  class Subscription {
    const id: nat
    const cluster: Cluster
    var ch: seq<Event>
    var errCh: seq<string>
    var channelsClosed: bool
    var closed: bool
    /** An update was lost; the error stays queued until the watcher reads it. */
    ghost var lost: bool

    constructor (id: nat, cluster: Cluster)
      ensures this.id == id && this.cluster == cluster
      ensures Value() == Sub([], false, false) && Coherent() && errCh == []
    {
      this.id, this.cluster := id, cluster;
      ch, errCh, channelsClosed, closed, lost := [], [], false, false, false;
    }

    ghost function Value(): Sub
      reads this
    {
      Sub(ch, closed, lost)
    }

    /** The channels are closed exactly when the flag is set, and at most one error is queued. */
    ghost predicate Coherent()
      reads this
    {
      channelsClosed == closed && |errCh| <= 1 && (errCh != [] ==> lost) && (lost ==> closed)
    }

    /** This is subscription number i of cluster c, and `v` is its value. */
    ghost predicate Holds(c: Cluster, i: int, v: Sub)
      reads this
    {
      id == i + 1 && cluster == c && Coherent() && Value() == v
    }

    /** The subscription is the one its cluster issued under its id. */
    ghost predicate Issued()
      reads this, cluster`issued, cluster`subscribers, cluster`nextSubID, cluster`subs, cluster.issued
    {
      1 <= id <= |cluster.issued| && cluster.issued[id - 1] == this && cluster.SubscribersValid()
    }

    /** Close runs its body once: it removes the subscription, closes both channels and prolongs the cluster. */
    method Close(now: Time)
      requires Issued()
      modifies this, cluster`subscribers, cluster`expiry, cluster`subs
      ensures Issued() && closed && cluster.subscribers == old(cluster.subscribers) - {id}
      ensures cluster.Value() == CloseSub(old(cluster.Value()), id - 1, now)
      ensures errCh == old(errCh) && ch == old(ch)
      ensures cluster.expiry == if old(closed) then old(cluster.expiry) else now + 1_800_000_000_000
    {
      Shut(now, []);
    }

    /** The others are other objects. */
    lemma Alone()
      requires Issued()
      ensures forall j: nat :: j < |cluster.issued| && j != id - 1 ==> cluster.issued[j] != this
    {
      forall j: nat | j < |cluster.issued| && j != id - 1
        ensures cluster.issued[j] != this
      {
        assert cluster.issued[j].Holds(cluster, j, cluster.subs[j]);
      }
    }

    /** The body of Close, with the error that notify may have queued just before it. */
    method Shut(now: Time, errors: seq<string>)
      requires Issued() && |errors| <= 1
      modifies this, cluster`subscribers, cluster`expiry, cluster`subs
      ensures Issued() && closed && cluster.subscribers == old(cluster.subscribers) - {id}
      ensures errCh == (if old(closed) then old(errCh) else errors) && ch == old(ch)
      ensures cluster.subs ==
                if old(closed) then old(cluster.subs)
                else old(cluster.subs)[id - 1 := Sub(old(ch), true, errors != [])]
      ensures cluster.expiry == if old(closed) then old(cluster.expiry) else now + CLUSTER_TTL
    {
      assert Holds(cluster, id - 1, cluster.subs[id - 1]);
      if closed {
        assert cluster.subscribers - {id} == cluster.subscribers;
        return;
      }
      Alone();
      errCh := errors;
      lost := errors != [];
      closed := true;
      var owned := id in cluster.subscribers;
      if owned {
        cluster.subscribers := cluster.subscribers - {id};
      }
      if owned {
        channelsClosed := true;
        cluster.expiry := now + CLUSTER_TTL;
      }
      cluster.subs := cluster.subs[id - 1 := Value()];
      cluster.OneMoved(id - 1);
    }

    /** Take the error out of the error channel, if one is queued. */
    method ReceiveError() returns (e: Option<string>)
      requires Issued()
      modifies this`errCh
      ensures Issued() && errCh == []
      ensures e == if old(errCh) == [] then None else Some(old(errCh)[0])
    {
      assert Holds(cluster, id - 1, cluster.subs[id - 1]);
      if |errCh| == 0 {
        return None;
      }
      e := Some(errCh[0]);
      errCh := errCh[1..];
    }

    /** Take the oldest unread event out of the channel. */
    method Receive() returns (ev: Event)
      requires Issued() && ch != []
      modifies this`ch, cluster`subs
      ensures Issued() && ev == old(ch)[0] && ch == old(ch)[1..]
      ensures id <= |old(cluster.subs)| && old(cluster.subs)[id - 1].buffer == [ev] + ch
      ensures cluster.Value() == Registry.Receive(old(cluster.Value()), id - 1)
    {
      assert Holds(cluster, id - 1, cluster.subs[id - 1]);
      Alone();
      ev := ch[0];
      ch := ch[1..];
      cluster.subs := cluster.subs[id - 1 := Value()];
      cluster.OneMoved(id - 1);
    }

    /** Offer one event without blocking; a full buffer means a lost update and closes the subscription. */
    method Notify(ev: Event, now: Time)
      requires Issued()
      modifies this, cluster`subscribers, cluster`expiry, cluster`subs
      ensures Issued()
      ensures cluster.Value() == NotifyOneSub(old(cluster.Value()), id - 1, ev, now)
      ensures errCh == if Overflows(old(Value())) then [LOST_UPDATE] else old(errCh)
      ensures cluster.subscribers ==
                if Overflows(old(Value())) then old(cluster.subscribers) - {id} else old(cluster.subscribers)
      ensures ch == if !old(closed) && |old(ch)| < 64 then old(ch) + [ev] else old(ch)
      ensures closed == (old(closed) || |old(ch)| >= 64)
    {
      assert Holds(cluster, id - 1, cluster.subs[id - 1]);
      if closed {
        assert cluster.subs[id - 1 := cluster.subs[id - 1]] == cluster.subs;
        return;
      }
      if |ch| < SUBSCRIPTION_BUFFER {
        ch := ch + [ev];
        cluster.subs := cluster.subs[id - 1 := Value()];
        return;
      }
      Shut(now, [LOST_UPDATE]);
    }
  }

  /** What one notification does to its cluster. */
  ghost function NotifyOneSub(c: ClusterValue, i: nat, ev: Event, now: Time): ClusterValue
    requires i < |c.subs|
  {
    c.(subs := c.subs[i := NotifySub(c.subs[i], ev)],
       expiry := if Overflows(c.subs[i]) then now + CLUSTER_TTL else c.expiry)
  }

  /** These are the subscriptions a cluster issued under these ids. */
  ghost predicate AreIssued(issued: seq<Subscription>, subs: seq<Subscription>, ids: seq<nat>) {
    |subs| == |ids| && forall j :: 0 <= j < |ids| ==> 1 <= ids[j] <= |issued| && subs[j] == issued[ids[j] - 1]
  }

  lemma IssuedAt(issued: seq<Subscription>, subs: seq<Subscription>, ids: seq<nat>, j: nat) returns (k: nat)
    requires AreIssued(issued, subs, ids) && j < |ids|
    ensures k == ids[j] && 1 <= k <= |issued| && |subs| == |ids| && subs[j] == issued[k - 1]
  {
    k := ids[j];
  }

  class Cluster {
    const id: Id
    var expiry: Time
    var affiliates: map<Id, Affiliate>
    var nextSubID: nat
    var subscribers: map<nat, Subscription>
    /** Every subscription the cluster ever handed out, in order of their ids. */
    ghost var issued: seq<Subscription>
    /** Every affiliate object the cluster ever created. */
    ghost var members: set<Affiliate>
    /** The objects the cluster may change. */
    ghost var repr: set<object>
    /** The affiliates and the subscriptions as values. */
    ghost var table: Table
    ghost var subs: seq<Sub>

    ghost function Value(): ClusterValue
      reads this`expiry, this`table, this`subs
    {
      ClusterValue(id, expiry, table, subs)
    }

    /** Ids count the subscriptions issued so far, so none is reused; exactly the open ones are listed. */
    ghost predicate SubscribersValid()
      reads this`issued, this`subscribers, this`nextSubID, this`subs, issued
    {
      && nextSubID == |issued| == |subs|
      && (forall i :: 0 <= i < |issued| ==> issued[i].Holds(this, i, subs[i]))
      && (forall k :: k in subscribers ==> 1 <= k <= |issued| && subscribers[k] == issued[k - 1])
      && (forall i :: 0 <= i < |issued| ==> (i + 1 in subscribers <==> !subs[i].closed))
    }

    /** A change of one subscription that keeps the cluster's record of it up to date. */
    twostate lemma OneMoved(i: nat)
      requires old(SubscribersValid()) && unchanged(this`issued) && unchanged(this`nextSubID) && i < |issued| == |subs|
      requires subs == old(subs)[i := subs[i]] && issued[i].Holds(this, i, subs[i])
      requires forall j: nat :: j < |issued| && j != i ==> unchanged(issued[j])
      requires subscribers == old(subscribers) || subscribers == old(subscribers) - {i + 1}
      requires i + 1 in subscribers <==> !subs[i].closed
      ensures SubscribersValid()
    {
      forall j: nat | j < |issued|
        ensures issued[j].Holds(this, j, subs[j])
      {
        assert old(issued[j].Holds(this, j, subs[j]));
      }
    }

    ghost predicate AffiliatesValid()
      reads this`affiliates, this`table, this`members, members
    {
      && affiliates.Keys == table.Keys
      && (forall k :: k in affiliates ==>
            affiliates[k] in members && affiliates[k].id == k && affiliates[k].Value() == table[k])
      && forall a :: a in members ==> a.owner == this
    }

    ghost predicate Owned()
      reads this`members, this`issued, this`repr
    {
      && this in repr
      && (forall a :: a in members ==> a in repr)
      && (forall s :: s in issued ==> s in repr)
    }

    ghost predicate Consistent()
      reads this, members, issued
    {
      SubscribersValid() && AffiliatesValid()
    }

    ghost predicate Valid()
      reads this, repr
    {
      Owned() && Consistent()
    }

    constructor (id: Id, now: Time)
      ensures Valid() && repr == {this}
      ensures Value() == NewCluster(id, now)
      ensures this.id == id && expiry == now + 1_800_000_000_000 && affiliates == map[] && subscribers == map[]
    {
      this.id := id;
      expiry := now + CLUSTER_TTL;
      affiliates, subscribers, nextSubID, issued := map[], map[], 0, [];
      table, subs, members, repr := map[], [], {}, {this};
    }

    method IsExpired(now: Time) returns (r: bool)
      requires Valid()
      ensures r <==> Expired(Value(), now)
    {
      r := now > expiry;
    }

    method IsEmpty() returns (r: bool)
      requires Valid()
      ensures r <==> Empty(Value())
    {
      var noAffiliates := |affiliates| == 0;
      var noSubscribers := |subscribers| == 0;
      if k :| k in subscribers {
        assert !subs[k - 1].closed;
      }
      if HasSubscribers(Value()) {
        var i :| 0 <= i < |issued| && !subs[i].closed;
        assert i + 1 in subscribers;
      }
      r := noAffiliates && noSubscribers;
    }

    // ----- fan-out -----

    /** The subscribers at one moment, in any order; `ids` are theirs. */
    method CopySubscribers() returns (copied: seq<Subscription>, ghost ids: seq<nat>)
      requires SubscribersValid()
      ensures AreIssued(issued, copied, ids) && NoDuplicates(ids)
      ensures forall i :: 0 <= i < |issued| ==> (i + 1 in ids <==> !subs[i].closed)
    {
      var keys := AnyOrder(subscribers.Keys);
      assert forall j :: 0 <= j < |keys| ==> keys[j] in keys;
      copied := seq(|keys|, j requires 0 <= j < |keys| && keys[j] in subscribers reads this => subscribers[keys[j]]);
      ids := keys;
    }

    method NotifyOne(sub: Subscription, ghost k: nat, ev: Event, now: Time)
      requires SubscribersValid() && 1 <= k <= |issued| && sub == issued[k - 1]
      modifies this`subscribers, this`expiry, this`subs, sub
      ensures SubscribersValid()
      ensures Value() == NotifyOneSub(old(Value()), k - 1, ev, now)
    {
      assert sub.Holds(this, k - 1, subs[k - 1]);
      sub.Notify(ev, now);
    }

    /** Fan out to a copy of the subscribers, in any order. */
    method Notify(ev: Event, now: Time)
      requires SubscribersValid()
      modifies this`subscribers, this`expiry, this`subs, issued
      ensures SubscribersValid()
      ensures Value() == Registry.Notify(old(Value()), ev, now)
    {
      ghost var before, all := Value(), issued;
      var copied, ids := CopySubscribers();
      ghost var told: set<nat> := {};
      for j := 0 to |copied|
        invariant SubscribersValid() && issued == all
        invariant Visited(told, ids, j)
        invariant PartlyTold(before, Value(), told, ev, now)
      {
        VisitNext(told, ids, j);
        ghost var k := IssuedAt(all, copied, ids, j);
        ToldStep(before, Value(), told, ev, now, k);
        NotifyOne(copied[j], k, ev, now);
        told := told + {k};
      }
      VisitedAll(told, ids);
      AllTold(before, Value(), told, ev, now);
    }

    // ----- affiliates -----

    /** Notify, with the affiliates untouched. */
    method Announce(ev: Event, now: Time)
      requires Consistent()
      modifies this`subscribers, this`expiry, this`subs, issued
      ensures Consistent()
      ensures Value() == Registry.Notify(old(Value()), ev, now)
    {
      Notify(ev, now);
    }

    /** The affiliate an update works on, created if there is room for it. */
    method FindOrCreate(id: Id) returns (affiliate: Affiliate?)
      requires AffiliatesValid()
      modifies this`affiliates, this`table, this`members
      ensures AffiliatesValid() && fresh(members - old(members))
      ensures affiliate == null <==> id !in old(table) && |old(table)| >= AFFILIATES_MAX
      ensures affiliate == null ==> affiliates == old(affiliates) && table == old(table)
      ensures affiliate != null ==>
                && id in affiliates && affiliates[id] == affiliate
                && affiliate in members && (affiliate in old(members) || fresh(affiliate))
                && table == old(table)[id := Target(old(table), id)]
    {
      if id in affiliates {
        affiliate := affiliates[id];
        assert table[id := table[id]] == table;
        return;
      }
      assert |affiliates.Keys| == |table.Keys|;
      if |affiliates| >= AFFILIATES_MAX {
        return null;
      }
      var created := new Affiliate(id, this);
      affiliate := created;
      affiliates := affiliates[id := created];
      members := members + {created};
      table := table[id := created.Value()];
    }

    /** Change one affiliate in place, and say what to announce. */
    method ChangeInPlace(affiliate: Affiliate, req: UpdateRequest, now: Time) returns (ev: Option<Event>, ok: bool)
      modifies affiliate
      ensures affiliate.Value() == UpdatedRecord(old(affiliate.Value()), req, now)
      ensures ok == !Merge(old(affiliate.Value()).endpoints, req.endpoints, now + req.ttl).overflow
      ensures ev == EventFor(old(affiliate.Value()), req, now)
    {
      var expiry := now + req.ttl;
      var dataChanged := false;
      if |req.data| > 0 {
        affiliate.expiry := expiry;
        affiliate.data := req.data;
        dataChanged := true;
      }
      assert affiliate.Value() == WithData(old(affiliate.Value()), req.data, expiry);
      var endpointsChanged, merged := affiliate.MergeEndpoints(req.endpoints, expiry);
      assert affiliate.Value() == UpdatedRecord(old(affiliate.Value()), req, now);
      if !merged || (!dataChanged && !endpointsChanged) {
        return None, merged;
      }
      var info := affiliate.ToInfo();
      return Some(Upsert(info)), true;
    }

    method ApplyUpdate(affiliate: Affiliate, req: UpdateRequest, now: Time) returns (ev: Option<Event>, ok: bool)
      requires AffiliatesValid() && req.id in affiliates && affiliates[req.id] == affiliate
      modifies this`table, affiliate
      ensures AffiliatesValid()
      ensures table == old(table)[req.id := UpdatedRecord(old(affiliate.Value()), req, now)]
      ensures ok == !Merge(old(affiliate.Value()).endpoints, req.endpoints, now + req.ttl).overflow
      ensures ev == EventFor(old(affiliate.Value()), req, now)
    {
      ev, ok := ChangeInPlace(affiliate, req, now);
      table := table[req.id := affiliate.Value()];
    }

    /** Under the affiliates lock: change the table, and say what to announce. */
    method UpdateAffiliateLocked(req: UpdateRequest, now: Time) returns (ev: Option<Event>, err: Option<StateError>)
      requires AffiliatesValid()
      modifies this`affiliates, this`table, this`members, members
      ensures AffiliatesValid()
      ensures table == UpdateTable(old(table), req, now)
      ensures fresh(members - old(members))
      ensures err == ErrorOf(UpdateOutcome(old(table), req, now))
      ensures ev == UpdateLaws.EventOf(old(table), req, now)
    {
      ghost var t := table;
      var affiliate := FindOrCreate(req.id);
      if affiliate == null {
        return None, Some(ErrTooManyAffiliates);
      }
      assert affiliate.Value() == Target(t, req.id);
      var ok;
      ev, ok := ApplyUpdate(affiliate, req, now);
      OutcomeFor(t, req, now);
      err := if ok then None else Some(ErrTooManyEndpoints);
    }

    method UpdateAffiliate(req: UpdateRequest, now: Time) returns (err: Option<StateError>)
      requires Valid()
      modifies repr
      ensures Valid() && old(repr) <= repr && fresh(repr - old(repr))
      ensures Value() == UpdateCluster(old(Value()), req, now)
      ensures err == ErrorOf(UpdateOutcome(old(table), req, now))
    {
      err := UpdateAndNotify(req, now);
      repr := repr + (set a | a in members :: a as object);
    }

    method UpdateAndNotify(req: UpdateRequest, now: Time) returns (err: Option<StateError>)
      requires Consistent()
      modifies this`subscribers, this`expiry, this`affiliates, this`table, this`members, this`subs, issued, members
      ensures Consistent() && fresh(members - old(members))
      ensures Value() == UpdateCluster(old(Value()), req, now)
      ensures err == ErrorOf(UpdateOutcome(old(table), req, now))
    {
      var ev, e := UpdateAffiliateLocked(req, now);
      UpdateNotifies(old(Value()), req, now);
      if e.Some? {
        return e;
      }
      if ev.Some? {
        Announce(ev.value, now);
      }
      return None;
    }

    /** Under the affiliates lock: remove the affiliate, and say whether it was there. */
    method DeleteAffiliateLocked(id: Id) returns (found: bool)
      requires AffiliatesValid()
      modifies this`affiliates, this`table
      ensures AffiliatesValid()
      ensures found == (id in old(table)) && table == old(table) - {id}
    {
      found := id in affiliates;
      assert !found ==> table - {id} == table;
      affiliates := affiliates - {id};
      table := table - {id};
    }

    method DeleteAffiliate(id: Id, now: Time)
      requires Valid()
      modifies repr
      ensures Valid() && repr == old(repr)
      ensures Value() == DeleteFromCluster(old(Value()), id, now)
    {
      DeleteAndNotify(id, now);
    }

    method DeleteAndNotify(id: Id, now: Time)
      requires Consistent()
      modifies this`subscribers, this`expiry, this`affiliates, this`table, this`subs, issued
      ensures Consistent()
      ensures Value() == DeleteFromCluster(old(Value()), id, now)
    {
      ghost var before := Value();
      assert id !in table ==> table - {id} == table;
      var found := DeleteAffiliateLocked(id);
      if found {
        ProlongExpiry(now);
        assert Value() == before.(table := before.table - {id}, expiry := now + CLUSTER_TTL);
        Announce(Delete(id), now);
      }
    }

    method ProlongExpiry(now: Time)
      modifies this`expiry
      ensures expiry == now + CLUSTER_TTL
    {
      expiry := now + CLUSTER_TTL;
    }

    /** A listing of the affiliates, in any order. */
    method ListAffiliates() returns (out: seq<Info>)
      requires Valid()
      ensures IsSnapshot(Value(), out)
    {
      var ids := AnyOrder(affiliates.Keys);
      out := [];
      for j := 0 to |ids|
        invariant |out| == j
        invariant forall i :: 0 <= i < j ==> ids[i] in table && out[i] == InfoOf(table[ids[i]])
      {
        assert ids[j] in ids;
        var info := affiliates[ids[j]].ToInfo();
        out := out + [info];
      }
      ListedExactly(table, ids, out);
    }

    /** Put one record back, as loading a snapshot does; a record with the same id is replaced. */
    method Restore(rec: Record)
      requires Valid()
      modifies this`affiliates, this`table, this`members, this`repr
      ensures Valid() && old(repr) <= repr && fresh(repr - old(repr))
      ensures Value() == old(Value()).(table := old(table)[rec.id := rec])
    {
      PutBack(rec);
      repr := repr + (set a | a in members :: a as object);
    }

    method PutBack(rec: Record)
      requires AffiliatesValid()
      modifies this`affiliates, this`table, this`members
      ensures AffiliatesValid() && fresh(members - old(members)) && table == old(table)[rec.id := rec]
    {
      var aff := new Affiliate.Restored(rec, this);
      affiliates := affiliates[rec.id := aff];
      members := members + {aff};
      table := table[rec.id := rec];
    }

    // ----- pruning -----

    /** The endpoints that outlive `now`, and whether any was dropped. */
    method LiveEndpoints(eps: seq<Endpoint>, now: Time) returns (live: seq<Endpoint>, changed: bool)
      ensures live == Live(eps, now)
      ensures changed <==> live != eps
    {
      live, changed := [], false;
      for j := 0 to |eps|
        invariant live == Live(eps[..j], now)
        invariant changed <==> live != eps[..j]
      {
        LiveNext(eps, j, now);
        if eps[j].expiry > now {
          live := live + [eps[j]];
        } else {
          changed := true;
        }
      }
      assert eps[..|eps|] == eps;
    }

    /** Under the affiliates lock: drop what expired, visiting the affiliates in any order. */
    method PruneAffiliates(now: Time) returns (events: seq<Event>)
      requires AffiliatesValid()
      modifies this`affiliates, this`table, members
      ensures AffiliatesValid()
      ensures IsPruneBatch(old(table), now, events)
      ensures table == PruneTable(old(table), now)
    {
      ghost var t := table;
      events := [];
      var ids := AnyOrder(affiliates.Keys);
      ghost var done: set<Id> := {};
      NothingPruned(t, now);
      for j := 0 to |ids|
        invariant AffiliatesValid()
        invariant Visited(done, ids, j)
        invariant table == PartlyPruned(t, now, done)
        invariant IsBatchOf(t, now, done, events)
      {
        assert ids[j] in ids;
        VisitNext(done, ids, j);
        var e := PruneOne(ids[j], t, now, done);
        BatchStep(t, now, done, events, ids[j]);
        events := events + e;
        done := done + {ids[j]};
      }
      VisitedAll(done, ids);
      WholeBatch(t, now, done, events);
    }

    method PruneOne(id: Id, ghost t: Table, now: Time, ghost done: set<Id>) returns (events: seq<Event>)
      requires AffiliatesValid() && id in t && id !in done && t[id].id == id
      requires table == PartlyPruned(t, now, done)
      modifies this`affiliates, this`table, members
      ensures AffiliatesValid()
      ensures table == PartlyPruned(t, now, done + {id})
      ensures events == EventsFor(t, now, id)
    {
      var aff := affiliates[id];
      if aff.expiry <= now {
        PartlyPrunedDrop(t, now, done, id);
        var found := DeleteAffiliateLocked(id);
        return [Delete(id)];
      }
      PartlyPrunedKeep(t, now, done, id);
      var ev := PruneEndpoints(aff, now);
      return if ev.Some? then [ev.value] else [];
    }

    /** Drop the expired endpoints of one affiliate, in place. */
    method PruneEndpoints(aff: Affiliate, now: Time) returns (ev: Option<Event>)
      requires AffiliatesValid() && aff.id in affiliates && affiliates[aff.id] == aff
      modifies this`table, aff
      ensures AffiliatesValid()
      ensures aff.id in old(table) && table == old(table)[aff.id := PrunedRecord(old(table)[aff.id], now)]
      ensures var rec := old(table)[aff.id];
              ev == if Live(rec.endpoints, now) == rec.endpoints then None
                    else Some(Upsert(InfoOf(PrunedRecord(rec, now))))
    {
      ev := KeepLive(aff, now);
      table := table[aff.id := aff.Value()];
    }

    method KeepLive(aff: Affiliate, now: Time) returns (ev: Option<Event>)
      modifies aff
      ensures aff.Value() == PrunedRecord(old(aff.Value()), now)
      ensures ev == if Live(old(aff.endpoints), now) == old(aff.endpoints) then None
                    else Some(Upsert(InfoOf(aff.Value())))
    {
      var live, changed := LiveEndpoints(aff.endpoints, now);
      if changed {
        aff.endpoints := live;
        var info := aff.ToInfo();
        return Some(Upsert(info));
      }
      return None;
    }

    /** Prune under the lock, then fan out each event; `events` is the order they were found in. */
    method Prune(now: Time) returns (ghost events: seq<Event>)
      requires Valid()
      modifies repr
      ensures Valid() && repr == old(repr)
      ensures IsPruneBatch(old(table), now, events)
      ensures Value() == PruneCluster(old(Value()), events, now)
    {
      events := PruneAndNotify(now);
    }

    method PruneAndNotify(now: Time) returns (ghost events: seq<Event>)
      requires Consistent()
      modifies this`subscribers, this`expiry, this`affiliates, this`table, this`subs, issued, members
      ensures Consistent()
      ensures IsPruneBatch(old(table), now, events)
      ensures Value() == PruneCluster(old(Value()), events, now)
    {
      var found := PruneAffiliates(now);
      events := found;
      assert Value() == old(Value()).(table := PruneTable(old(table), now));
      AnnounceEach(found, now);
    }

    method AnnounceEach(evs: seq<Event>, now: Time)
      requires Consistent()
      modifies this`subscribers, this`expiry, this`subs, issued
      ensures Consistent()
      ensures Value() == NotifyEach(old(Value()), evs, now)
    {
      ghost var before := Value();
      for j := 0 to |evs|
        invariant Consistent()
        invariant Value() == NotifyEach(before, evs[..j], now)
      {
        NotifyEachNext(before, evs, j, now);
        Announce(evs[j], now);
      }
      assert evs[..|evs|] == evs;
    }

    // ----- subscribing -----

    /** One step under both locks: list the affiliates and register a subscription with the next id. */
    method SubscribeWithSnapshot() returns (snapshot: seq<Info>, sub: Subscription)
      requires Valid()
      modifies this`nextSubID, this`subscribers, this`issued, this`subs, this`repr
      ensures Valid() && fresh(sub) && sub.cluster == this
      ensures 1 <= sub.id == |issued| && issued[sub.id - 1] == sub
      ensures !sub.closed && sub.ch == [] && sub.errCh == [] && sub.id in subscribers && subscribers[sub.id] == sub
      ensures repr == old(repr) + {sub}
      ensures Value() == SubscribeTo(old(Value()))
      ensures IsSnapshot(old(Value()), snapshot)
    {
      snapshot := ListAffiliates();
      sub := Register();
    }

    method Register() returns (sub: Subscription)
      requires Valid()
      modifies this`nextSubID, this`subscribers, this`issued, this`subs, this`repr
      ensures Valid() && fresh(sub) && sub.cluster == this
      ensures 1 <= sub.id == |issued| && issued[sub.id - 1] == sub
      ensures !sub.closed && sub.ch == [] && sub.errCh == [] && sub.id in subscribers && subscribers[sub.id] == sub
      ensures repr == old(repr) + {sub}
      ensures Value() == SubscribeTo(old(Value()))
    {
      sub := Issue();
      repr := repr + {sub};
    }

    /** Hand out the next id; no subscription was ever listed under it. */
    method Issue() returns (sub: Subscription)
      requires SubscribersValid()
      modifies this`nextSubID, this`subscribers, this`issued, this`subs
      ensures SubscribersValid() && fresh(sub) && sub.cluster == this
      ensures issued == old(issued) + [sub] && sub.id == |issued| && sub.id !in old(subscribers)
      ensures !sub.closed && sub.ch == [] && sub.errCh == [] && sub.id in subscribers && subscribers[sub.id] == sub
      ensures Value() == SubscribeTo(old(Value()))
    {
      nextSubID := nextSubID + 1;
      sub := new Subscription(nextSubID, this);
      subscribers := subscribers[nextSubID := sub];
      issued := issued + [sub];
      subs := subs + [sub.Value()];
      assert issued[|issued| - 1] == sub;
    }
  }

  /** What the update of one record announces. */
  function EventFor(rec: Record, req: UpdateRequest, now: Time): Option<Event> {
    var m := Merge(rec.endpoints, req.endpoints, now + req.ttl);
    if !m.overflow && (req.data != [] || m.changed) then Some(Upsert(InfoOf(UpdatedRecord(rec, req, now)))) else None
  }

  lemma UpdateNotifies(c: ClusterValue, req: UpdateRequest, now: Time)
    ensures UpdateCluster(c, req, now) ==
              NotifyOption(c.(table := UpdateTable(c.table, req, now)), UpdateLaws.EventOf(c.table, req, now), now)
    ensures ErrorOf(UpdateOutcome(c.table, req, now)).Some? ==> UpdateLaws.EventOf(c.table, req, now).None?
  {
  }

  lemma OutcomeFor(t: Table, req: UpdateRequest, now: Time)
    requires !Refused(t, req)
    ensures UpdateLaws.EventOf(t, req, now) == EventFor(Target(t, req.id), req, now)
    ensures ErrorOf(UpdateOutcome(t, req, now)) ==
              if Merge(Target(t, req.id).endpoints, req.endpoints, now + req.ttl).overflow
              then Some(ErrTooManyEndpoints) else None
    ensures UpdateTable(t, req, now) ==
              t[req.id := Target(t, req.id)][req.id := UpdatedRecord(Target(t, req.id), req, now)]
  {
    OutcomeEvent(t, req, now);
    PutTwice(t, req.id, Target(t, req.id), UpdatedRecord(Target(t, req.id), req, now));
  }

  lemma OutcomeEvent(t: Table, req: UpdateRequest, now: Time)
    requires !Refused(t, req)
    ensures UpdateLaws.EventOf(t, req, now) == EventFor(Target(t, req.id), req, now)
  {
  }

  lemma PutTwice(t: Table, id: Id, rec: Record, rec': Record)
    ensures t[id := rec][id := rec'] == t[id := rec']
  {
  }

  function ErrorOf(outcome: Outcome): Option<StateError> {
    match outcome
    case Updated(_) => None
    case TooManyAffiliates => Some(ErrTooManyAffiliates)
    case TooManyEndpoints => Some(ErrTooManyEndpoints)
  }

  lemma ListedExactly(t: Table, ids: seq<Id>, out: seq<Info>)
    requires Keyed(t) && NoDuplicates(ids) && forall id :: id in ids <==> id in t
    requires |out| == |ids| && forall i :: 0 <= i < |ids| ==> ids[i] in t && out[i] == InfoOf(t[ids[i]])
    ensures IsListing(t, out)
  {
    NoDuplicatesCardinality(ids);
    assert Elems(ids) == t.Keys;
    forall id | id in t
      ensures InfoOf(t[id]) in out
    {
      var i :| 0 <= i < |ids| && ids[i] == id;
      assert out[i] == InfoOf(t[id]);
    }
  }

  /** The events of a prune for the affiliates visited so far. */
  ghost predicate IsBatchOf(t: Table, now: Time, done: set<Id>, evs: seq<Event>) {
    && NoDuplicates(Ids(evs))
    && (forall ev :: ev in evs ==>
          EventId(ev) in done && EventId(ev) in t && PruneEvent(t[EventId(ev)], now) == Some(ev))
    && (forall id :: id in done && id in t && PruneEvent(t[id], now).Some? ==> PruneEvent(t[id], now).value in evs)
  }

  ghost function EventsFor(t: Table, now: Time, id: Id): seq<Event>
    requires id in t
  {
    if PruneEvent(t[id], now).Some? then [PruneEvent(t[id], now).value] else []
  }

  lemma BatchStep(t: Table, now: Time, done: set<Id>, evs: seq<Event>, id: Id)
    requires Keyed(t) && IsBatchOf(t, now, done, evs) && id in t && id !in done
    ensures IsBatchOf(t, now, done + {id}, evs + EventsFor(t, now, id))
  {
    if PruneEvent(t[id], now).Some? {
      BatchGrows(t, now, done, evs, PruneEvent(t[id], now).value);
    } else {
      assert evs + [] == evs;
    }
  }

  lemma BatchGrows(t: Table, now: Time, done: set<Id>, evs: seq<Event>, ev: Event)
    requires IsBatchOf(t, now, done, evs) && EventId(ev) !in done
    requires EventId(ev) in t && PruneEvent(t[EventId(ev)], now) == Some(ev)
    ensures IsBatchOf(t, now, done + {EventId(ev)}, evs + [ev])
  {
    var all := evs + [ev];
    assert Ids(all) == Ids(evs) + [EventId(ev)];
    PruneLaws.IdInIds(evs, EventId(ev));
    NoDuplicatesAppend(Ids(evs), EventId(ev));
    assert all[|evs|] == ev;
    assert forall e :: e in evs ==> e in all;
  }

  lemma LiveNext(eps: seq<Endpoint>, j: nat, now: Time)
    requires j < |eps|
    ensures Live(eps[..j + 1], now) == Live(eps[..j], now) + if eps[j].expiry > now then [eps[j]] else []
    ensures Live(eps[..j + 1], now) != eps[..j + 1] <==> Live(eps[..j], now) != eps[..j] || eps[j].expiry <= now
  {
    var front := eps[..j];
    assert eps[..j + 1] == front + [eps[j]];
    PruneLaws.LiveSnoc(front, eps[j], now);
    PruneLaws.LiveMembers(front, now);
    assert Live(front, now) + [] == Live(front, now);
  }

  lemma PartlyPrunedDrop(t: Table, now: Time, done: set<Id>, id: Id)
    requires id in t && id !in done && t[id].expiry <= now
    ensures PartlyPruned(t, now, done + {id}) == PartlyPruned(t, now, done) - {id}
  {
  }

  lemma PartlyPrunedKeep(t: Table, now: Time, done: set<Id>, id: Id)
    requires id in t && id !in done && t[id].expiry > now
    ensures PartlyPruned(t, now, done + {id}) == PartlyPruned(t, now, done)[id := PrunedRecord(t[id], now)]
  {
  }

  lemma NothingPruned(t: Table, now: Time)
    ensures PartlyPruned(t, now, {}) == t
    ensures IsBatchOf(t, now, {}, [])
  {
    assert Ids([]) == [];
  }

  lemma WholeBatch(t: Table, now: Time, done: set<Id>, evs: seq<Event>)
    requires IsBatchOf(t, now, done, evs) && forall id :: id in t ==> id in done
    ensures IsPruneBatch(t, now, evs)
    ensures PartlyPruned(t, now, done) == PruneTable(t, now)
  {
  }

  // ----- the fan-out loop, on values -----

  ghost predicate OverflowTold(subs: seq<Sub>, told: set<nat>) {
    exists i :: 0 <= i < |subs| && i + 1 in told && Overflows(subs[i])
  }

  /** The subscriptions whose ids are in `told` have been notified, the others not yet. */
  ghost predicate PartlyTold(before: ClusterValue, c: ClusterValue, told: set<nat>, ev: Event, now: Time) {
    && c == before.(subs := c.subs, expiry := c.expiry)
    && |c.subs| == |before.subs|
    && (forall i :: 0 <= i < |c.subs| ==>
          c.subs[i] == if i + 1 in told then NotifySub(before.subs[i], ev) else before.subs[i])
    && c.expiry == if OverflowTold(before.subs, told) then now + CLUSTER_TTL else before.expiry
  }

  lemma ToldStep(before: ClusterValue, c: ClusterValue, told: set<nat>, ev: Event, now: Time, k: nat)
    requires PartlyTold(before, c, told, ev, now) && 1 <= k <= |c.subs| && k !in told
    ensures PartlyTold(before, NotifyOneSub(c, k - 1, ev, now), told + {k}, ev, now)
  {
    OverflowToldStep(before.subs, told, k);
  }

  lemma OverflowToldStep(subs: seq<Sub>, told: set<nat>, k: nat)
    requires 1 <= k <= |subs|
    ensures OverflowTold(subs, told + {k}) <==> OverflowTold(subs, told) || Overflows(subs[k - 1])
  {
    if Overflows(subs[k - 1]) {
      assert (k - 1) + 1 in told + {k};
    }
  }

  lemma AllTold(before: ClusterValue, c: ClusterValue, told: set<nat>, ev: Event, now: Time)
    requires PartlyTold(before, c, told, ev, now)
    requires forall i :: 0 <= i < |before.subs| ==> (i + 1 in told <==> !before.subs[i].closed)
    ensures c == Registry.Notify(before, ev, now)
  {
    assert c.subs == NotifySubs(before.subs, ev);
  }
}
