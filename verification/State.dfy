/** The registry object: cluster objects created on demand, updated in place, collected by Cleanup. */
module State {
  import opened Basics
  import opened Affiliates
  import opened Registry
  import opened Clusters
  import Discovery

  ghost predicate Apart(reprs: map<Id, set<object>>, objects: set<object>) {
    && (forall id :: id in reprs ==> reprs[id] <= objects)
    && forall id, id' :: id in reprs && id' in reprs && id != id' ==> reprs[id] !! reprs[id']
  }

  lemma ApartAfter(reprs: map<Id, set<object>>, objects: set<object>, id: Id, r: set<object>)
    requires Apart(reprs, objects) && (if id in reprs then reprs[id] <= r && r - reprs[id] !! objects else r !! objects)
    ensures Apart(reprs[id := r], objects + r)
  {
  }

  lemma ApartWithout(reprs: map<Id, set<object>>, objects: set<object>, id: Id)
    requires Apart(reprs, objects)
    ensures Apart(reprs - {id}, objects)
  {
  }

  lemma SetSame(m: Discovery.Clusters, id: Id)
    requires id in m
    ensures m[id := m[id]] == m
  {
  }

  lemma DropThenSet(m: Discovery.Clusters, id: Id, v: ClusterValue)
    ensures (m - {id})[id := v] == m[id := v]
  {
  }

  lemma SetThenDrop(m: Discovery.Clusters, id: Id, v: ClusterValue)
    ensures m[id := v] - {id} == m - {id}
  {
  }

  /** Cluster `c` is the one stored under `id`; it owns the objects in `r` and its value is `v`. */
  ghost predicate Holds(c: Cluster, id: Id, r: set<object>, v: ClusterValue)
    reads r
  {
    c in r && c.repr == r && c.id == id && c.Valid() && c.Value() == v
  }

  /** Of the clusters there were, some remain, each the same object. */
  ghost predicate Remain(left: map<Id, Cluster>, was: map<Id, Cluster>) {
    forall id :: id in left ==> id in was && left[id] == was[id]
  }

  lemma RemainTrans(left: map<Id, Cluster>, mid: map<Id, Cluster>, was: map<Id, Cluster>)
    requires Remain(left, mid) && Remain(mid, was)
    ensures Remain(left, was)
  {
  }

  class State {
    var clusters: map<Id, Cluster>
    /** Every object the registry owns, which of them belong to which cluster, and the clusters as values. */
    ghost var objects: set<object>
    ghost var reprs: map<Id, set<object>>
    ghost var model: Discovery.Clusters

    ghost predicate AllHold()
      requires Apart(reprs, objects)
      reads this, objects
    {
      clusters.Keys == model.Keys == reprs.Keys &&
      forall id :: id in clusters ==> Holds(clusters[id], id, reprs[id], model[id])
    }

    ghost predicate Valid()
      reads this, objects
    {
      this !in objects && Apart(reprs, objects) && AllHold()
    }

    constructor ()
      ensures Valid() && model == map[] && objects == {}
    {
      clusters, objects, reprs, model := map[], {}, map[], map[];
    }

    ghost predicate OthersHold(id: Id)
      requires Apart(reprs, objects)
      reads this, objects
    {
      clusters.Keys == model.Keys + {id} && model.Keys == reprs.Keys &&
      forall k :: k in clusters && k != id ==> Holds(clusters[k], k, reprs[k], model[k])
    }

    /** What is stored for the other clusters stays true when none of their objects changes. */
    twostate lemma OthersUntouched(id: Id)
      requires old(Valid()) && id in clusters && unchanged(this)
      requires unchanged(objects - reprs[id])
      ensures Apart(reprs, objects) && OthersHold(id)
    {
      forall k | k in clusters && k != id
        ensures Holds(clusters[k], k, reprs[k], model[k])
      {
        assert old(Holds(clusters[k], k, reprs[k], model[k]));
        assert reprs[k] <= objects - reprs[id];
      }
    }

    /** Take over what changed inside one cluster. */
    ghost method Absorb(c: Cluster)
      requires this !in objects && this !in c.repr && Apart(reprs, objects) && OthersHold(c.id)
      requires c.id in clusters && clusters[c.id] == c && c in c.repr && c.Valid()
      requires if c.id in reprs then reprs[c.id] <= c.repr && c.repr - reprs[c.id] !! objects else c.repr !! objects
      modifies this`objects, this`reprs, this`model
      ensures Valid()
      ensures objects == old(objects) + c.repr && model == old(model)[c.id := c.Value()]
    {
      ApartAfter(reprs, objects, c.id, c.repr);
      objects := objects + c.repr;
      reprs := reprs[c.id := c.repr];
      model := model[c.id := c.Value()];
      StillHold(c.id);
    }

    twostate lemma StillHold(id: Id)
      requires id in clusters && id in reprs && id in model && unchanged(this`clusters)
      requires old(this !in objects && Apart(reprs, objects) && OthersHold(id))
      requires Apart(reprs, objects)
      requires reprs == old(reprs)[id := reprs[id]] && model == old(model)[id := model[id]]
      requires forall o :: o in old(objects) ==> unchanged(o)
      requires Holds(clusters[id], id, reprs[id], model[id])
      ensures AllHold()
    {
      forall k | k in clusters && k != id
        ensures Holds(clusters[k], k, reprs[k], model[k])
      {
        assert old(Holds(clusters[k], k, reprs[k], model[k]));
      }
    }

    /** Load the cluster, or create it. */
    method ClusterFor(id: Id, now: Time) returns (c: Cluster)
      requires Valid()
      modifies this
      ensures Valid() && fresh(objects - old(objects))
      ensures id in clusters && clusters[id] == c && c.id == id && (id in old(clusters) ==> c == old(clusters)[id])
      ensures model == old(model)[id := Discovery.ClusterFor(old(model), id, now)]
    {
      if id !in clusters {
        c := Create(id, now);
        return;
      }
      c := clusters[id];
      Stored(id);
      SetSame(model, id);
    }

    method Create(id: Id, now: Time) returns (c: Cluster)
      requires Valid() && id !in clusters
      modifies this
      ensures Valid() && fresh(objects - old(objects))
      ensures id in clusters && clusters[id] == c && c.id == id
      ensures model == old(model)[id := NewCluster(id, now)]
    {
      c := new Cluster(id, now);
      clusters := clusters[id := c];
      OthersStored(id);
      Absorb(c);
    }

    /** Storing under a new id leaves what the others hold. */
    twostate lemma OthersStored(id: Id)
      requires old(Valid()) && old(id !in clusters) && id in clusters && clusters == old(clusters)[id := clusters[id]]
      requires unchanged(this`objects, this`reprs, this`model)
      requires forall o :: o in objects ==> unchanged(o)
      ensures Apart(reprs, objects) && OthersHold(id)
    {
      forall k | k in clusters && k != id
        ensures Holds(clusters[k], k, reprs[k], model[k])
      {
        assert old(Holds(clusters[k], k, reprs[k], model[k]));
      }
    }

    method GetCluster(id: Id) returns (c: Cluster?)
      requires Valid()
      ensures c != null <==> id in model
      ensures c != null ==> id in clusters && c == clusters[id] && c.id == id
    {
      if id !in clusters {
        return null;
      }
      Stored(id);
      return clusters[id];
    }

    lemma Stored(id: Id)
      requires Valid() && id in clusters
      ensures id in model && id in reprs && Holds(clusters[id], id, reprs[id], model[id])
    {
    }

    // ----- one cluster at a time -----

    method UpdateIn(c: Cluster, req: UpdateRequest, now: Time) returns (err: Option<StateError>)
      requires Valid() && c.id in clusters && clusters[c.id] == c
      modifies this`objects, this`reprs, this`model, objects
      ensures Valid() && fresh(objects - old(objects)) && clusters == old(clusters)
      ensures model == old(model)[c.id := UpdateCluster(old(model)[c.id], req, now)]
      ensures err == ErrorOf(UpdateOutcome(old(model)[c.id].table, req, now))
    {
      assert Holds(c, c.id, reprs[c.id], model[c.id]);
      err := c.UpdateAffiliate(req, now);
      OthersUntouched(c.id);
      Absorb(c);
    }

    method DeleteIn(c: Cluster, id: Id, now: Time)
      requires Valid() && c.id in clusters && clusters[c.id] == c
      modifies this`objects, this`reprs, this`model, objects
      ensures Valid() && fresh(objects - old(objects)) && clusters == old(clusters)
      ensures model == old(model)[c.id := DeleteFromCluster(old(model)[c.id], id, now)]
    {
      assert Holds(c, c.id, reprs[c.id], model[c.id]);
      c.DeleteAffiliate(id, now);
      OthersUntouched(c.id);
      Absorb(c);
    }

    method SubscribeIn(c: Cluster) returns (snapshot: seq<Info>, sub: Subscription)
      requires Valid() && c.id in clusters && clusters[c.id] == c
      modifies this`objects, this`reprs, this`model, objects
      ensures Valid() && fresh(objects - old(objects)) && clusters == old(clusters)
      ensures model == old(model)[c.id := SubscribeTo(old(model)[c.id])]
      ensures IsSnapshot(old(model)[c.id], snapshot)
      ensures sub.cluster == c && sub.id == |model[c.id].subs|
      ensures sub.id <= |c.issued| && c.issued[sub.id - 1] == sub
      ensures !sub.closed && sub.ch == [] && sub.errCh == []
      ensures sub.id in c.subscribers && c.subscribers[sub.id] == sub
    {
      assert Holds(c, c.id, reprs[c.id], model[c.id]);
      ghost var r := reprs[c.id];
      snapshot, sub := c.SubscribeWithSnapshot();
      assert fresh(c.repr - r);
      OthersUntouched(c.id);
      Absorb(c);
    }

    method PruneIn(c: Cluster, now: Time) returns (ghost evs: seq<Event>, ghost pruned: ClusterValue)
      requires Valid() && c.id in clusters && clusters[c.id] == c
      modifies this`objects, this`reprs, this`model, objects
      ensures Valid() && fresh(objects - old(objects)) && clusters == old(clusters)
      ensures PruneResult(old(model)[c.id], evs, now, pruned)
      ensures model == old(model)[c.id := pruned]
    {
      assert Holds(c, c.id, reprs[c.id], model[c.id]);
      evs := c.Prune(now);
      pruned := c.Value();
      OthersUntouched(c.id);
      Absorb(c);
    }

    // ----- cleanup -----

    /** Prune one cluster, and drop it if it is then expired and empty. */
    method CleanOne(id: Id, now: Time) returns (ghost evs: seq<Event>, ghost pruned: ClusterValue)
      requires Valid() && id in clusters
      modifies this, objects
      ensures Valid() && fresh(objects - old(objects))
      ensures Remain(clusters, old(clusters))
      ensures PruneResult(old(model)[id], evs, now, pruned)
      ensures model == if Discovery.Collectable(pruned, now) then old(model) - {id} else old(model)[id := pruned]
    {
      assert Holds(clusters[id], id, reprs[id], model[id]);
      evs, pruned := PruneIn(clusters[id], now);
      DropIfCollectable(id, now);
      SetThenDrop(old(model), id, pruned);
    }

    method DropIfCollectable(id: Id, now: Time)
      requires Valid() && id in clusters && id in model
      modifies this`clusters, this`reprs, this`model
      ensures Valid()
      ensures Remain(clusters, old(clusters))
      ensures model == if Discovery.Collectable(old(model)[id], now) then old(model) - {id} else old(model)
    {
      var collectable := IsCollectable(id, now);
      if collectable {
        Drop(id);
      }
    }

    method IsCollectable(id: Id, now: Time) returns (r: bool)
      requires Valid() && id in clusters && id in model
      ensures r <==> Discovery.Collectable(model[id], now)
    {
      Stored(id);
      var expired := clusters[id].IsExpired(now);
      var empty := clusters[id].IsEmpty();
      r := expired && empty;
    }

    method Drop(id: Id)
      requires Valid() && id in clusters
      modifies this`clusters, this`reprs, this`model
      ensures Valid() && clusters == old(clusters) - {id} && model == old(model) - {id}
    {
      ApartWithout(reprs, objects, id);
      clusters, reprs, model := clusters - {id}, reprs - {id}, model - {id};
      RestHold(id);
    }

    twostate lemma RestHold(id: Id)
      requires old(Valid()) && unchanged(this`objects) && Apart(reprs, objects)
      requires clusters == old(clusters) - {id} && reprs == old(reprs) - {id} && model == old(model) - {id}
      requires unchanged(objects)
      ensures AllHold()
    {
      forall k | k in clusters
        ensures Holds(clusters[k], k, reprs[k], model[k])
      {
        assert old(Holds(clusters[k], k, reprs[k], model[k]));
      }
    }

    /** Store a cluster built elsewhere, in place of any other under its id. */
    method Put(c: Cluster)
      requires Valid() && c.Valid() && c.repr !! objects && this !in c.repr
      modifies this`clusters, this`objects, this`reprs, this`model
      ensures Valid() && objects == old(objects) + c.repr && model == old(model)[c.id := c.Value()]
    {
      DropThenSet(model, c.id, c.Value());
      Vacate(c.id);
      PutNew(c);
    }

    method Vacate(id: Id)
      requires Valid()
      modifies this`clusters, this`reprs, this`model
      ensures Valid() && id !in clusters && model == old(model) - {id}
    {
      if id in clusters {
        Drop(id);
      } else {
        assert model - {id} == model;
      }
    }

    method PutNew(c: Cluster)
      requires Valid() && c.Valid() && c.repr !! objects && this !in c.repr && c.id !in clusters
      modifies this`clusters, this`objects, this`reprs, this`model
      ensures Valid() && objects == old(objects) + c.repr && model == old(model)[c.id := c.Value()]
    {
      clusters := clusters[c.id := c];
      OthersStored(c.id);
      Absorb(c);
    }

    /** One more cluster of a cleanup; the ghost parameters say how far it has come. */
    method CleanNext(id: Id, now: Time, ghost before: Discovery.Clusters, ghost pruned: Discovery.Clusters,
                     ghost batches: map<Id, seq<Event>>, ghost done: set<Id>)
      returns (ghost pruned': Discovery.Clusters, ghost batches': map<Id, seq<Event>>)
      requires Valid() && id in before && id !in done
      requires CleanedBy(before, model, pruned, batches, done, now)
      modifies this, objects
      ensures Valid() && fresh(objects - old(objects))
      ensures Remain(clusters, old(clusters))
      ensures CleanedBy(before, model, pruned', batches', done + {id}, now)
    {
      ghost var mid := model;
      ghost var evs, p := CleanOne(id, now);
      CleanedStep(before, mid, model, pruned, batches, done, now, id, evs, p);
      pruned', batches' := pruned[id := p], batches[id := evs];
    }

    /** Visit the clusters in any order; `batches` are the events each prune found. */
    method Cleanup(now: Time) returns (ghost batches: map<Id, seq<Event>>)
      requires Valid()
      modifies this, objects
      ensures Valid() && fresh(objects - old(objects))
      ensures Discovery.AreBatches(old(model), now, batches)
      ensures model == Discovery.Collect(Discovery.Pruned(old(model), batches, now), now)
      ensures Remain(clusters, old(clusters))
    {
      ghost var before, was := model, clusters;
      var ids := AnyOrder(clusters.Keys);
      ghost var done: set<Id> := {};
      ghost var pruned: Discovery.Clusters := map[];
      batches := map[];
      for j := 0 to |ids|
        invariant Valid() && fresh(objects - old(objects))
        invariant Visited(done, ids, j)
        invariant Remain(clusters, was)
        invariant CleanedBy(before, model, pruned, batches, done, now)
      {
        assert ids[j] in ids;
        VisitNext(done, ids, j);
        ghost var mid := clusters;
        pruned, batches := CleanNext(ids[j], now, before, pruned, batches, done);
        RemainTrans(clusters, mid, was);
        done := done + {ids[j]};
      }
      VisitedAll(done, ids);
      AllCleaned(before, model, pruned, batches, done, now);
    }
  }

  /** One prune of one cluster. */
  ghost predicate PruneResult(c: ClusterValue, evs: seq<Event>, now: Time, p: ClusterValue) {
    IsPruneBatch(c.table, now, evs) && p == PruneCluster(c, evs, now)
  }

  /** What pruning made of the clusters in `done`. */
  ghost predicate PrunedBy(before: Discovery.Clusters, pruned: Discovery.Clusters,
                           batches: map<Id, seq<Event>>, done: set<Id>, now: Time) {
    && pruned.Keys == batches.Keys == done && done <= before.Keys
    && forall id :: id in done ==> PruneResult(before[id], batches[id], now, pruned[id])
  }

  /** The clusters in `done` have been pruned and, where that left them collectable, dropped. */
  ghost predicate CleanedUpTo(before: Discovery.Clusters, after: Discovery.Clusters,
                              pruned: Discovery.Clusters, done: set<Id>, now: Time) {
    && done <= pruned.Keys
    && (forall id :: id in after ==> id in before)
    && (forall id :: id in before ==> (id in after <==> id !in done || !Discovery.Collectable(pruned[id], now)))
    && forall id :: id in after ==> after[id] == if id in done then pruned[id] else before[id]
  }

  /** The cleanup has come as far as the clusters in `done`. */
  ghost predicate CleanedBy(before: Discovery.Clusters, after: Discovery.Clusters, pruned: Discovery.Clusters,
                            batches: map<Id, seq<Event>>, done: set<Id>, now: Time) {
    PrunedBy(before, pruned, batches, done, now) && CleanedUpTo(before, after, pruned, done, now)
  }

  lemma CleanedStep(before: Discovery.Clusters, mid: Discovery.Clusters, after: Discovery.Clusters,
                    pruned: Discovery.Clusters, batches: map<Id, seq<Event>>, done: set<Id>, now: Time,
                    id: Id, evs: seq<Event>, p: ClusterValue)
    requires CleanedBy(before, mid, pruned, batches, done, now) && id in before && id !in done
    requires id in mid && PruneResult(mid[id], evs, now, p)
    requires after == if Discovery.Collectable(p, now) then mid - {id} else mid[id := p]
    ensures CleanedBy(before, after, pruned[id := p], batches[id := evs], done + {id}, now)
  {
    CleanStep(before, mid, after, pruned, done, now, id, p);
    PrunedStep(before, pruned, batches, done, now, id, evs, p);
  }

  lemma PrunedIs(before: Discovery.Clusters, pruned: Discovery.Clusters,
                 batches: map<Id, seq<Event>>, done: set<Id>, now: Time)
    requires PrunedBy(before, pruned, batches, done, now) && forall id :: id in before ==> id in done
    ensures Discovery.AreBatches(before, now, batches)
    ensures Discovery.Pruned(before, batches, now) == pruned
  {
  }

  lemma PrunedStep(before: Discovery.Clusters, pruned: Discovery.Clusters, batches: map<Id, seq<Event>>,
                   done: set<Id>, now: Time, id: Id, evs: seq<Event>, p: ClusterValue)
    requires PrunedBy(before, pruned, batches, done, now) && id in before
    requires PruneResult(before[id], evs, now, p)
    ensures PrunedBy(before, pruned[id := p], batches[id := evs], done + {id}, now)
  {
  }

  lemma CleanStep(before: Discovery.Clusters, mid: Discovery.Clusters, after: Discovery.Clusters,
                  pruned: Discovery.Clusters, done: set<Id>, now: Time, id: Id, p: ClusterValue)
    requires CleanedUpTo(before, mid, pruned, done, now) && id in before && id !in done
    requires after == if Discovery.Collectable(p, now) then mid - {id} else mid[id := p]
    ensures id in mid && mid[id] == before[id]
    ensures CleanedUpTo(before, after, pruned[id := p], done + {id}, now)
  {
  }

  lemma AllCleaned(before: Discovery.Clusters, after: Discovery.Clusters, pruned: Discovery.Clusters,
                   batches: map<Id, seq<Event>>, done: set<Id>, now: Time)
    requires PrunedBy(before, pruned, batches, done, now) && CleanedUpTo(before, after, pruned, done, now)
    requires forall id :: id in before ==> id in done
    ensures Discovery.AreBatches(before, now, batches)
    ensures after == Discovery.Collect(Discovery.Pruned(before, batches, now), now)
  {
    PrunedIs(before, pruned, batches, done, now);
    CollectedIs(before, after, pruned, done, now);
  }

  lemma CollectedIs(before: Discovery.Clusters, after: Discovery.Clusters, pruned: Discovery.Clusters,
                    done: set<Id>, now: Time)
    requires CleanedUpTo(before, after, pruned, done, now)
    requires pruned.Keys == before.Keys && forall id :: id in before ==> id in done
    ensures after == Discovery.Collect(pruned, now)
  {
    forall id
      ensures id in after <==> id in pruned && !Discovery.Collectable(pruned[id], now)
    {
    }
  }
}
