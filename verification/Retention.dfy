/** How long the service keeps a cluster: no longer than its last use warrants, and no shorter. */
module Retention {
  import opened Basics
  import opened Affiliates
  import opened Registry
  import opened Validation
  import opened Discovery
  import FanOut

  predicate Timed(a: Action) {
    !a.Receive?
  }

  function TimeOf(a: Action): Time
    requires Timed(a)
  {
    match a
    case Update(_, now) => now
    case Remove(_, _, now) => now
    case Watch(_, now) => now
    case Close(_, _, now) => now
    case Cleanup(_, now) => now
  }

  /** The action is a request about cluster c, or moves one of its watchers. */
  predicate Names(a: Action, c: Id) {
    match a
    case Update(msg, _) => msg.clusterId == c
    case Remove(k, _, _) => k == c
    case Watch(k, _) => k == c
    case Receive(k, _) => k == c
    case Close(k, _, _) => k == c
    case Cleanup(_, _) => false
  }

  // ----- bounded retention -----

  /** Nothing about the cluster lasts beyond 30 minutes after `latest`. */
  ghost predicate Horizon(c: ClusterValue, latest: Time) {
    && c.expiry <= latest + CLUSTER_TTL
    && forall id :: id in c.table ==> c.table[id].expiry <= latest + TTL_MAX
  }

  /** The step does not happen later than this. */
  predicate By(x: Step, latest: Time) {
    match x
    case Perform(a) => Timed(a) ==> TimeOf(a) <= latest
    case Save => true
    case Restart(now) => now <= latest
  }

  ghost predicate AllBy(steps: seq<Step>, latest: Time) {
    forall i :: 0 <= i < |steps| ==> By(steps[i], latest)
  }

  /** The step concerns cluster c: a restart concerns every cluster. */
  predicate Touches(x: Step, c: Id) {
    match x
    case Perform(a) => Names(a, c)
    case Save => false
    case Restart(_) => true
  }

  lemma UpdateHorizon(t: Table, req: UpdateRequest, now: Time, latest: Time)
    requires now <= latest && req.ttl <= TTL_MAX && 0 <= latest
    requires forall id :: id in t ==> t[id].expiry <= latest + TTL_MAX
    ensures forall id :: id in UpdateTable(t, req, now) ==> UpdateTable(t, req, now)[id].expiry <= latest + TTL_MAX
  {
    var rec := Target(t, req.id);
    assert rec.expiry <= latest + TTL_MAX;
    assert UpdatedRecord(rec, req, now).expiry <= latest + TTL_MAX;
  }

  lemma NotifyEachHorizon(c: ClusterValue, evs: seq<Event>, now: Time, latest: Time)
    requires Horizon(c, latest) && now <= latest
    ensures Horizon(NotifyEach(c, evs, now), latest)
  {
    FanOut.NotifyEachSubs(c, evs, now);
    FanOut.NotifyEachExpiry(c, evs, now);
  }

  lemma NotifyOptionHorizon(c: ClusterValue, ev: Option<Event>, now: Time, latest: Time)
    requires Horizon(c, latest) && now <= latest
    ensures Horizon(NotifyOption(c, ev, now), latest)
  {
  }

  ghost predicate AllHorizon(s: Clusters, latest: Time) {
    forall c :: c in s ==> Horizon(s[c], latest)
  }

  lemma HorizonStep(s: Clusters, a: Action, latest: Time)
    requires AllHorizon(s, latest) && Enabled(s, a) && 0 <= latest
    requires Timed(a) ==> TimeOf(a) <= latest
    ensures AllHorizon(Do(s, a), latest)
  {
    match a {
      case Update(msg, now) =>
        if CheckUpdate(msg).None? {
          UpdateClusterHorizon(ClusterFor(s, msg.clusterId, now), ToRequest(msg), now, latest);
        }
      case Remove(c, id, now) =>
        if c in s && id in s[c].table {
          var removed := s[c].(table := s[c].table - {id}, expiry := now + CLUSTER_TTL);
          NotifyOptionHorizon(removed, Some(Delete(id)), now, latest);
        }
      case Cleanup(batches, now) =>
        forall c | c in s
          ensures Horizon(PruneCluster(s[c], batches[c], now), latest)
        {
          NotifyEachHorizon(s[c].(table := PruneTable(s[c].table, now)), batches[c], now, latest);
        }
      case _ =>
    }
  }

  lemma UpdateClusterHorizon(c: ClusterValue, req: UpdateRequest, now: Time, latest: Time)
    requires Horizon(c, latest) && now <= latest && req.ttl <= TTL_MAX && 0 <= latest
    ensures Horizon(UpdateCluster(c, req, now), latest)
  {
    UpdateHorizon(c.table, req, now, latest);
    var outcome := UpdateOutcome(c.table, req, now);
    NotifyOptionHorizon(c.(table := UpdateTable(c.table, req, now)),
                        if outcome.Updated? then outcome.event else None, now, latest);
  }

  lemma {:induction false} RunHorizon(steps: seq<Step>, latest: Time)
    requires After(steps).Some? && AllBy(steps, latest) && 0 <= latest
    ensures AllHorizon(After(steps).value.clusters, latest) && AllHorizon(After(steps).value.saved, latest)
    decreases |steps|
  {
    if steps != [] {
      var s, x := After(steps[..|steps| - 1]).value, steps[|steps| - 1];
      assert By(x, latest);
      RunHorizon(steps[..|steps| - 1], latest);
      if x.Perform? {
        HorizonStep(s.clusters, x.a, latest);
      }
    }
  }

  /** The cluster is gone, or has no watcher and nothing that lasts beyond the horizon. */
  ghost predicate Idle(s: Clusters, c: Id, latest: Time) {
    c in s ==> Horizon(s[c], latest) && !HasSubscribers(s[c])
  }

  lemma IdlePrune(c: ClusterValue, evs: seq<Event>, now: Time, latest: Time)
    requires Horizon(c, latest) && !HasSubscribers(c)
    ensures Horizon(PruneCluster(c, evs, now), latest) && !HasSubscribers(PruneCluster(c, evs, now))
    ensures PruneCluster(c, evs, now).table == PruneTable(c.table, now)
  {
    var p := c.(table := PruneTable(c.table, now));
    FanOut.NotifyEachSubs(p, evs, now);
    FanOut.NotifyEachExpiry(p, evs, now);
  }

  lemma IdleStep(s: Clusters, a: Action, c: Id, latest: Time)
    requires Idle(s, c, latest) && Enabled(s, a) && !Names(a, c)
    ensures Idle(Do(s, a), c, latest)
  {
    if a.Cleanup? && c in s {
      IdlePrune(s[c], a.batches[c], a.now, latest);
    }
  }

  lemma {:induction false} IdleRun(pre: seq<Step>, post: seq<Step>, c: Id, latest: Time)
    requires After(pre).Some? && Idle(After(pre).value.clusters, c, latest)
    requires After(pre + post).Some? && forall i :: 0 <= i < |post| ==> !Touches(post[i], c)
    ensures Idle(After(pre + post).value.clusters, c, latest)
    decreases |post|
  {
    if post == [] {
      assert pre + post == pre;
    } else {
      var front, x := post[..|post| - 1], post[|post| - 1];
      assert (pre + post)[..|pre + post| - 1] == pre + front;
      assert (pre + post)[|pre + post| - 1] == x;
      IdleRun(pre, front, c, latest);
      if x.Perform? {
        IdleStep(After(pre + front).value.clusters, x.a, c, latest);
      }
    }
  }

  lemma CollectedWhenOld(s: Clusters, c: Id, batches: map<Id, seq<Event>>, now: Time, latest: Time)
    requires Idle(s, c, latest) && AreBatches(s, now, batches) && now > latest + TTL_MAX
    ensures c !in Collect(Pruned(s, batches, now), now)
  {
    if c in s {
      IdlePrune(s[c], batches[c], now, latest);
      assert PruneTable(s[c].table, now) == map[];
    }
  }

  /**
   * A cluster without watchers that nobody touches after `latest`, restarts included, is gone after any
   * cleanup more than 30 minutes later, whatever happens to other clusters meanwhile.
   */
  lemma BoundedRetention(pre: seq<Step>, post: seq<Step>, batches: map<Id, seq<Event>>, now: Time,
                         c: Id, latest: Time, s: Service)
    requires After(pre).Some? && AllBy(pre, latest) && 0 <= latest
    requires c in After(pre).value.clusters ==> !HasSubscribers(After(pre).value.clusters[c])
    requires forall i :: 0 <= i < |post| ==> !Touches(post[i], c)
    requires After(pre + post + [Perform(Cleanup(batches, now))]) == Some(s) && now > latest + 1_800_000_000_000
    ensures c !in s.clusters
  {
    RunHorizon(pre, latest);
    var steps := pre + post;
    assert (steps + [Perform(Cleanup(batches, now))])[..|steps|] == steps;
    IdleRun(pre, post, c, latest);
    CollectedWhenOld(After(steps).value.clusters, c, batches, now, latest);
  }

  // ----- no early removal -----

  /** Some watcher of the cluster that was open is closed now. */
  ghost predicate LosesWatcher(before: ClusterValue, after: ClusterValue) {
    |before.subs| <= |after.subs| &&
    exists i :: 0 <= i < |before.subs| && !before.subs[i].closed && after.subs[i].closed
  }

  /** The action creates the cluster, closes one of its watchers, or deletes one of its affiliates. */
  ghost predicate Renews(s: Clusters, a: Action, c: Id)
    requires Enabled(s, a)
  {
    c in Do(s, a) && (
      || c !in s
      || LosesWatcher(s[c], Do(s, a)[c])
      || (a.Remove? && a.clusterId == c && a.id in s[c].table &&
          CheckAffiliateID(a.id).None? && CheckClusterID(c).None?)
    )
  }

  /** The step creates or loads the cluster, closes one of its watchers, or deletes one of its affiliates. */
  ghost predicate StepRenews(s: Service, x: Step, c: Id)
    requires CanTake(s, x)
  {
    match x
    case Perform(a) => Renews(s.clusters, a, c) && Timed(a)
    case Save => false
    case Restart(_) => c in s.saved
  }

  /** The time of the last step of a run that renewed cluster c. */
  ghost function LastRenewal(steps: seq<Step>, c: Id): Time
    requires After(steps).Some?
    decreases |steps|
  {
    if steps == [] then 0
    else
      var front, x := steps[..|steps| - 1], steps[|steps| - 1];
      if StepRenews(After(front).value, x, c) then (if x.Perform? then TimeOf(x.a) else x.now)
      else LastRenewal(front, c)
  }

  lemma FanOutRenews(c: ClusterValue, c': ClusterValue, evs: seq<Event>, now: Time)
    requires c' == NotifyEach(c, evs, now)
    ensures c'.expiry == if LosesWatcher(c, c') then now + CLUSTER_TTL else c.expiry
  {
    FanOut.NotifyEachSubs(c, evs, now);
    FanOut.NotifyEachExpiry(c, evs, now);
    forall i | 0 <= i < |c.subs|
      ensures !c.subs[i].closed && c'.subs[i].closed <==> !c.subs[i].closed && |evs| > FanOut.Room(c.subs[i])
    {
    }
  }

  lemma OptionRenews(c: ClusterValue, c': ClusterValue, ev: Option<Event>, now: Time)
    requires c' == NotifyOption(c, ev, now)
    ensures c'.expiry == if LosesWatcher(c, c') then now + CLUSTER_TTL else c.expiry
  {
    if ev.Some? {
      NotifyEachSnoc(c, [], ev.value, now);
      FanOutRenews(c, c', [] + [ev.value], now);
    }
  }

  lemma UpdateRenews(c: ClusterValue, req: UpdateRequest, now: Time)
    ensures var c' := UpdateCluster(c, req, now);
            c'.expiry == if LosesWatcher(c, c') then now + CLUSTER_TTL else c.expiry
  {
    var outcome := UpdateOutcome(c.table, req, now);
    OptionRenews(c.(table := UpdateTable(c.table, req, now)), UpdateCluster(c, req, now),
                 if outcome.Updated? then outcome.event else None, now);
  }

  lemma RenewStep(s: Clusters, a: Action, c: Id)
    requires Enabled(s, a) && c in Do(s, a)
    ensures Renews(s, a, c) ==> Timed(a) && Do(s, a)[c].expiry == TimeOf(a) + CLUSTER_TTL
    ensures !Renews(s, a, c) ==> c in s && Do(s, a)[c].expiry == s[c].expiry
  {
    match a {
      case Update(msg, now) =>
        if CheckUpdate(msg).None? && msg.clusterId == c {
          UpdateRenews(ClusterFor(s, c, now), ToRequest(msg), now);
        }
      case Remove(k, id, now) =>
        if k == c && c in s && id in s[c].table {
          var before := s[c].(table := s[c].table - {id}, expiry := now + CLUSTER_TTL);
          OptionRenews(before, NotifyOption(before, Some(Delete(id)), now), Some(Delete(id)), now);
        }
      case Cleanup(batches, now) =>
        FanOutRenews(s[c].(table := PruneTable(s[c].table, now)), PruneCluster(s[c], batches[c], now), batches[c], now);
      case Close(k, i, now) =>
        if k == c && !s[c].subs[i].closed {
          assert Do(s, a)[c].subs[i].closed;
        }
      case _ =>
    }
  }

  /** In every run, across restarts, a cluster expires exactly 30 minutes after its last renewal. */
  lemma {:induction false} ExpiryIsRenewal(steps: seq<Step>, c: Id)
    requires After(steps).Some? && c in After(steps).value.clusters
    ensures After(steps).value.clusters[c].expiry == LastRenewal(steps, c) + 1_800_000_000_000
    decreases |steps|
  {
    var front, x := steps[..|steps| - 1], steps[|steps| - 1];
    var s := After(front).value;
    if x.Perform? {
      RenewStep(s.clusters, x.a, c);
    }
    if !StepRenews(s, x, c) {
      ExpiryIsRenewal(front, c);
    }
  }

  /**
   * A cleanup removes a cluster exactly when every affiliate has expired, no watcher is open, and the
   * last creation, load, close or effective delete is more than 30 minutes ago.
   */
  lemma RemovedExactly(steps: seq<Step>, batches: map<Id, seq<Event>>, now: Time, c: Id, s: Clusters)
    requires After(steps).Some? && s == After(steps).value.clusters
    requires c in s && AreBatches(s, now, batches)
    ensures c !in Do(s, Cleanup(batches, now)) <==>
              && (forall id :: id in s[c].table ==> s[c].table[id].expiry <= now)
              && !HasSubscribers(s[c])
              && now > LastRenewal(steps, c) + 1_800_000_000_000
  {
    ExpiryIsRenewal(steps, c);
    CollectedExactly(s[c], batches[c], now);
    DroppedIff(s, batches, now, c);
  }

  lemma DroppedIff(s: Clusters, batches: map<Id, seq<Event>>, now: Time, c: Id)
    requires c in s && AreBatches(s, now, batches)
    ensures c !in Do(s, Cleanup(batches, now)) <==> Collectable(PruneCluster(s[c], batches[c], now), now)
  {
    CleanupIs(s, batches, now);
    PrunedAt(s, batches, now, c);
    CollectDrops(Pruned(s, batches, now), now, c);
  }

  lemma CleanupIs(s: Clusters, batches: map<Id, seq<Event>>, now: Time)
    requires AreBatches(s, now, batches)
    ensures Do(s, Cleanup(batches, now)) == Collect(Pruned(s, batches, now), now)
  {
  }

  lemma PrunedAt(s: Clusters, batches: map<Id, seq<Event>>, now: Time, c: Id)
    requires c in s && AreBatches(s, now, batches)
    ensures c in Pruned(s, batches, now) && Pruned(s, batches, now)[c] == PruneCluster(s[c], batches[c], now)
  {
  }

  lemma CollectDrops(p: Clusters, now: Time, c: Id)
    requires c in p
    ensures c !in Collect(p, now) <==> Collectable(p[c], now)
  {
  }

  lemma CollectedExactly(c: ClusterValue, evs: seq<Event>, now: Time)
    ensures Collectable(PruneCluster(c, evs, now), now) <==>
              (forall id :: id in c.table ==> c.table[id].expiry <= now) && !HasSubscribers(c) && now > c.expiry
  {
    var p, c' := c.(table := PruneTable(c.table, now)), PruneCluster(c, evs, now);
    FanOut.NotifyEachSubs(p, evs, now);
    FanOutRenews(p, c', evs, now);
    NothingLeft(c.table, now);
    WatchersLost(c, c');
  }

  lemma NothingLeft(t: Table, now: Time)
    ensures PruneTable(t, now) == map[] <==> forall id :: id in t ==> t[id].expiry <= now
  {
    assert forall id :: id in PruneTable(t, now) <==> id in t && t[id].expiry > now;
  }

  lemma WatchersLost(c: ClusterValue, c': ClusterValue)
    requires |c.subs| == |c'.subs|
    requires forall i :: 0 <= i < |c.subs| && c.subs[i].closed ==> c'.subs[i].closed
    ensures !HasSubscribers(c') <==> !HasSubscribers(c) || (LosesWatcher(c, c') && !HasSubscribers(c'))
    ensures LosesWatcher(c, c') ==> HasSubscribers(c)
  {
    if HasSubscribers(c) && !HasSubscribers(c') {
      var i :| 0 <= i < |c.subs| && !c.subs[i].closed;
      assert c'.subs[i].closed;
    }
    if HasSubscribers(c') {
      var i :| 0 <= i < |c'.subs| && !c'.subs[i].closed;
      assert !c.subs[i].closed;
    }
  }

  lemma OnlyCleanupRemoves(s: Clusters, a: Action, c: Id)
    requires Enabled(s, a) && c in s && c !in Do(s, a)
    ensures a.Cleanup?
  {
  }

  /**
   * In every run a step removes a cluster if and only if it is a cleanup that finds every affiliate expired,
   * no watcher and the last renewal more than 30 minutes ago, or a restart from a file that lacks the cluster.
   */
  lemma RemovedBy(steps: seq<Step>, s: Service, x: Step, c: Id)
    requires After(steps) == Some(s) && CanTake(s, x) && c in s.clusters
    ensures c !in Take(s, x).clusters <==>
              if x.Perform? && x.a.Cleanup? then
                && (forall id :: id in s.clusters[c].table ==> s.clusters[c].table[id].expiry <= x.a.now)
                && !HasSubscribers(s.clusters[c])
                && x.a.now > LastRenewal(steps, c) + 1_800_000_000_000
              else x.Restart? && c !in s.saved
  {
    if x.Perform? {
      if x.a.Cleanup? {
        RemovedExactly(steps, x.a.batches, x.a.now, c, s.clusters);
      } else if c !in Take(s, x).clusters {
        OnlyCleanupRemoves(s.clusters, x.a, c);
      }
    }
  }
}
