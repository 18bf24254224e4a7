/** In every run a watching client's copy is the server's table as it was at one of its commits. */
module WatchViews {
  import opened Basics
  import opened Affiliates
  import opened Registry
  import opened WatchRuns
  import UpdateLaws
  import PruneLaws

  /** The action is not an update that fails after having shown part of itself. */
  ghost predicate Clean(t: Table, a: Action) {
    a.Update? ==> Refused(t, a.req) || !UpdateLaws.TooMany(t, a.req) || UpdateLaws.SilentFailure(t, a.req)
  }

  ghost predicate CleanRun(start: ClusterValue, acts: seq<Action>)
    requires After(start, acts).Some?
    decreases |acts|
  {
    acts == [] || (
      CleanRun(start, acts[..|acts| - 1]) &&
      Clean(After(start, acts[..|acts| - 1]).value.cluster.table, acts[|acts| - 1])
    )
  }

  /** A client that replays the log from where it subscribed up to any commit has the table of that commit. */
  ghost predicate Follows(w: World, base: Mirror, start: nat, k: nat)
    requires |w.past| == |w.log| + 1 && start <= k <= |w.log|
  {
    Agrees(Replay(base, w.log[start..k]), w.past[k])
  }

  ghost predicate Consistent(w: World) {
    && |w.past| == |w.log| + 1
    && ValidTable(w.cluster.table)
    && w.past[|w.log|] == w.cluster.table
    && (forall i :: 0 <= i < |w.clients| ==> Keyed(w.clients[i].listed))
    && forall i, k :: 0 <= i < |w.clients| && w.clients[i].start <= k <= |w.log| ==>
         Follows(w, w.clients[i].Base(), w.clients[i].start, k)
  }

  // ----- the stages of one commit -----

  lemma PartlyPrunedAgrees(t: Table, now: Time, evs: seq<Event>, k: nat, m: Mirror)
    requires ValidTable(t) && IsPruneBatch(t, now, evs) && Agrees(m, t) && k <= |evs|
    ensures Agrees(Replay(m, evs[..k]), PartlyPruned(t, now, Elems(Ids(evs[..k]))))
  {
    PrefixBatch(evs, k);
    forall id
      ensures AgreesAt(Replay(m, evs[..k]), PartlyPruned(t, now, Elems(Ids(evs[..k]))), id)
    {
      if id in Ids(evs[..k]) {
        PrunedAgreesAt(t, now, evs, k, m, id);
      } else {
        assert AgreesAt(m, t, id);
        PruneLaws.ReplayMiss(m, evs[..k], id);
        assert PruneLaws.At(Replay(m, evs[..k]), id) == PruneLaws.At(m, id);
      }
    }
  }

  lemma PrunedAgreesAt(t: Table, now: Time, evs: seq<Event>, k: nat, m: Mirror, id: Id)
    requires ValidTable(t) && IsPruneBatch(t, now, evs) && k <= |evs|
    requires NoDuplicates(Ids(evs[..k])) && id in Ids(evs[..k])
    ensures AgreesAt(Replay(m, evs[..k]), PartlyPruned(t, now, Elems(Ids(evs[..k]))), id)
  {
    var j :| 0 <= j < k && Ids(evs[..k])[j] == id;
    var ev := evs[j];
    assert evs[..k][j] == ev && ev in evs;
    PruneLaws.ReplayHit(m, evs[..k], j);
    assert PruneLaws.At(Replay(m, evs[..k]), id) == PruneLaws.Effect(ev);
    PrunedShows(t, now, ev, Elems(Ids(evs[..k])), Replay(m, evs[..k]));
  }

  lemma PrunedShows(t: Table, now: Time, ev: Event, ids: set<Id>, m: Mirror)
    requires EventId(ev) in t && PruneEvent(t[EventId(ev)], now) == Some(ev) && EventId(ev) in ids
    requires PruneLaws.At(m, EventId(ev)) == PruneLaws.Effect(ev)
    ensures AgreesAt(m, PartlyPruned(t, now, ids), EventId(ev))
  {
  }

  lemma {:induction false} PrefixBatch(evs: seq<Event>, k: nat)
    requires NoDuplicates(Ids(evs)) && k <= |evs|
    ensures NoDuplicates(Ids(evs[..k]))
  {
    NoDuplicatesPrefix(Ids(evs), k);
    assert Ids(evs)[..k] == Ids(evs[..k]);
  }

  lemma FullyPruned(t: Table, now: Time, evs: seq<Event>)
    requires ValidTable(t) && IsPruneBatch(t, now, evs)
    ensures PartlyPruned(t, now, Elems(Ids(evs))) == PruneTable(t, now)
  {
    forall id | id in t
      ensures id !in Ids(evs) ==> t[id].expiry > now && PrunedRecord(t[id], now) == t[id]
    {
      PruneLaws.IdInIds(evs, id);
      PruneLaws.PruneShows(t, now, evs, id);
    }
  }

  lemma CommitStages(t: Table, a: Action, m: Mirror, k: nat)
    requires ValidTable(t) && Agrees(m, t) && Clean(t, a) && k <= |EventsOf(t, a)|
    requires a.Prune? ==> IsPruneBatch(t, a.now, a.evs)
    ensures Agrees(Replay(m, EventsOf(t, a)[..k]), StagesOf(t, a)[k])
  {
    if a.Prune? {
      PartlyPrunedAgrees(t, a.now, a.evs, k, m);
    } else if a.Update? {
      UpdateStages(t, a, m, k);
    } else if a.Remove? {
      RemoveStages(t, a, m, k);
    }
  }

  lemma UpdateStages(t: Table, a: Action, m: Mirror, k: nat)
    requires ValidTable(t) && Agrees(m, t) && Clean(t, a) && k <= |EventsOf(t, a)| && a.Update?
    ensures Agrees(Replay(m, EventsOf(t, a)[..k]), StagesOf(t, a)[k])
  {
    UpdateLaws.UpdateKeepsAgreement(t, a.req, a.now, m);
    SingleReplay(m, EventsOf(t, a), k);
  }

  lemma RemoveStages(t: Table, a: Action, m: Mirror, k: nat)
    requires Agrees(m, t) && k <= |EventsOf(t, a)| && a.Remove?
    ensures Agrees(Replay(m, EventsOf(t, a)[..k]), StagesOf(t, a)[k])
  {
    UpdateLaws.DeleteKeepsAgreement(t, a.id, m);
    SingleReplay(m, EventsOf(t, a), k);
    assert a.id !in t ==> t - {a.id} == t;
  }

  lemma SingleReplay(m: Mirror, evs: seq<Event>, k: nat)
    requires k <= |evs| <= 1
    ensures k == 0 ==> Replay(m, evs[..k]) == m
    ensures k == 1 ==> Replay(m, evs[..k]) == Apply(m, evs[0])
  {
    if k == 1 {
      assert evs[..1] == [] + [evs[0]];
      ReplaySnoc(m, [], evs[0]);
    }
  }

  lemma LastStage(t: Table, a: Action)
    requires ValidTable(t) && (a.Prune? ==> IsPruneBatch(t, a.now, a.evs))
    ensures StagesOf(t, a)[|EventsOf(t, a)|] == TableAfter(t, a)
    ensures EventsOf(t, a) != [] ==> StagesOf(t, a)[0] == t
  {
    if a.Prune? {
      assert a.evs[..|a.evs|] == a.evs;
      FullyPruned(t, a.now, a.evs);
      assert a.evs[..0] == [];
      NothingPruned(t, a.now);
    }
  }

  lemma NothingPruned(t: Table, now: Time)
    ensures PartlyPruned(t, now, Elems(Ids([]))) == t
  {
    assert Ids([]) == [];
  }

  lemma RemovalValid(t: Table, id: Id)
    requires ValidTable(t)
    ensures ValidTable(t - {id})
  {
    assert (t - {id}).Keys <= t.Keys;
    SubsetCardinality((t - {id}).Keys, t.Keys);
  }

  lemma TableAfterValid(t: Table, a: Action)
    requires ValidTable(t)
    ensures ValidTable(TableAfter(t, a))
  {
    match a
    case Update(req, now) => UpdateLaws.UpdateKeepsValid(t, req, now);
    case Remove(id, _) => RemovalValid(t, id);
    case Prune(_, now) => PruneLaws.PruneKeepsValid(t, now);
    case _ =>
  }

  // ----- the step and the run -----

  lemma SliceBefore<T>(s: seq<T>, more: seq<T>, from: nat, k: nat)
    requires from <= k <= |s|
    ensures (s + more)[from..k] == s[from..k]
  {
  }

  lemma SliceAcross<T>(s: seq<T>, more: seq<T>, from: nat, k: nat)
    requires from <= |s| <= k <= |s + more|
    ensures (s + more)[from..k] == s[from..|s|] + more[..k - |s|]
  {
  }

  lemma FollowsAcross(t: Table, a: Action, log: seq<Event>, base: Mirror, start: nat, k: nat)
    requires ValidTable(t) && Clean(t, a) && (a.Prune? ==> IsPruneBatch(t, a.now, a.evs))
    requires start <= |log| <= k <= |log| + |EventsOf(t, a)|
    requires Agrees(Replay(base, log[start..|log|]), t)
    ensures Agrees(Replay(base, (log + EventsOf(t, a))[start..k]), StagesOf(t, a)[k - |log|])
  {
    CommitStages(t, a, Replay(base, log[start..|log|]), k - |log|);
    ReplayAcross(log, EventsOf(t, a), base, start, k);
  }

  lemma ReplayAcross(log: seq<Event>, evs: seq<Event>, base: Mirror, start: nat, k: nat)
    requires start <= |log| <= k <= |log| + |evs|
    ensures Replay(base, (log + evs)[start..k]) == Replay(Replay(base, log[start..|log|]), evs[..k - |log|])
  {
    SliceAcross(log, evs, start, k);
    ReplayConcat(base, log[start..|log|], evs[..k - |log|]);
  }

  lemma PerformPast(w: World, a: Action) returns (past: seq<Table>)
    requires Enabled(w, a) && |w.past| == |w.log| + 1
    ensures past == Perform(w, a).past == w.past[..|w.log|] + StagesOf(w.cluster.table, a)
    ensures Perform(w, a).log == w.log + EventsOf(w.cluster.table, a)
  {
    past := Perform(w, a).past;
  }

  lemma Spliced<T>(past: seq<T>, n: nat, stages: seq<T>, k: nat)
    requires n <= |past|
    ensures k < n ==> (past[..n] + stages)[k] == past[k]
    ensures n <= k < n + |stages| ==> (past[..n] + stages)[k] == stages[k - n]
  {
  }

  lemma FollowsStep(w: World, a: Action, w': World, base: Mirror, start: nat, k: nat)
    requires Consistent(w) && Enabled(w, a) && Clean(w.cluster.table, a) && w' == Perform(w, a)
    requires start <= |w.log| && start <= k <= |w'.log| && |w'.past| == |w'.log| + 1
    requires Follows(w, base, start, if k < |w.log| then k else |w.log|)
    ensures Follows(w', base, start, k)
  {
    var past := PerformPast(w, a);
    Spliced(w.past, |w.log|, StagesOf(w.cluster.table, a), k);
    if k < |w.log| {
      SliceBefore(w.log, EventsOf(w.cluster.table, a), start, k);
    } else {
      FollowsAcross(w.cluster.table, a, w.log, base, start, k);
    }
  }

  lemma ConsistentStep(w: World, a: Action)
    requires GapFree(w) && Consistent(w) && Enabled(w, a) && Clean(w.cluster.table, a)
    ensures Consistent(Perform(w, a))
  {
    var w', t := Perform(w, a), w.cluster.table;
    LastStage(t, a);
    TableAfterValid(t, a);
    TableStep(w, a);
    forall i, k | 0 <= i < |w'.clients| && w'.clients[i].start <= k <= |w'.log|
      ensures Follows(w', w'.clients[i].Base(), w'.clients[i].start, k)
    {
      if i < |w.clients| {
        assert GapFreeAt(w, i);
        assert Follows(w, w.clients[i].Base(), w.clients[i].start, if k < |w.log| then k else |w.log|);
        FollowsStep(w, a, w', w.clients[i].Base(), w.clients[i].start, k);
      } else {
        assert w'.log[k..k] == [];
        SnapshotAgrees(t);
      }
    }
  }

  lemma TableStep(w: World, a: Action)
    requires Enabled(w, a)
    ensures ClusterAfter(w, a).table == TableAfter(w.cluster.table, a)
  {
    if a.Update? || a.Remove? || a.Prune? {
      SubsAfterCommit(w, a);
    }
  }

  lemma SnapshotAgrees(t: Table)
    ensures Agrees(MirrorOf(t), t)
  {
  }

  lemma {:induction false} EveryRunConsistent(start: ClusterValue, acts: seq<Action>)
    requires start.subs == [] && ValidTable(start.table)
    requires After(start, acts).Some? && CleanRun(start, acts)
    ensures Consistent(After(start, acts).value)
    decreases |acts|
  {
    if acts != [] {
      EveryRunConsistent(start, acts[..|acts| - 1]);
      EveryRunGapFree(start, acts[..|acts| - 1]);
      ConsistentStep(After(start, acts[..|acts| - 1]).value, acts[|acts| - 1]);
    }
  }

  /** The events client i was sent give it the server's table as it was at the commit they reach. */
  ghost predicate SeesCommit(w: World, i: nat)
    requires i < |w.clients|
  {
    var c := w.clients[i];
    c.start + |c.sent| < |w.past| && Agrees(Replay(c.Base(), c.sent), w.past[c.start + |c.sent|])
  }

  /** The events client i was sent give it the current table. */
  ghost predicate SeesCurrent(w: World, i: nat)
    requires i < |w.clients|
  {
    Agrees(Replay(w.clients[i].Base(), w.clients[i].sent), w.cluster.table)
  }

  /**
   * In every run of a new or restored cluster without a visibly failing update, every client sees the
   * server's table at the commit its events reach; an open client with nothing left to read sees the
   * current table.
   */
  lemma ClientFollowsServer(start: ClusterValue, acts: seq<Action>, w: World, i: nat)
    requires start.subs == [] && ValidTable(start.table)
    requires After(start, acts) == Some(w) && CleanRun(start, acts)
    requires i < |w.clients|
    ensures |w.clients| == |w.cluster.subs|
    ensures SeesCommit(w, i)
    ensures !w.cluster.subs[i].closed && w.cluster.subs[i].buffer == [] ==> SeesCurrent(w, i)
  {
    EveryRunGapFree(start, acts);
    EveryRunConsistent(start, acts);
    ClientFollows(w, i);
  }

  lemma ClientFollows(w: World, i: nat)
    requires GapFree(w) && Consistent(w) && i < |w.clients|
    ensures SeesCommit(w, i)
    ensures !w.cluster.subs[i].closed && w.cluster.subs[i].buffer == [] ==> SeesCurrent(w, i)
  {
    assert GapFreeAt(w, i);
    var c, sub := w.clients[i], w.cluster.subs[i];
    PrefixOfSuffix(c.sent, sub.buffer, w.log, c.start);
    assert Follows(w, c.Base(), c.start, c.start + |c.sent|);
  }

  lemma PrefixOfSuffix<T>(p: seq<T>, q: seq<T>, s: seq<T>, from: nat)
    requires from <= |s| && p + q <= s[from..]
    ensures from + |p| <= |s| && s[from..from + |p|] == p
    ensures q == [] && p + q == s[from..] ==> from + |p| == |s|
  {
    assert (p + q)[..|p|] == p;
    assert s[from..][..|p|] == s[from..from + |p|];
  }

  /** An update that fails visibly leaves every client that was up to date without the change. */
  lemma VisibleFailureDiverges(w: World, req: UpdateRequest, now: Time, m: Mirror)
    requires Consistent(w) && Agrees(m, w.cluster.table) && !Clean(w.cluster.table, Update(req, now))
    ensures EventsOf(w.cluster.table, Update(req, now)) == []
    ensures !Agrees(m, Perform(w, Update(req, now)).cluster.table)
  {
    UpdateLaws.UpdateKeepsAgreement(w.cluster.table, req, now, m);
    UpdateLaws.OutcomeOf(w.cluster.table, req, now);
    TableStep(w, Update(req, now));
  }
}
