/**
 * What a visibly failing update costs: the copy of the one affiliate it names, until that affiliate is
 * announced again. Every other affiliate, and every other client, is as well off as without it.
 */
module PerAffiliate {
  import opened Basics
  import opened Affiliates
  import opened Registry
  import W = WatchRuns
  import V = WatchViews
  import UpdateLaws
  import PruneLaws

  /** The operation is an update of this affiliate that fails after having shown part of itself. */
  ghost predicate VisiblyFails(t: Table, op: W.Action, id: Id) {
    op.Update? && op.req.id == id && !V.Clean(t, op)
  }

  // ----- one commit -----

  /** An event whose affiliate has not visibly changed since. */
  ghost predicate Current(ev: Event, t: Table) {
    AgreesAt(Apply(map[], ev), t, EventId(ev))
  }

  lemma ApplyCurrent(m: Mirror, ev: Event, t: Table)
    requires Current(ev, t)
    ensures AgreesAt(Apply(m, ev), t, EventId(ev))
  {
  }

  lemma ApplyElsewhere(m: Mirror, ev: Event, t: Table, id: Id)
    requires id != EventId(ev)
    ensures AgreesAt(Apply(m, ev), t, id) <==> AgreesAt(m, t, id)
  {
  }

  /** A commit announces each affiliate at most once, and with its new value. */
  lemma CommitAnnounces(t: Table, op: W.Action)
    requires ValidTable(t)
    requires op.Prune? ==> IsPruneBatch(t, op.now, op.evs)
    ensures NoDuplicates(Ids(W.EventsOf(t, op)))
    ensures forall ev :: ev in W.EventsOf(t, op) ==> Current(ev, W.TableAfter(t, op))
  {
    if op.Update? {
      UpdateAnnounces(t, op.req, op.now);
    } else if op.Remove? {
      RemoveAnnounces(t, op);
    } else if op.Prune? {
      PruneCurrent(t, op.evs, op.now);
    }
  }

  lemma RemoveAnnounces(t: Table, op: W.Action)
    requires op.Remove?
    ensures NoDuplicates(Ids(W.EventsOf(t, op)))
    ensures forall ev :: ev in W.EventsOf(t, op) ==> Current(ev, W.TableAfter(t, op))
  {
    if op.id in t {
      assert W.EventsOf(t, op) == [Delete(op.id)];
      assert Ids([Delete(op.id)]) == [op.id];
    } else {
      assert W.EventsOf(t, op) == [];
      assert Ids([]) == [];
    }
  }

  lemma PruneCurrent(t: Table, evs: seq<Event>, now: Time)
    requires IsPruneBatch(t, now, evs)
    ensures forall ev :: ev in evs ==> Current(ev, PruneTable(t, now))
  {
    forall ev | ev in evs
      ensures Current(ev, PruneTable(t, now))
    {
      assert PruneEvent(t[EventId(ev)], now) == Some(ev);
    }
  }

  lemma UpdateAnnounces(t: Table, req: UpdateRequest, now: Time)
    requires ValidTable(t)
    ensures var evs := W.EventsOf(t, W.Update(req, now));
            NoDuplicates(Ids(evs)) && forall ev :: ev in evs ==> Current(ev, UpdateTable(t, req, now))
  {
    var ev := UpdateLaws.EventOf(t, req, now);
    UpdateLaws.EventNames(t, req, now);
    if ev.Some? {
      assert Ids([ev.value]) == [req.id];
      V.SnapshotAgrees(t);
      UpdateLaws.OutcomeOf(t, req, now);
      UpdateLaws.UpdateShows(t, req, now, MirrorOf(t));
    }
  }

  /** A commit changes nothing visible about an affiliate it does not announce. */
  lemma CommitKeeps(t: Table, op: W.Action, id: Id, m: Mirror)
    requires ValidTable(t) && !VisiblyFails(t, op, id) && AgreesAt(m, t, id)
    requires op.Prune? ==> IsPruneBatch(t, op.now, op.evs)
    requires id !in Ids(W.EventsOf(t, op))
    ensures AgreesAt(m, W.TableAfter(t, op), id)
  {
    match op {
      case Update(req, now) => UpdateKeeps(t, req, now, id, m);
      case Remove(k, _) =>
        assert k in t ==> Ids([Delete(k)])[0] == k;
      case Prune(evs, now) =>
        PruneLaws.IdInIds(evs, id);
        PruneLaws.PruneShows(t, now, evs, id);
      case _ =>
    }
  }

  lemma UpdateKeeps(t: Table, req: UpdateRequest, now: Time, id: Id, m: Mirror)
    requires ValidTable(t) && !VisiblyFails(t, W.Update(req, now), id) && AgreesAt(m, t, id)
    requires id !in Ids(W.EventsOf(t, W.Update(req, now)))
    ensures AgreesAt(m, UpdateTable(t, req, now), id)
  {
    var ev := UpdateLaws.EventOf(t, req, now);
    UpdateLaws.EventNames(t, req, now);
    if ev.Some? {
      assert Ids([ev.value])[0] == req.id;
    } else if id == req.id {
      UpdateLaws.UpdateShows(t, req, now, m);
    }
  }

  /** What a visible failure names, it does not announce. */
  lemma FailureIsSilent(t: Table, op: W.Action, id: Id)
    requires ValidTable(t) && VisiblyFails(t, op, id)
    ensures W.EventsOf(t, op) == []
  {
    UpdateLaws.OutcomeOf(t, op.req, op.now);
  }

  /**
   * Partway through announcing a commit: an affiliate announced so far agrees, whatever was wrong before;
   * any other agrees if it did, unless the commit is a visible failure of it.
   */
  lemma StageAt(t: Table, op: W.Action, m: Mirror, k: nat, id: Id)
    requires ValidTable(t) && k <= |W.EventsOf(t, op)|
    requires op.Prune? ==> IsPruneBatch(t, op.now, op.evs)
    requires id in Ids(W.EventsOf(t, op)[..k]) || (AgreesAt(m, t, id) && !VisiblyFails(t, op, id))
    ensures AgreesAt(Replay(m, W.EventsOf(t, op)[..k]), W.StagesOf(t, op)[k], id)
  {
    if op.Prune? {
      PrunedStageAt(t, op, m, k, id);
    } else {
      var evs := W.EventsOf(t, op);
      V.SingleReplay(m, evs, k);
      if k == 1 {
        SingleStageAt(t, op, m, id);
      } else if evs == [] {
        assert Ids(evs) == [];
        OtherKeeps(t, op, id, m);
      }
    }
  }

  lemma OtherKeeps(t: Table, op: W.Action, id: Id, m: Mirror)
    requires ValidTable(t) && !op.Prune? && W.EventsOf(t, op) == [] && AgreesAt(m, t, id) && !VisiblyFails(t, op, id)
    ensures AgreesAt(m, W.TableAfter(t, op), id)
  {
    assert Ids([]) == [];
    if op.Update? || op.Remove? {
      CommitKeeps(t, op, id, m);
    }
  }

  lemma SingleStageAt(t: Table, op: W.Action, m: Mirror, id: Id)
    requires ValidTable(t) && !op.Prune? && |W.EventsOf(t, op)| == 1
    requires id == EventId(W.EventsOf(t, op)[0]) || (AgreesAt(m, t, id) && !VisiblyFails(t, op, id))
    ensures AgreesAt(Apply(m, W.EventsOf(t, op)[0]), W.TableAfter(t, op), id)
  {
    var ev := W.EventsOf(t, op)[0];
    if id == EventId(ev) {
      CommitAnnounces(t, op);
      assert ev in W.EventsOf(t, op);
      ApplyCurrent(m, ev, W.TableAfter(t, op));
    } else {
      assert Ids([ev]) == [EventId(ev)];
      CommitKeeps(t, op, id, m);
      ApplyElsewhere(m, ev, W.TableAfter(t, op), id);
    }
  }

  lemma PrunedStageAt(t: Table, op: W.Action, m: Mirror, k: nat, id: Id)
    requires ValidTable(t) && op.Prune? && IsPruneBatch(t, op.now, op.evs) && k <= |op.evs|
    requires id in Ids(op.evs[..k]) || AgreesAt(m, t, id)
    ensures AgreesAt(Replay(m, op.evs[..k]), PartlyPruned(t, op.now, Elems(Ids(op.evs[..k]))), id)
  {
    V.PrefixBatch(op.evs, k);
    if id in Ids(op.evs[..k]) {
      V.PrunedAgreesAt(t, op.now, op.evs, k, m, id);
    } else {
      PruneLaws.ReplayMiss(m, op.evs[..k], id);
      assert PruneLaws.At(Replay(m, op.evs[..k]), id) == PruneLaws.At(m, id);
    }
  }

  // ----- every run -----

  lemma {:induction false} EveryRunValid(start: ClusterValue, acts: seq<W.Action>)
    requires ValidTable(start.table) && W.After(start, acts).Some?
    ensures var w := W.After(start, acts).value; ValidTable(w.cluster.table) && w.past[|w.log|] == w.cluster.table
    decreases |acts|
  {
    if acts != [] {
      var w, a := W.After(start, acts[..|acts| - 1]).value, acts[|acts| - 1];
      EveryRunValid(start, acts[..|acts| - 1]);
      V.TableAfterValid(w.cluster.table, a);
      V.TableStep(w, a);
      V.LastStage(w.cluster.table, a);
      var past := V.PerformPast(w, a);
    }
  }

  /** What client i, having replayed the log up to commit k, has of this affiliate is what the table had. */
  ghost predicate Sees(w: W.World, i: nat, id: Id, k: nat)
    requires i < |w.clients| && |w.past| == |w.log| + 1 && w.clients[i].start <= k <= |w.log|
  {
    AgreesAt(Replay(w.clients[i].Base(), w.log[w.clients[i].start..k]), w.past[k], id)
  }

  /** No event between these positions of the log is about the affiliate. */
  ghost predicate Unmentioned(log: seq<Event>, from: nat, to: nat, id: Id) {
    to <= |log| && forall j :: from <= j < to ==> EventId(log[j]) != id
  }

  /**
   * The n-th action is a visible failure of this affiliate after client i subscribed, and no event about the
   * affiliate was committed between it and commit k.
   */
  ghost predicate Missed(start: ClusterValue, acts: seq<W.Action>, log: seq<Event>, n: nat, i: nat, id: Id, k: nat) {
    && n < |acts| && W.After(start, acts[..n]).Some?
    && var v := W.After(start, acts[..n]).value;
    && i < |v.clients| && VisiblyFails(v.cluster.table, acts[n], id)
    && |v.log| <= k && Unmentioned(log, |v.log|, k, id)
  }

  ghost predicate MissedSome(start: ClusterValue, acts: seq<W.Action>, log: seq<Event>, i: nat, id: Id, k: nat) {
    exists n: nat :: Missed(start, acts, log, n, i, id, k)
  }

  lemma MissedStays(start: ClusterValue, acts: seq<W.Action>, a: W.Action, log: seq<Event>, evs: seq<Event>,
                    n: nat, i: nat, id: Id, k: nat, k': nat)
    requires Missed(start, acts, log, n, i, id, k) && k <= k' <= |log| + |evs|
    requires Unmentioned(log + evs, k, k', id)
    ensures Missed(start, acts + [a], log + evs, n, i, id, k')
  {
    assert (acts + [a])[..n] == acts[..n];
  }

  /** A step with these events and tables: what it makes of client i, the log and the history. */
  ghost predicate Stepped(w: W.World, evs: seq<Event>, stages: seq<Table>, w': W.World, i: nat) {
    && |w.past| == |w.log| + 1 && |w'.past| == |w'.log| + 1 && |stages| == |evs| + 1
    && (evs != [] ==> stages[0] == w.past[|w.log|])
    && i < |w.clients| && i < |w'.clients| && w'.clients[i].start == w.clients[i].start <= |w.log|
    && w'.clients[i].Base() == w.clients[i].Base()
    && w'.log == w.log + evs && w'.past == w.past[..|w.log|] + stages
  }

  lemma StepFacts(w: W.World, a: W.Action, w': W.World, i: nat) returns (evs: seq<Event>, stages: seq<Table>)
    requires W.Enabled(w, a) && |w.past| == |w.log| + 1 && i < |w.clients| && w.clients[i].start <= |w.log|
    requires ValidTable(w.cluster.table) && w.past[|w.log|] == w.cluster.table
    requires w' == W.Perform(w, a)
    ensures evs == W.EventsOf(w.cluster.table, a) && stages == W.StagesOf(w.cluster.table, a)
    ensures Stepped(w, evs, stages, w', i)
  {
    evs, stages := W.EventsOf(w.cluster.table, a), W.StagesOf(w.cluster.table, a);
    V.LastStage(w.cluster.table, a);
  }

  /** A commit k reached before the step is seen as before. */
  lemma SeesBefore(w: W.World, evs: seq<Event>, stages: seq<Table>, w': W.World, i: nat, id: Id, k: nat)
    requires Stepped(w, evs, stages, w', i) && w.clients[i].start <= k <= |w.log| && (k < |w.log| || evs != [])
    ensures k <= |w'.log| && (Sees(w', i, id, k) <==> Sees(w, i, id, k))
  {
    V.SliceBefore(w.log, evs, w.clients[i].start, k);
    V.Spliced(w.past, |w.log|, stages, k);
  }

  /** A commit k made by the step is seen if the events up to it lead to its table. */
  lemma SeesNow(w: W.World, evs: seq<Event>, stages: seq<Table>, w': W.World, i: nat, id: Id, k: nat)
    requires Stepped(w, evs, stages, w', i) && |w.log| <= k <= |w'.log|
    requires AgreesAt(Replay(CopyAt(w, i), evs[..k - |w.log|]), stages[k - |w.log|], id)
    ensures Sees(w', i, id, k)
  {
    V.ReplayAcross(w.log, evs, w.clients[i].Base(), w.clients[i].start, k);
    V.Spliced(w.past, |w.log|, stages, k);
  }

  /** What client i has when it has replayed the whole log. */
  ghost function CopyAt(w: W.World, i: nat): Mirror
    requires i < |w.clients| && w.clients[i].start <= |w.log|
  {
    Replay(w.clients[i].Base(), w.log[w.clients[i].start..|w.log|])
  }

  ghost predicate SeesOrMissed(start: ClusterValue, acts: seq<W.Action>, w: W.World, i: nat, id: Id, k: nat)
    requires i < |w.clients| && |w.past| == |w.log| + 1 && w.clients[i].start <= k <= |w.log|
  {
    Sees(w, i, id, k) || MissedSome(start, acts, w.log, i, id, k)
  }

  lemma SeesStep(start: ClusterValue, acts: seq<W.Action>, a: W.Action, w: W.World, w': W.World,
                 evs: seq<Event>, stages: seq<Table>, i: nat, id: Id, k: nat)
    requires W.After(start, acts) == Some(w) && W.Enabled(w, a) && ValidTable(w.cluster.table)
    requires evs == W.EventsOf(w.cluster.table, a) && stages == W.StagesOf(w.cluster.table, a)
    requires Stepped(w, evs, stages, w', i) && w.past[|w.log|] == w.cluster.table
    requires w.clients[i].start <= k <= |w'.log|
    requires SeesOrMissed(start, acts, w, i, id, if k < |w.log| then k else |w.log|)
    ensures SeesOrMissed(start, acts + [a], w', i, id, k)
  {
    if VisiblyFails(w.cluster.table, a, id) {
      MissedNow(start, acts, a, w, w', i, id);
    }
    if Leads(w, evs, a, i, id, k) {
      StageAt(w.cluster.table, a, CopyAt(w, i), k - |w.log|, id);
    }
    SeesOn(start, acts, a, w, w', evs, stages, i, id, k);
  }

  /** The step makes commit k, and says of the affiliate what the client then sees. */
  ghost predicate Leads(w: W.World, evs: seq<Event>, a: W.Action, i: nat, id: Id, k: nat)
    requires |w.past| == |w.log| + 1 && i < |w.clients| && w.clients[i].start <= |w.log|
  {
    |w.log| <= k <= |w.log| + |evs| &&
    (id in Ids(evs[..k - |w.log|]) || (Sees(w, i, id, |w.log|) && !VisiblyFails(w.cluster.table, a, id)))
  }

  lemma SeesOn(start: ClusterValue, acts: seq<W.Action>, a: W.Action, w: W.World, w': W.World,
               evs: seq<Event>, stages: seq<Table>, i: nat, id: Id, k: nat)
    requires Stepped(w, evs, stages, w', i) && w.clients[i].start <= k <= |w'.log|
    requires SeesOrMissed(start, acts, w, i, id, if k < |w.log| then k else |w.log|)
    requires VisiblyFails(w.cluster.table, a, id) ==>
               evs == [] && MissedSome(start, acts + [a], w'.log, i, id, |w.log|)
    requires Leads(w, evs, a, i, id, k) ==>
               AgreesAt(Replay(CopyAt(w, i), evs[..k - |w.log|]), stages[k - |w.log|], id)
    ensures SeesOrMissed(start, acts + [a], w', i, id, k)
  {
    if k < |w.log| || (k == |w.log| && evs != []) {
      SeesBefore(w, evs, stages, w', i, id, k);
      if !Sees(w, i, id, k) {
        MissedLater(start, acts, a, w, w', i, id, k, k);
      }
    } else if Leads(w, evs, a, i, id, k) {
      SeesNow(w, evs, stages, w', i, id, k);
    } else if !VisiblyFails(w.cluster.table, a, id) {
      StillUnmentioned(w.log, evs, k, id);
      MissedLater(start, acts, a, w, w', i, id, |w.log|, k);
    }
  }

  lemma MissedLater(start: ClusterValue, acts: seq<W.Action>, a: W.Action, w: W.World, w': W.World,
                    i: nat, id: Id, k: nat, k': nat)
    requires MissedSome(start, acts, w.log, i, id, k) && w.log <= w'.log
    requires k <= k' <= |w'.log| && Unmentioned(w'.log, k, k', id)
    ensures MissedSome(start, acts + [a], w'.log, i, id, k')
  {
    var n: nat :| Missed(start, acts, w.log, n, i, id, k);
    assert w'.log == w.log + w'.log[|w.log|..];
    MissedStays(start, acts, a, w.log, w'.log[|w.log|..], n, i, id, k, k');
  }

  lemma MissedNow(start: ClusterValue, acts: seq<W.Action>, a: W.Action, w: W.World, w': W.World, i: nat, id: Id)
    requires W.After(start, acts) == Some(w) && i < |w.clients| && ValidTable(w.cluster.table)
    requires VisiblyFails(w.cluster.table, a, id) && w'.log == w.log + W.EventsOf(w.cluster.table, a)
    ensures w'.log == w.log && MissedSome(start, acts + [a], w'.log, i, id, |w.log|)
  {
    FailureIsSilent(w.cluster.table, a, id);
    assert (acts + [a])[..|acts|] == acts;
    assert Missed(start, acts + [a], w'.log, |acts|, i, id, |w.log|);
  }

  /** A client that has just subscribed sees the table it was given. */
  lemma SeesAtFirst(w: W.World, a: W.Action, w': W.World, i: nat, id: Id, k: nat)
    requires W.Enabled(w, a) && |w.past| == |w.log| + 1 && |w'.past| == |w'.log| + 1 && w' == W.Perform(w, a)
    requires |w.clients| <= i < |w'.clients| && w'.past[|w'.log|] == w'.cluster.table
    requires w'.clients[i].start <= k <= |w'.log|
    ensures Sees(w', i, id, k)
  {
    assert k == |w'.log| && w'.log[k..k] == [];
    V.SnapshotAgrees(w.cluster.table);
  }

  lemma StillUnmentioned(log: seq<Event>, evs: seq<Event>, k: nat, id: Id)
    requires |log| <= k <= |log| + |evs| && id !in Ids(evs[..k - |log|])
    ensures Unmentioned(log + evs, |log|, k, id)
  {
    forall j | |log| <= j < k
      ensures EventId((log + evs)[j]) != id
    {
      assert Ids(evs[..k - |log|])[j - |log|] == EventId((log + evs)[j]);
    }
  }

  /**
   * In every run, visible failures included: what a client has of an affiliate at any commit is what the
   * table had, unless some update of this very affiliate failed visibly after the client subscribed and no
   * event about the affiliate followed it up to that commit.
   */
  lemma {:induction false} EveryRunSees(start: ClusterValue, acts: seq<W.Action>, w: W.World, i: nat, id: Id, k: nat)
    requires start.subs == [] && ValidTable(start.table) && W.After(start, acts) == Some(w)
    requires i < |w.clients| && w.clients[i].start <= k <= |w.log|
    ensures SeesOrMissed(start, acts, w, i, id, k)
    decreases |acts|
  {
    if acts != [] {
      var front, a, v := LastStep(start, acts, w);
      if i < |v.clients| {
        var k0 := StartWithin(start, front, v, a, w, i, k);
        EveryRunSees(start, front, v, i, id, k0);
        SeesGrows(start, front, a, v, w, i, id, k, k0);
      } else {
        EveryRunValid(start, acts);
        SeesAtFirst(v, a, w, i, id, k);
      }
    }
  }

  lemma LastStep(start: ClusterValue, acts: seq<W.Action>, w: W.World)
    returns (front: seq<W.Action>, a: W.Action, v: W.World)
    requires acts != [] && W.After(start, acts) == Some(w) && start.subs == [] && ValidTable(start.table)
    ensures acts == front + [a] && W.After(start, front) == Some(v) && |v.past| == |v.log| + 1
    ensures W.Enabled(v, a) && w == W.Perform(v, a) && |w.past| == |w.log| + 1
    ensures ValidTable(v.cluster.table) && v.past[|v.log|] == v.cluster.table
  {
    front, a := acts[..|acts| - 1], acts[|acts| - 1];
    FrontLast(acts);
    v := W.After(start, front).value;
    EveryRunValid(start, front);
  }

  /** The commit of the run before the step that stands for commit k. */
  lemma StartWithin(start: ClusterValue, acts: seq<W.Action>, v: W.World, a: W.Action, w: W.World, i: nat, k: nat)
    returns (k0: nat)
    requires start.subs == [] && W.After(start, acts) == Some(v) && i < |v.clients| && |v.past| == |v.log| + 1
    requires W.Enabled(v, a) && w == W.Perform(v, a) && i < |w.clients| && w.clients[i].start <= k
    ensures k0 == (if k < |v.log| then k else |v.log|) && v.clients[i].start <= k0
  {
    W.EveryRunGapFree(start, acts);
    assert W.GapFreeAt(v, i);
    k0 := if k < |v.log| then k else |v.log|;
  }

  lemma SeesGrows(start: ClusterValue, front: seq<W.Action>, a: W.Action, v: W.World, w: W.World,
                  i: nat, id: Id, k: nat, k0: nat)
    requires W.After(start, front) == Some(v) && W.Enabled(v, a) && w == W.Perform(v, a)
    requires ValidTable(v.cluster.table) && |v.past| == |v.log| + 1 && v.past[|v.log|] == v.cluster.table
    requires i < |v.clients| && v.clients[i].start <= k0 && k0 == if k < |v.log| then k else |v.log|
    requires |w.past| == |w.log| + 1 && i < |w.clients| && w.clients[i].start <= k <= |w.log|
    requires SeesOrMissed(start, front, v, i, id, k0)
    ensures SeesOrMissed(start, front + [a], w, i, id, k)
  {
    var evs, stages := StepFacts(v, a, w, i);
    SeesStep(start, front, a, v, w, evs, stages, i, id, k);
  }

  /** So for what a client was actually sent, which is the log from its subscription up to such a commit. */
  lemma ClientSees(start: ClusterValue, acts: seq<W.Action>, w: W.World, i: nat, id: Id) returns (k: nat)
    requires start.subs == [] && ValidTable(start.table) && W.After(start, acts) == Some(w) && i < |w.clients|
    ensures k == w.clients[i].start + |w.clients[i].sent| <= |w.log|
    ensures w.log[w.clients[i].start..k] == w.clients[i].sent
    ensures SeesOrMissed(start, acts, w, i, id, k)
  {
    k := w.clients[i].start + |w.clients[i].sent|;
    SentIsLog(start, acts, w, i);
    EveryRunSees(start, acts, w, i, id, k);
  }

  lemma SentIsLog(start: ClusterValue, acts: seq<W.Action>, w: W.World, i: nat)
    requires start.subs == [] && W.After(start, acts) == Some(w) && i < |w.clients|
    ensures var c := w.clients[i];
            c.start + |c.sent| <= |w.log| && w.log[c.start..c.start + |c.sent|] == c.sent
  {
    W.EveryRunGapFree(start, acts);
    assert W.GapFreeAt(w, i);
    V.PrefixOfSuffix(w.clients[i].sent, w.cluster.subs[i].buffer, w.log, w.clients[i].start);
  }
}
