/**
 * The service, whose requests each get their cluster and use it in one step, refines one flat table:
 * creating and collecting clusters cannot be observed by listing.
 */
module Flat {
  import opened Basics
  import opened Affiliates
  import opened Registry
  import opened Validation
  import Discovery
  import FanOut

  type FlatTable = map<(Id, Id), Record>

  /** Forget clusters: every affiliate under its cluster id and its own id. */
  ghost function Flatten(s: Discovery.Clusters): FlatTable {
    map c, k | c in s && k in s[c].table :: (c, k) := s[c].table[k]
  }

  /** The affiliates of one cluster id. */
  ghost function Members(f: FlatTable, c: Id): Table {
    map p | p in f && p.0 == c :: p.1 := f[p]
  }

  ghost function FlatUpdate(f: FlatTable, msg: UpdateMessage, now: Time): FlatTable {
    if CheckUpdate(msg).Some? then f
    else
      var t, req := Members(f, msg.clusterId), ToRequest(msg);
      if Refused(t, req) then f
      else f[(msg.clusterId, msg.affiliateId) := UpdatedRecord(Target(t, msg.affiliateId), req, now)]
  }

  ghost function FlatRemove(f: FlatTable, c: Id, id: Id): FlatTable {
    if CheckClusterID(c).Some? || CheckAffiliateID(id).Some? then f else f - {(c, id)}
  }

  /** The expiry filter. */
  ghost function FlatPrune(f: FlatTable, now: Time): FlatTable {
    map p | p in f && f[p].expiry > now :: PrunedRecord(f[p], now)
  }

  ghost function FlatDo(f: FlatTable, a: Discovery.Action): FlatTable {
    match a
    case Update(msg, now) => FlatUpdate(f, msg, now)
    case Remove(c, id, _) => FlatRemove(f, c, id)
    case Cleanup(_, now) => FlatPrune(f, now)
    case _ => f
  }

  /** The flat service: its table, and the table the snapshot file describes. */
  datatype FlatService = FlatService(table: FlatTable, saved: FlatTable)

  ghost function FlatTake(f: FlatService, x: Discovery.Step): FlatService {
    match x
    case Perform(a) => f.(table := FlatDo(f.table, a))
    case Save => f.(saved := f.table)
    case Restart(_) => f.(table := f.saved)
  }

  ghost function FlatAfter(steps: seq<Discovery.Step>): FlatService
    decreases |steps|
  {
    if steps == [] then FlatService(map[], map[]) else FlatTake(FlatAfter(steps[..|steps| - 1]), steps[|steps| - 1])
  }

  /** What List answers: nothing for a cluster that is not there. */
  ghost function List(s: Discovery.Clusters, c: Id): Mirror {
    if c in s then MirrorOf(s[c].table) else map[]
  }

  // ----- one step -----

  ghost function TableAt(s: Discovery.Clusters, c: Id): Table {
    if c in s then s[c].table else map[]
  }

  lemma MembersOfFlatten(s: Discovery.Clusters, c: Id)
    ensures Members(Flatten(s), c) == TableAt(s, c)
  {
    var f := Flatten(s);
    forall k
      ensures k in Members(f, c) <==> k in TableAt(s, c)
    {
      assert (c, k) in f <==> c in s && k in s[c].table;
    }
    forall k | k in Members(f, c)
      ensures Members(f, c)[k] == TableAt(s, c)[k]
    {
      assert f[(c, k)] == s[c].table[k];
    }
  }

  lemma FlattenAt(s: Discovery.Clusters, p: (Id, Id))
    ensures p in Flatten(s) <==> p.1 in TableAt(s, p.0)
    ensures p in Flatten(s) ==> Flatten(s)[p] == TableAt(s, p.0)[p.1]
  {
  }

  lemma FlatEqual(s: Discovery.Clusters, f: FlatTable)
    requires forall p :: p in f <==> p.1 in TableAt(s, p.0)
    requires forall p :: p in f ==> f[p] == TableAt(s, p.0)[p.1]
    ensures Flatten(s) == f
  {
    forall p
      ensures p in Flatten(s) <==> p in f
      ensures p in f ==> Flatten(s)[p] == f[p]
    {
      FlattenAt(s, p);
    }
  }

  /** Only the table of cluster c moved. */
  ghost predicate Moved(s: Discovery.Clusters, s': Discovery.Clusters, c: Id, t: Table) {
    forall d :: TableAt(s', d) == if d == c then t else TableAt(s, d)
  }

  lemma FlatAfterMove(s: Discovery.Clusters, s': Discovery.Clusters, c: Id, t: Table, f: FlatTable)
    requires Moved(s, s', c, t)
    requires forall p :: p in f <==> if p.0 == c then p.1 in t else p in Flatten(s)
    requires forall p :: p in f ==> f[p] == if p.0 == c then t[p.1] else Flatten(s)[p]
    ensures Flatten(s') == f
  {
    forall p
      ensures p in f <==> p.1 in TableAt(s', p.0)
      ensures p in f ==> f[p] == TableAt(s', p.0)[p.1]
    {
      FlattenAt(s, p);
      assert TableAt(s', p.0) == if p.0 == c then t else TableAt(s, p.0);
    }
    FlatEqual(s', f);
  }

  lemma StutterStep(s: Discovery.Clusters, s': Discovery.Clusters)
    requires forall d :: TableAt(s', d) == TableAt(s, d)
    ensures Flatten(s') == Flatten(s)
  {
    forall p
      ensures p in Flatten(s) <==> p.1 in TableAt(s', p.0)
      ensures p in Flatten(s) ==> Flatten(s)[p] == TableAt(s', p.0)[p.1]
    {
      FlattenAt(s, p);
      assert TableAt(s', p.0) == TableAt(s, p.0);
    }
    FlatEqual(s', Flatten(s));
  }

  lemma InsertRefines(s: Discovery.Clusters, s': Discovery.Clusters, c: Id, k: Id, rec: Record)
    requires Moved(s, s', c, TableAt(s, c)[k := rec])
    ensures Flatten(s') == Flatten(s)[(c, k) := rec]
  {
    var t, f := TableAt(s, c)[k := rec], Flatten(s)[(c, k) := rec];
    forall p
      ensures p in f <==> if p.0 == c then p.1 in t else p in Flatten(s)
      ensures p in f ==> f[p] == if p.0 == c then t[p.1] else Flatten(s)[p]
    {
      FlattenAt(s, p);
    }
    FlatAfterMove(s, s', c, t, f);
  }

  lemma UpdateMoves(s: Discovery.Clusters, msg: UpdateMessage, now: Time)
    requires CheckUpdate(msg).None?
    ensures Moved(s, Discovery.Do(s, Discovery.Update(msg, now)), msg.clusterId,
                  UpdateTable(TableAt(s, msg.clusterId), ToRequest(msg), now))
  {
    var c := Discovery.ClusterFor(s, msg.clusterId, now);
    assert UpdateCluster(c, ToRequest(msg), now).table == UpdateTable(c.table, ToRequest(msg), now);
  }

  lemma FlatUpdateIs(f: FlatTable, t: Table, msg: UpdateMessage, now: Time, rec: Record)
    requires CheckUpdate(msg).None? && t == Members(f, msg.clusterId)
    requires rec == UpdatedRecord(Target(t, msg.affiliateId), ToRequest(msg), now)
    ensures FlatUpdate(f, msg, now) ==
              if Refused(t, ToRequest(msg)) then f else f[(msg.clusterId, msg.affiliateId) := rec]
  {
  }

  lemma MoveRefines(s: Discovery.Clusters, s': Discovery.Clusters, c: Id, t: Table, k: Id, rec: Record, refused: bool)
    requires Moved(s, s', c, t) && t == if refused then TableAt(s, c) else TableAt(s, c)[k := rec]
    ensures Flatten(s') == if refused then Flatten(s) else Flatten(s)[(c, k) := rec]
  {
    if refused {
      assert forall d :: TableAt(s', d) == TableAt(s, d);
      StutterStep(s, s');
    } else {
      InsertRefines(s, s', c, k, rec);
    }
  }

  lemma UpdateRefines(s: Discovery.Clusters, msg: UpdateMessage, now: Time)
    ensures Flatten(Discovery.Do(s, Discovery.Update(msg, now))) == FlatUpdate(Flatten(s), msg, now)
  {
    if CheckUpdate(msg).None? {
      UpdateMoves(s, msg, now);
      MovedRefines(s, Discovery.Do(s, Discovery.Update(msg, now)), TableAt(s, msg.clusterId), msg, now);
    }
  }

  lemma MovedRefines(s: Discovery.Clusters, s': Discovery.Clusters, t: Table, msg: UpdateMessage, now: Time)
    requires CheckUpdate(msg).None? && t == TableAt(s, msg.clusterId)
    requires Moved(s, s', msg.clusterId, UpdateTable(t, ToRequest(msg), now))
    ensures Flatten(s') == FlatUpdate(Flatten(s), msg, now)
  {
    var req := ToRequest(msg);
    assert req.id == msg.affiliateId;
    var rec := UpdatedRecord(Target(t, req.id), req, now);
    var f := Flatten(s);
    MembersOfFlatten(s, msg.clusterId);
    FlatUpdateIs(f, t, msg, now, rec);
    UpdateTableIs(t, req, now, rec);
    MoveRefines(s, s', msg.clusterId, UpdateTable(t, req, now), req.id, rec, Refused(t, req));
  }

  lemma UpdateTableIs(t: Table, req: UpdateRequest, now: Time, rec: Record)
    requires rec == UpdatedRecord(Target(t, req.id), req, now)
    ensures UpdateTable(t, req, now) == if Refused(t, req) then t else t[req.id := rec]
  {
  }

  lemma DropRefines(s: Discovery.Clusters, s': Discovery.Clusters, c: Id, k: Id)
    requires Moved(s, s', c, TableAt(s, c) - {k})
    ensures Flatten(s') == Flatten(s) - {(c, k)}
  {
    var t, f := TableAt(s, c) - {k}, Flatten(s) - {(c, k)};
    forall p
      ensures p in f <==> if p.0 == c then p.1 in t else p in Flatten(s)
      ensures p in f ==> f[p] == if p.0 == c then t[p.1] else Flatten(s)[p]
    {
      FlattenAt(s, p);
    }
    FlatAfterMove(s, s', c, t, f);
  }

  lemma RemoveRefines(s: Discovery.Clusters, c: Id, id: Id, now: Time)
    ensures Flatten(Discovery.Do(s, Discovery.Remove(c, id, now))) == FlatRemove(Flatten(s), c, id)
  {
    if CheckClusterID(c).None? && CheckAffiliateID(id).None? {
      assert id !in TableAt(s, c) ==> TableAt(s, c) - {id} == TableAt(s, c);
      DropRefines(s, Discovery.Do(s, Discovery.Remove(c, id, now)), c, id);
    }
  }

  lemma CleanupRefines(s: Discovery.Clusters, batches: map<Id, seq<Event>>, now: Time)
    requires Discovery.AreBatches(s, now, batches)
    ensures Flatten(Discovery.Do(s, Discovery.Cleanup(batches, now))) == FlatPrune(Flatten(s), now)
  {
    var s', f := Discovery.Do(s, Discovery.Cleanup(batches, now)), Flatten(s);
    forall d
      ensures TableAt(s', d) == PruneTable(TableAt(s, d), now)
    {
      if d in s {
        FanOut.NotifyEachSubs(s[d].(table := PruneTable(s[d].table, now)), batches[d], now);
      }
    }
    forall p
      ensures p in FlatPrune(f, now) <==> p.1 in TableAt(s', p.0)
      ensures p in FlatPrune(f, now) ==> FlatPrune(f, now)[p] == TableAt(s', p.0)[p.1]
    {
      FlattenAt(s, p);
      assert TableAt(s', p.0) == PruneTable(TableAt(s, p.0), now);
    }
    FlatEqual(s', FlatPrune(f, now));
  }

  /** Each operation of the service is the same operation of the flat table, or a stutter. */
  lemma StepRefines(s: Discovery.Clusters, a: Discovery.Action)
    requires Discovery.Enabled(s, a)
    ensures Flatten(Discovery.Do(s, a)) == FlatDo(Flatten(s), a)
  {
    match a {
      case Update(msg, now) => UpdateRefines(s, msg, now);
      case Remove(c, id, now) => RemoveRefines(s, c, id, now);
      case Cleanup(batches, now) => CleanupRefines(s, batches, now);
      case _ => StutterStep(s, Discovery.Do(s, a));
    }
  }

  // ----- every run -----

  ghost function FlattenBoth(s: Discovery.Service): FlatService {
    FlatService(Flatten(s.clusters), Flatten(s.saved))
  }

  lemma RestartRefines(s: Discovery.Clusters, now: Time)
    ensures Flatten(Discovery.Restarted(s, now)) == Flatten(s)
  {
    var s' := Discovery.Restarted(s, now);
    forall d
      ensures TableAt(s', d) == TableAt(s, d)
    {
    }
    StutterStep(s, s');
  }

  lemma TakeRefines(s: Discovery.Service, x: Discovery.Step)
    requires Discovery.CanTake(s, x)
    ensures FlattenBoth(Discovery.Take(s, x)) == FlatTake(FlattenBoth(s), x)
  {
    match x
    case Perform(a) => StepRefines(s.clusters, a);
    case Save =>
    case Restart(now) => RestartRefines(s.saved, now);
  }

  lemma StartRefines()
    ensures FlattenBoth(Discovery.Initial) == FlatService(map[], map[])
  {
    assert Flatten(map[]) == map[];
  }

  /** Every run of the service, across restarts, is a run of the flat service. */
  lemma {:induction false} RunRefines(steps: seq<Discovery.Step>)
    requires Discovery.After(steps).Some?
    ensures FlattenBoth(Discovery.After(steps).value) == FlatAfter(steps)
    decreases |steps|
  {
    if steps == [] {
      StartRefines();
    } else {
      RunRefines(steps[..|steps| - 1]);
      TakeRefines(Discovery.After(steps[..|steps| - 1]).value, steps[|steps| - 1]);
    }
  }

  /** After any run, List answers from the flat table: when clusters come and go cannot be seen. */
  lemma ListIsFlat(steps: seq<Discovery.Step>, s: Discovery.Service, c: Id)
    requires Discovery.After(steps) == Some(s)
    ensures List(s.clusters, c) == MirrorOf(Members(FlatAfter(steps).table, c))
  {
    RunMembers(steps, s, c);
    assert MirrorOf(map[]) == map[];
  }

  lemma RunMembers(steps: seq<Discovery.Step>, s: Discovery.Service, c: Id)
    requires Discovery.After(steps) == Some(s)
    ensures Members(FlatAfter(steps).table, c) == TableAt(s.clusters, c)
  {
    RunRefines(steps);
    assert FlattenBoth(s).table == Flatten(s.clusters);
    MembersOfFlatten(s.clusters, c);
  }

  /** An update is answered from the flat table too. */
  lemma OutcomeIsFlat(steps: seq<Discovery.Step>, s: Discovery.Service, msg: UpdateMessage, now: Time)
    requires Discovery.After(steps) == Some(s) && CheckUpdate(msg).None?
    ensures UpdateOutcome(Discovery.ClusterFor(s.clusters, msg.clusterId, now).table, ToRequest(msg), now) ==
              UpdateOutcome(Members(FlatAfter(steps).table, msg.clusterId), ToRequest(msg), now)
  {
    RunMembers(steps, s, msg.clusterId);
  }
}
