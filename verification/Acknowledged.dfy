/**
 * What an update or delete through a handle shows to other requests when getting the cluster and using it
 * are two steps. It shows exactly if the map still holds the handle's object; when every handle is used in
 * the step after it was got, the cluster objects refine one flat table.
 */
module Acknowledged {
  import opened Basics
  import opened Affiliates
  import opened Registry
  import opened Handles
  import Discovery
  import FanOut
  import Flat

  /** The clusters the map holds. */
  ghost function Registered(s: Heap): Discovery.Clusters {
    map id | id in s.current && s.current[id] < |s.objects| :: s.objects[s.current[id]].value
  }

  /** The affiliates a new request finds for a cluster id. */
  ghost function Shown(s: Heap, id: Id): Table {
    Flat.TableAt(Registered(s), id)
  }

  // ----- one operation through a handle -----

  /** A change of one object shows under its id exactly if the map holds the object. */
  lemma SetShows(s: Heap, r: nat, c: ClusterValue)
    requires Invariant(s) && r < |s.objects| && c.id == s.objects[r].value.id
    ensures Attached(s, r) ==>
              Shown(s, c.id) == s.objects[r].value.table &&
              Flat.Moved(Registered(s), Registered(SetValue(s, r, c)), c.id, c.table)
    ensures !Attached(s, r) ==> Registered(SetValue(s, r, c)) == Registered(s)
  {
    assert forall id :: id in s.current && s.current[id] == r ==> id == c.id;
  }

  /**
   * An update through handle h is applied to the handle's object. It changes what the map shows if and only
   * if the map holds that object; otherwise what was stored and acknowledged is shown to nobody.
   */
  lemma UpdateShownIff(s: Heap, h: nat, req: UpdateRequest, now: Time)
    requires Invariant(s) && Enabled(s, Update(h, req, now))
    ensures var r := s.handles[h];
            var c := s.objects[r].value;
            var s' := Do(s, Update(h, req, now));
            && r < |s'.objects| && s'.objects[r].value.table == UpdateTable(c.table, req, now)
            && Shown(s', c.id) == (if Attached(s, r) then UpdateTable(Shown(s, c.id), req, now) else Shown(s, c.id))
            && (forall id :: id != c.id ==> Shown(s', id) == Shown(s, id))
            && (UpdateTable(c.table, req, now) != c.table ==> (Shown(s', c.id) != Shown(s, c.id) <==> Attached(s, r)))
  {
    var r := s.handles[h];
    var c := s.objects[r].value;
    UpdateTableOf(c, req, now);
    SetShows(s, r, UpdateCluster(c, req, now));
    ShownAfter(s, Do(s, Update(h, req, now)), r, UpdateTable(c.table, req, now));
  }

  lemma ShownAfter(s: Heap, s': Heap, r: nat, t: Table)
    requires r < |s.objects|
    requires Attached(s, r) ==> Flat.Moved(Registered(s), Registered(s'), s.objects[r].value.id, t)
    requires !Attached(s, r) ==> Registered(s') == Registered(s)
    ensures Shown(s', s.objects[r].value.id) == if Attached(s, r) then t else Shown(s, s.objects[r].value.id)
    ensures forall id :: id != s.objects[r].value.id ==> Shown(s', id) == Shown(s, id)
  {
  }

  lemma DeleteTableOf(c: ClusterValue, k: Id, now: Time)
    ensures DeleteFromCluster(c, k, now).table == c.table - {k} && DeleteFromCluster(c, k, now).id == c.id
  {
    assert k !in c.table ==> c.table - {k} == c.table;
  }

  /** The same for a delete. */
  lemma RemoveShownIff(s: Heap, h: nat, k: Id, now: Time)
    requires Invariant(s) && Enabled(s, Remove(h, k, now))
    ensures var r := s.handles[h];
            var c := s.objects[r].value;
            var s' := Do(s, Remove(h, k, now));
            && r < |s'.objects| && s'.objects[r].value.table == c.table - {k}
            && Shown(s', c.id) == (if Attached(s, r) then Shown(s, c.id) - {k} else Shown(s, c.id))
            && (forall id :: id != c.id ==> Shown(s', id) == Shown(s, id))
            && (k in c.table ==> (Shown(s', c.id) != Shown(s, c.id) <==> Attached(s, r)))
  {
    var r := s.handles[h];
    var c := s.objects[r].value;
    DeleteTableOf(c, k, now);
    SetShows(s, r, DeleteFromCluster(c, k, now));
    ShownAfter(s, Do(s, Remove(h, k, now)), r, c.table - {k});
  }

  /** An object the map has dropped never comes back. */
  lemma DroppedForGood(s: Heap, a: Step, r: nat)
    requires Invariant(s) && Enabled(s, a) && r < |s.objects| && !Attached(s, r)
    ensures r < |Do(s, a).objects| && !Attached(Do(s, a), r)
  {
    IdsStay(s, a, r);
    if a.Acquire? && a.id !in s.current {
      assert Do(s, a).current[a.id] == |s.objects|;
    }
  }

  lemma IdsStay(s: Heap, a: Step, r: nat)
    requires Invariant(s) && Enabled(s, a) && r < |s.objects|
    ensures r < |Do(s, a).objects| && Do(s, a).objects[r].value.id == s.objects[r].value.id
  {
    if a.Update? {
      ObjectOpsClose(s.objects[s.handles[a.h]].value, a.req, [], [], a.now);
    } else if a.Remove? {
      ObjectOpsClose(s.objects[s.handles[a.h]].value, UpdateRequest([], [], [], 0), a.id, [], a.now);
    } else if a.CleanOne? {
      CleanIdsStay(s, a.id, a.evs, a.now, r);
    }
  }

  lemma CleanIdsStay(s: Heap, id: Id, evs: seq<Event>, now: Time, r: nat)
    requires Invariant(s) && Enabled(s, CleanOne(id, evs, now)) && r < |s.objects|
    ensures var s' := Do(s, CleanOne(id, evs, now));
            r < |s'.objects| && s'.objects[r].value.id == s.objects[r].value.id
  {
    ObjectOpsClose(s.objects[s.current[id]].value, UpdateRequest([], [], [], 0), [], evs, now);
  }

  // ----- an acknowledged update that is never shown -----

  /**
   * A request gets an existing, expired cluster; a cleanup drops it; the request updates it successfully.
   * All at one instant: the update is acknowledged, and a request for the cluster finds nothing.
   */
  lemma CleanupBetweenLosesUpdate(id: Id, req: UpdateRequest, now: Time)
    requires now > 1_800_000_000_000 && UpdateOutcome(map[], req, now).Updated?
    ensures var steps := Dropping(id, now) + [Update(1, req, now)];
            After(NewHeap, steps).Some? &&
            var s := After(NewHeap, steps).value;
            && |s.objects| == 1 && s.objects[0].value.id == id && req.id in s.objects[0].value.table
            && s.handles == [0, 0] && !Attached(s, 0) && Shown(s, id) == map[]
  {
    Dropped(id, now);
    var s := After(NewHeap, Dropping(id, now)).value;
    UpdateTableOf(NewCluster(id, 0), req, now);
    IdOfUpdate(NewCluster(id, 0), req, now);
    AfterSnoc(NewHeap, Dropping(id, now), Update(1, req, now));
    assert UpdateTable(map[], req, now) == map[req.id := UpdatedRecord(Target(map[], req.id), req, now)];
  }

  lemma IdOfUpdate(c: ClusterValue, req: UpdateRequest, now: Time)
    ensures UpdateCluster(c, req, now).id == c.id
  {
  }

  // ----- handles used at once -----

  /** The cluster id of the handle that the step before n handed out. */
  function HandleId(steps: seq<Step>, n: nat): Id
    requires n < |steps|
  {
    if n == 0 then []
    else if steps[n - 1].Acquire? then steps[n - 1].id
    else if steps[n - 1].Lookup? then steps[n - 1].id
    else []
  }

  predicate UsesHandle(a: Step) {
    a.Subscribe? || a.Update? || a.Remove?
  }

  /** Every handle that is used was got in the step before: getting and using are one step. */
  ghost predicate UsesAtOnce(start: Heap, steps: seq<Step>)
    requires After(start, steps).Some?
    decreases |steps|
  {
    steps == [] || (
      var n := |steps| - 1;
      && UsesAtOnce(start, steps[..n])
      && (UsesHandle(steps[n]) ==>
            && n > 0 && (steps[n - 1].Acquire? || steps[n - 1].Lookup?)
            && steps[n].h == |After(start, steps[..n]).value.handles| - 1)
    )
  }

  ghost function FlatUpdateOf(f: Flat.FlatTable, c: Id, req: UpdateRequest, now: Time): Flat.FlatTable {
    var t := Flat.Members(f, c);
    if Refused(t, req) then f else f[(c, req.id) := UpdatedRecord(Target(t, req.id), req, now)]
  }

  /** The expiry filter on one cluster id. */
  ghost function FlatPruneOf(f: Flat.FlatTable, c: Id, now: Time): Flat.FlatTable {
    map p | p in f && (p.0 == c ==> f[p].expiry > now) :: if p.0 == c then PrunedRecord(f[p], now) else f[p]
  }

  /** A step on one flat table, without cluster objects, map or handles; `id` is what the step's handle is for. */
  ghost function FlatStep(f: Flat.FlatTable, a: Step, id: Id): Flat.FlatTable {
    match a
    case Update(_, req, now) => FlatUpdateOf(f, id, req, now)
    case Remove(_, k, _) => f - {(id, k)}
    case CleanOne(c, _, now) => FlatPruneOf(f, c, now)
    case _ => f
  }

  ghost function FlatRun(f: Flat.FlatTable, steps: seq<Step>): Flat.FlatTable
    decreases |steps|
  {
    if steps == [] then f
    else FlatStep(FlatRun(f, steps[..|steps| - 1]), steps[|steps| - 1], HandleId(steps, |steps| - 1))
  }

  /** A handle just got is for this cluster id, and the map holds its object. */
  ghost predicate Fresh(s: Heap, id: Id) {
    s.handles != [] &&
    var r := s.handles[|s.handles| - 1];
    r < |s.objects| && Attached(s, r) && s.objects[r].value.id == id
  }

  lemma GotFresh(s: Heap, a: Step)
    requires Invariant(s) && Enabled(s, a) && (a.Acquire? || a.Lookup?)
    ensures Fresh(Do(s, a), a.id)
  {
  }

  lemma UpdateIsFlat(s: Heap, h: nat, req: UpdateRequest, now: Time, id: Id)
    requires Invariant(s) && Enabled(s, Update(h, req, now)) && h == |s.handles| - 1 && Fresh(s, id)
    ensures Flat.Flatten(Registered(Do(s, Update(h, req, now)))) ==
              FlatUpdateOf(Flat.Flatten(Registered(s)), id, req, now)
  {
    var r := s.handles[h];
    var c := s.objects[r].value;
    UpdateTableOf(c, req, now);
    IdOfUpdate(c, req, now);
    SetShows(s, r, UpdateCluster(c, req, now));
    MovedIsFlat(Registered(s), Registered(Do(s, Update(h, req, now))), id, c.table, req, now);
  }

  lemma MovedIsFlat(m: Discovery.Clusters, m': Discovery.Clusters, id: Id, t: Table, req: UpdateRequest, now: Time)
    requires t == Flat.TableAt(m, id) && Flat.Moved(m, m', id, UpdateTable(t, req, now))
    ensures Flat.Flatten(m') == FlatUpdateOf(Flat.Flatten(m), id, req, now)
  {
    var rec := UpdatedRecord(Target(t, req.id), req, now);
    FlatUpdatePuts(m, id, t, req, now, rec);
    MovedPuts(m, m', id, t, req, now, rec);
  }

  /** The flat table with one record put in, unless it was refused. */
  ghost function Put(f: Flat.FlatTable, refused: bool, key: (Id, Id), rec: Record): Flat.FlatTable {
    if refused then f else f[key := rec]
  }

  lemma MovedPuts(m: Discovery.Clusters, m': Discovery.Clusters, id: Id, t: Table, req: UpdateRequest, now: Time,
                  rec: Record)
    requires t == Flat.TableAt(m, id) && Flat.Moved(m, m', id, UpdateTable(t, req, now))
    requires rec == UpdatedRecord(Target(t, req.id), req, now)
    ensures Flat.Flatten(m') == Put(Flat.Flatten(m), Refused(t, req), (id, req.id), rec)
  {
    Flat.UpdateTableIs(t, req, now, rec);
    Flat.MoveRefines(m, m', id, UpdateTable(t, req, now), req.id, rec, Refused(t, req));
  }

  lemma FlatUpdatePuts(m: Discovery.Clusters, id: Id, t: Table, req: UpdateRequest, now: Time, rec: Record)
    requires t == Flat.TableAt(m, id) && rec == UpdatedRecord(Target(t, req.id), req, now)
    ensures FlatUpdateOf(Flat.Flatten(m), id, req, now) == Put(Flat.Flatten(m), Refused(t, req), (id, req.id), rec)
  {
    var f := Flat.Flatten(m);
    Flat.MembersOfFlatten(m, id);
    FlatUpdateIs(f, id, t, req, now, rec);
  }

  lemma FlatUpdateIs(f: Flat.FlatTable, id: Id, t: Table, req: UpdateRequest, now: Time, rec: Record)
    requires t == Flat.Members(f, id) && rec == UpdatedRecord(Target(t, req.id), req, now)
    ensures FlatUpdateOf(f, id, req, now) == Put(f, Refused(t, req), (id, req.id), rec)
  {
  }

  lemma RemoveIsFlat(s: Heap, h: nat, k: Id, now: Time, id: Id)
    requires Invariant(s) && Enabled(s, Remove(h, k, now)) && h == |s.handles| - 1 && Fresh(s, id)
    ensures Flat.Flatten(Registered(Do(s, Remove(h, k, now)))) == Flat.Flatten(Registered(s)) - {(id, k)}
  {
    var r := s.handles[h];
    var c := s.objects[r].value;
    DeleteTableOf(c, k, now);
    SetShows(s, r, DeleteFromCluster(c, k, now));
    Flat.DropRefines(Registered(s), Registered(Do(s, Remove(h, k, now))), id, k);
  }

  /** A cleanup of one cluster filters its table, whether or not it then drops the cluster. */
  lemma CleanMoves(s: Heap, id: Id, evs: seq<Event>, now: Time)
    requires Invariant(s) && Enabled(s, CleanOne(id, evs, now))
    ensures Flat.Moved(Registered(s), Registered(Do(s, CleanOne(id, evs, now))), id, PruneTable(Shown(s, id), now))
  {
    var r := s.current[id];
    var c := s.objects[r].value;
    var c' := PruneCluster(c, evs, now);
    ObjectOpsClose(c, UpdateRequest([], [], [], 0), [], evs, now);
    PrunedTableOf(c, evs, now);
    SetShows(s, r, c');
    var mid, s' := SetValue(s, r, c'), Do(s, CleanOne(id, evs, now));
    CleanedShows(s, id, evs, now);
    MovedOn(Registered(s), Registered(mid), Registered(s'), id, PruneTable(Shown(s, id), now));
  }

  /** After pruning, dropping the cluster or not shows the same. */
  lemma CleanedShows(s: Heap, id: Id, evs: seq<Event>, now: Time)
    requires Invariant(s) && Enabled(s, CleanOne(id, evs, now))
    ensures var c' := PruneCluster(s.objects[s.current[id]].value, evs, now);
            forall d :: Shown(Do(s, CleanOne(id, evs, now)), d) == Shown(SetValue(s, s.current[id], c'), d)
  {
    var r := s.current[id];
    var c' := PruneCluster(s.objects[r].value, evs, now);
    ObjectOpsClose(s.objects[r].value, UpdateRequest([], [], [], 0), [], evs, now);
    SetValueKeeps(s, r, c');
    if Expired(c', now) && Registry.Empty(c') {
      DropShows(SetValue(s, r, c'), id);
    }
  }

  lemma MovedOn(m: Discovery.Clusters, mid: Discovery.Clusters, m': Discovery.Clusters, id: Id, t: Table)
    requires Flat.Moved(m, mid, id, t) && forall d :: Flat.TableAt(m', d) == Flat.TableAt(mid, d)
    ensures Flat.Moved(m, m', id, t)
  {
  }

  /** Dropping a cluster without affiliates shows nothing new. */
  lemma DropShows(s: Heap, id: Id)
    requires Invariant(s) && id in s.current && s.objects[s.current[id]].value.table == map[]
    ensures forall d :: Shown(s.(current := s.current - {id}), d) == Shown(s, d)
  {
  }

  lemma PrunedTableOf(c: ClusterValue, evs: seq<Event>, now: Time)
    ensures PruneCluster(c, evs, now).table == PruneTable(c.table, now)
  {
    FanOut.NotifyEachSubs(c.(table := PruneTable(c.table, now)), evs, now);
  }

  lemma PruneIsFlat(m: Discovery.Clusters, m': Discovery.Clusters, id: Id, now: Time)
    requires Flat.Moved(m, m', id, PruneTable(Flat.TableAt(m, id), now))
    ensures Flat.Flatten(m') == FlatPruneOf(Flat.Flatten(m), id, now)
  {
    var t, f := PruneTable(Flat.TableAt(m, id), now), FlatPruneOf(Flat.Flatten(m), id, now);
    forall p
      ensures p in f <==> if p.0 == id then p.1 in t else p in Flat.Flatten(m)
      ensures p in f ==> f[p] == if p.0 == id then t[p.1] else Flat.Flatten(m)[p]
    {
      Flat.FlattenAt(m, p);
    }
    Flat.FlatAfterMove(m, m', id, t, f);
  }

  lemma OthersAreFlat(s: Heap, a: Step)
    requires Invariant(s) && Enabled(s, a) && !a.Update? && !a.Remove? && !a.CleanOne?
    ensures Flat.Flatten(Registered(Do(s, a))) == Flat.Flatten(Registered(s))
  {
    forall d
      ensures Flat.TableAt(Registered(Do(s, a)), d) == Flat.TableAt(Registered(s), d)
    {
    }
    Flat.StutterStep(Registered(s), Registered(Do(s, a)));
  }

  /**
   * When every handle is used in the step after it was got, every run of the cluster objects, with clusters
   * created on demand and cleaned up one at a time between requests, is a run of one flat table.
   */
  lemma {:induction false} RunsAtOnceAreFlat(start: Heap, steps: seq<Step>)
    requires Loaded(start) && After(start, steps).Some? && UsesAtOnce(start, steps)
    ensures Flat.Flatten(Registered(After(start, steps).value)) == FlatRun(Flat.Flatten(Registered(start)), steps)
    decreases |steps|
  {
    if steps != [] {
      var n := |steps| - 1;
      RunsAtOnceAreFlat(start, steps[..n]);
      EveryRunFaithful(start, steps[..n]);
      if UsesHandle(steps[n]) {
        UsedFresh(start, steps);
      }
      StepIsFlat(After(start, steps[..n]).value, steps[n], HandleId(steps, n));
    }
  }

  lemma UsedFresh(start: Heap, steps: seq<Step>)
    requires Loaded(start) && After(start, steps).Some? && UsesAtOnce(start, steps)
    requires steps != [] && UsesHandle(steps[|steps| - 1])
    ensures var n := |steps| - 1;
            var s := After(start, steps[..n]).value;
            steps[n].h == |s.handles| - 1 && Fresh(s, HandleId(steps, n))
  {
    var n := |steps| - 1;
    assert steps[..n][..n - 1] == steps[..n - 1];
    EveryRunFaithful(start, steps[..n - 1]);
    GotFresh(After(start, steps[..n - 1]).value, steps[n - 1]);
  }

  lemma StepIsFlat(s: Heap, a: Step, id: Id)
    requires Invariant(s) && Enabled(s, a)
    requires UsesHandle(a) ==> a.h == |s.handles| - 1 && Fresh(s, id)
    ensures Flat.Flatten(Registered(Do(s, a))) == FlatStep(Flat.Flatten(Registered(s)), a, id)
  {
    if a.Update? {
      UpdateIsFlat(s, a.h, a.req, a.now, id);
    } else if a.Remove? {
      RemoveIsFlat(s, a.h, a.id, a.now, id);
    } else if a.CleanOne? {
      CleanMoves(s, a.id, a.evs, a.now);
      PruneIsFlat(Registered(s), Registered(Do(s, a)), a.id, a.now);
    } else {
      OthersAreFlat(s, a);
    }
  }
}
