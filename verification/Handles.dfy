/**
 * Cluster objects and the handles RPCs hold on them. ClusterFor or GetCluster and the operation on the
 * cluster it returned are separate steps here, and Cleanup may run between them.
 */
module Handles {
  import opened Basics
  import opened Affiliates
  import opened Registry
  import FanOut
  import UpdateLaws

  /** A cluster object; `born[i]` says whether the map held the object when subscription i registered. */
  datatype Object = Object(value: ClusterValue, born: seq<bool>)

  /** Objects are never reused; `current` is the concurrent map; `handles` are what RPCs got from it. */
  datatype Heap = Heap(objects: seq<Object>, current: map<Id, nat>, handles: seq<nat>)

  datatype Step =
    | Acquire(id: Id, now: Time)
    | Lookup(id: Id)
    | Subscribe(h: nat)
    | Update(h: nat, req: UpdateRequest, now: Time)
    | Remove(h: nat, id: Id, now: Time)
    | Receive(r: nat, i: nat)
    | Close(r: nat, i: nat, now: Time)
    | CleanOne(id: Id, evs: seq<Event>, now: Time)

  const NewHeap := Heap([], map[], [])

  /** A service that has just started: the objects of a loaded snapshot, all in the map, none watched or held. */
  ghost predicate Loaded(s: Heap) {
    && s.handles == []
    && (forall id :: id in s.current ==> s.current[id] < |s.objects|)
    && (forall r :: 0 <= r < |s.objects| ==>
          Attached(s, r) && s.objects[r].value.subs == [] && s.objects[r].born == [])
    && forall id :: id in s.current ==> s.objects[s.current[id]].value.id == id
  }

  /** The object is the one the map holds under its id. */
  predicate Attached(s: Heap, r: nat)
    requires r < |s.objects|
  {
    var id := s.objects[r].value.id;
    id in s.current && s.current[id] == r
  }

  ghost predicate Enabled(s: Heap, a: Step) {
    match a
    case Acquire(id, _) => id in s.current ==> s.current[id] < |s.objects|
    case Lookup(id) => id in s.current && s.current[id] < |s.objects|
    case Subscribe(h) => h < |s.handles| && s.handles[h] < |s.objects|
    case Update(h, _, _) => h < |s.handles| && s.handles[h] < |s.objects|
    case Remove(h, _, _) => h < |s.handles| && s.handles[h] < |s.objects|
    case Receive(r, i) => r < |s.objects| && i < |s.objects[r].value.subs| && s.objects[r].value.subs[i].buffer != []
    case Close(r, i, _) => r < |s.objects| && i < |s.objects[r].value.subs|
    case CleanOne(id, evs, now) =>
      && id in s.current && s.current[id] < |s.objects|
      && IsPruneBatch(s.objects[s.current[id]].value.table, now, evs)
  }

  ghost function SetValue(s: Heap, r: nat, c: ClusterValue): Heap
    requires r < |s.objects|
  {
    s.(objects := s.objects[r := s.objects[r].(value := c)])
  }

  ghost function Do(s: Heap, a: Step): Heap
    requires Enabled(s, a)
  {
    match a
    case Acquire(id, now) =>
      if id in s.current then s.(handles := s.handles + [s.current[id]])
      else Heap(s.objects + [Object(NewCluster(id, now), [])],
                s.current[id := |s.objects|],
                s.handles + [|s.objects|])
    case Lookup(id) => s.(handles := s.handles + [s.current[id]])
    case Subscribe(h) =>
      var r := s.handles[h];
      s.(objects := s.objects[r := Object(SubscribeTo(s.objects[r].value), s.objects[r].born + [Attached(s, r)])])
    case Update(h, req, now) => SetValue(s, s.handles[h], UpdateCluster(s.objects[s.handles[h]].value, req, now))
    case Remove(h, id, now) => SetValue(s, s.handles[h], DeleteFromCluster(s.objects[s.handles[h]].value, id, now))
    case Receive(r, i) => SetValue(s, r, Registry.Receive(s.objects[r].value, i))
    case Close(r, i, now) => SetValue(s, r, CloseSub(s.objects[r].value, i, now))
    case CleanOne(id, evs, now) =>
      var r := s.current[id];
      var c := PruneCluster(s.objects[r].value, evs, now);
      var s' := SetValue(s, r, c);
      if Expired(c, now) && Registry.Empty(c) then s'.(current := s.current - {id}) else s'
  }

  ghost function After(start: Heap, steps: seq<Step>): Option<Heap>
    decreases |steps|
  {
    if steps == [] then Some(start)
    else
      var p := After(start, steps[..|steps| - 1]);
      if p.Some? && Enabled(p.value, steps[|steps| - 1]) then Some(Do(p.value, steps[|steps| - 1])) else None
  }

  // ----- who is attached -----

  /** An open subscription is registered in the object the map holds exactly if it was when it registered. */
  ghost predicate Faithful(s: Heap, r: nat)
    requires r < |s.objects|
  {
    && |s.objects[r].born| == |s.objects[r].value.subs|
    && forall i :: 0 <= i < |s.objects[r].born| && !s.objects[r].value.subs[i].closed ==>
         (s.objects[r].born[i] <==> Attached(s, r))
  }

  ghost predicate Invariant(s: Heap) {
    && (forall id :: id in s.current ==> s.current[id] < |s.objects| && s.objects[s.current[id]].value.id == id)
    && (forall h :: 0 <= h < |s.handles| ==> s.handles[h] < |s.objects|)
    && forall r :: 0 <= r < |s.objects| ==> Faithful(s, r)
  }

  /** What an operation on a cluster other than subscribing does to its subscriptions: some close, none opens. */
  ghost predicate OnlyCloses(c: ClusterValue, c': ClusterValue) {
    && c'.id == c.id && |c'.subs| == |c.subs|
    && forall i :: 0 <= i < |c.subs| && c.subs[i].closed ==> c'.subs[i].closed
  }

  lemma FanOutCloses(c: ClusterValue, evs: seq<Event>, now: Time)
    ensures OnlyCloses(c, NotifyEach(c, evs, now))
  {
    FanOut.NotifyEachSubs(c, evs, now);
  }

  lemma ObjectOpsClose(c: ClusterValue, req: UpdateRequest, id: Id, evs: seq<Event>, now: Time)
    ensures OnlyCloses(c, UpdateCluster(c, req, now))
    ensures OnlyCloses(c, DeleteFromCluster(c, id, now))
    ensures OnlyCloses(c, PruneCluster(c, evs, now))
  {
    FanOutCloses(c.(table := PruneTable(c.table, now)), evs, now);
  }

  lemma SetValueKeeps(s: Heap, r: nat, c: ClusterValue)
    requires Invariant(s) && r < |s.objects| && OnlyCloses(s.objects[r].value, c)
    ensures Invariant(SetValue(s, r, c))
  {
    var s' := SetValue(s, r, c);
    forall q | 0 <= q < |s'.objects|
      ensures Faithful(s', q)
    {
      assert Faithful(s, q);
      assert Attached(s', q) <==> Attached(s, q);
    }
  }

  lemma DetachKeeps(s: Heap, id: Id)
    requires Invariant(s) && id in s.current && Registry.Empty(s.objects[s.current[id]].value)
    ensures Invariant(s.(current := s.current - {id}))
  {
    var s' := s.(current := s.current - {id});
    forall q | 0 <= q < |s'.objects|
      ensures Faithful(s', q)
    {
      assert Faithful(s, q);
      assert q != s.current[id] ==> (Attached(s', q) <==> Attached(s, q));
    }
  }

  lemma SubscribeKeeps(s: Heap, h: nat)
    requires Invariant(s) && Enabled(s, Subscribe(h))
    ensures Invariant(Do(s, Subscribe(h)))
  {
    var s' := Do(s, Subscribe(h));
    forall q | 0 <= q < |s'.objects|
      ensures Faithful(s', q)
    {
      assert Faithful(s, q);
      assert Attached(s', q) <==> Attached(s, q);
    }
  }

  lemma AcquireKeeps(s: Heap, id: Id, now: Time)
    requires Invariant(s) && Enabled(s, Acquire(id, now))
    ensures Invariant(Do(s, Acquire(id, now)))
  {
    var s' := Do(s, Acquire(id, now));
    forall q | 0 <= q < |s'.objects|
      ensures Faithful(s', q)
    {
      if q < |s.objects| {
        assert Faithful(s, q);
        assert Attached(s', q) <==> Attached(s, q);
      }
    }
  }

  lemma InvariantStep(s: Heap, a: Step)
    requires Invariant(s) && Enabled(s, a)
    ensures Invariant(Do(s, a))
  {
    match a {
      case Acquire(id, now) => AcquireKeeps(s, id, now);
      case Lookup(id) => AcquireKeeps(s, id, 0);
      case Subscribe(h) => SubscribeKeeps(s, h);
      case Update(h, req, now) =>
        var c := s.objects[s.handles[h]].value;
        ObjectOpsClose(c, req, [], [], now);
        SetValueKeeps(s, s.handles[h], UpdateCluster(c, req, now));
      case Remove(h, id, now) =>
        var c := s.objects[s.handles[h]].value;
        ObjectOpsClose(c, UpdateRequest([], [], [], 0), id, [], now);
        SetValueKeeps(s, s.handles[h], DeleteFromCluster(c, id, now));
      case Receive(r, i) => SetValueKeeps(s, r, Registry.Receive(s.objects[r].value, i));
      case Close(r, i, now) => SetValueKeeps(s, r, CloseSub(s.objects[r].value, i, now));
      case CleanOne(id, evs, now) =>
        var c := s.objects[s.current[id]].value;
        ObjectOpsClose(c, UpdateRequest([], [], [], 0), id, evs, now);
        SetValueKeeps(s, s.current[id], PruneCluster(c, evs, now));
        var s' := SetValue(s, s.current[id], PruneCluster(c, evs, now));
        if Expired(PruneCluster(c, evs, now), now) && Registry.Empty(PruneCluster(c, evs, now)) {
          DetachKeeps(s', id);
        }
    }
  }

  lemma {:induction false} EveryRunFaithful(start: Heap, steps: seq<Step>)
    requires Loaded(start) && After(start, steps).Some?
    ensures Invariant(After(start, steps).value)
    decreases |steps|
  {
    if steps != [] {
      EveryRunFaithful(start, steps[..|steps| - 1]);
      InvariantStep(After(start, steps[..|steps| - 1]).value, steps[|steps| - 1]);
    }
  }

  /**
   * In every run an open watcher is registered in the very object the map holds for its cluster, so
   * that later updates reach it, if and only if the map held that object when it registered.
   */
  lemma NoOrphanIffAttached(start: Heap, steps: seq<Step>, s: Heap, r: nat, i: nat)
    requires Loaded(start) && After(start, steps) == Some(s) && r < |s.objects| && i < |s.objects[r].value.subs|
    requires !s.objects[r].value.subs[i].closed
    ensures i < |s.objects[r].born|
    ensures Attached(s, r) <==> s.objects[r].born[i]
  {
    EveryRunFaithful(start, steps);
    assert Faithful(s, r);
  }

  /** Every subscription of the run uses the handle that ClusterFor returned in the step before. */
  ghost predicate SubscribesAtOnce(start: Heap, steps: seq<Step>)
    requires After(start, steps).Some?
    decreases |steps|
  {
    steps == [] || (
      var n := |steps| - 1;
      && SubscribesAtOnce(start, steps[..n])
      && (steps[n].Subscribe? ==>
            n > 0 && steps[n - 1].Acquire? && steps[n].h == |After(start, steps[..n]).value.handles| - 1)
    )
  }

  ghost predicate BornAttached(s: Heap) {
    forall r, i :: 0 <= r < |s.objects| && 0 <= i < |s.objects[r].born| ==> s.objects[r].born[i]
  }

  lemma AcquiredAttached(s: Heap, id: Id, now: Time)
    requires Invariant(s)
    ensures Enabled(s, Acquire(id, now))
    ensures var s' := Do(s, Acquire(id, now));
            && |s'.handles| == |s.handles| + 1
            && s'.handles[|s.handles|] < |s'.objects| && Attached(s', s'.handles[|s.handles|])
  {
  }

  lemma {:induction false} EveryRunBornAttached(start: Heap, steps: seq<Step>)
    requires Loaded(start) && After(start, steps).Some? && SubscribesAtOnce(start, steps)
    ensures BornAttached(After(start, steps).value)
    decreases |steps|
  {
    if steps != [] {
      var n := |steps| - 1;
      var s := After(start, steps[..n]).value;
      EveryRunBornAttached(start, steps[..n]);
      if steps[n].Subscribe? {
        assert steps[..n][..n - 1] == steps[..n - 1];
        EveryRunFaithful(start, steps[..n - 1]);
        AcquiredAttached(After(start, steps[..n - 1]).value, steps[n - 1].id, steps[n - 1].now);
        assert Attached(s, s.handles[steps[n].h]);
      }
      BornStep(s, steps[n]);
    }
  }

  lemma BornStep(s: Heap, a: Step)
    requires BornAttached(s) && Enabled(s, a)
    requires a.Subscribe? ==> Attached(s, s.handles[a.h])
    ensures BornAttached(Do(s, a))
  {
  }

  /**
   * When every ClusterFor and the subscription that follows are one step, no run leaves an open watcher
   * on an object the map does not hold, and the next request for its cluster gets that object.
   */
  lemma NoOrphanWhenAtomic(start: Heap, steps: seq<Step>, s: Heap, r: nat, i: nat, now: Time)
    requires Loaded(start) && After(start, steps) == Some(s) && SubscribesAtOnce(start, steps)
    requires r < |s.objects| && i < |s.objects[r].value.subs| && !s.objects[r].value.subs[i].closed
    ensures Attached(s, r)
    ensures var a := Acquire(s.objects[r].value.id, now);
            Enabled(s, a) && Do(s, a) == s.(handles := s.handles + [r])
  {
    EveryRunBornAttached(start, steps);
    NoOrphanIffAttached(start, steps, s, r, i);
  }

  /** The events of an update of this cluster. */
  ghost function UpdateEvents(c: ClusterValue, req: UpdateRequest, now: Time): seq<Event> {
    var ev := UpdateLaws.EventOf(c.table, req, now);
    if ev.Some? then [ev.value] else []
  }

  lemma UpdateDelivers(c: ClusterValue, req: UpdateRequest, now: Time, i: nat)
    requires i < |c.subs|
    ensures i < |UpdateCluster(c, req, now).subs|
    ensures UpdateCluster(c, req, now).subs[i] == FanOut.Delivered(c.subs[i], UpdateEvents(c, req, now))
  {
    var evs := UpdateEvents(c, req, now);
    var c' := c.(table := UpdateTable(c.table, req, now));
    if evs != [] {
      assert evs == [] + [evs[0]];
      NotifyEachSnoc(c', [], evs[0], now);
    }
    assert UpdateCluster(c, req, now) == NotifyEach(c', evs, now);
    FanOut.NotifyEachSubs(c', evs, now);
  }

  /**
   * When ClusterFor and subscribing are one step, an update that asks for a watcher's cluster reaches the
   * watcher: the events it announces are delivered to its subscription, or evict it.
   */
  lemma UpdateReachesWatcher(start: Heap, steps: seq<Step>, s: Heap, r: nat, i: nat, req: UpdateRequest, now: Time)
    requires Loaded(start) && After(start, steps) == Some(s) && SubscribesAtOnce(start, steps)
    requires r < |s.objects| && i < |s.objects[r].value.subs| && !s.objects[r].value.subs[i].closed
    ensures var c := s.objects[r].value;
            && Enabled(s, Acquire(c.id, now))
            && var s1 := Do(s, Acquire(c.id, now));
            && Enabled(s1, Update(|s.handles|, req, now))
            && var s2 := Do(s1, Update(|s.handles|, req, now));
            && r < |s2.objects| && i < |s2.objects[r].value.subs|
            && s2.objects[r].value.table == UpdateTable(c.table, req, now)
            && s2.objects[r].value.subs[i] == FanOut.Delivered(c.subs[i], UpdateEvents(c, req, now))
  {
    NoOrphanWhenAtomic(start, steps, s, r, i, now);
    UpdateDelivers(s.objects[r].value, req, now, i);
    UpdateTableOf(s.objects[r].value, req, now);
  }

  lemma UpdateTableOf(c: ClusterValue, req: UpdateRequest, now: Time)
    ensures UpdateCluster(c, req, now).table == UpdateTable(c.table, req, now)
  {
  }

  // ----- a cleanup between getting a cluster and using it -----

  /**
   * A cluster created at time 0 has expired when another request gets it, which renews nothing; a cleanup at
   * that same instant drops it before the request uses it.
   */
  function Dropping(id: Id, now: Time): seq<Step> {
    [Acquire(id, 0), Acquire(id, now), CleanOne(id, [], now)]
  }

  lemma AfterSnoc(start: Heap, steps: seq<Step>, a: Step)
    requires After(start, steps).Some? && Enabled(After(start, steps).value, a)
    ensures After(start, steps + [a]) == Some(Do(After(start, steps).value, a))
  {
    assert (steps + [a])[..|steps|] == steps;
  }

  lemma AfterNext(start: Heap, steps: seq<Step>, s: Heap, a: Step, s': Heap)
    requires After(start, steps) == Some(s) && Enabled(s, a) && s' == Do(s, a)
    ensures After(start, steps + [a]) == Some(s')
  {
    AfterSnoc(start, steps, a);
  }

  lemma AfterThree(a: Step, b: Step, c: Step, s1: Heap, s2: Heap, s3: Heap)
    requires Enabled(NewHeap, a) && s1 == Do(NewHeap, a)
    requires Enabled(s1, b) && s2 == Do(s1, b) && Enabled(s2, c) && s3 == Do(s2, c)
    ensures After(NewHeap, [a, b, c]) == Some(s3)
  {
    AfterNext(NewHeap, [], NewHeap, a, s1);
    AfterNext(NewHeap, [] + [a], s1, b, s2);
    AfterNext(NewHeap, [] + [a] + [b], s2, c, s3);
    OneByOne(a, b, c);
  }

  lemma OneByOne(a: Step, b: Step, c: Step)
    ensures [] + [a] + [b] + [c] == [a, b, c]
  {
  }

  lemma Dropped(id: Id, now: Time)
    requires now > 1_800_000_000_000
    ensures After(NewHeap, Dropping(id, now)) == Some(Heap([Object(NewCluster(id, 0), [])], map[], [0, 0]))
  {
    var s := Heap([Object(NewCluster(id, 0), [])], map[id := 0], [0, 0]);
    assert [] + [0] == [0] && [0] + [0] == [0, 0];
    var s1 := Do(NewHeap, Acquire(id, 0));
    assert Do(s1, Acquire(id, now)) == s;
    CleanedAway(s, id, now);
    AfterThree(Acquire(id, 0), Acquire(id, now), CleanOne(id, [], now), s1, s, s.(current := map[]));
  }

  /** A cluster that nobody used is dropped by a cleanup more than 30 minutes after it was created. */
  lemma CleanedAway(s: Heap, id: Id, now: Time)
    requires s == Heap([Object(NewCluster(id, 0), [])], map[id := 0], [0, 0]) && now > 1_800_000_000_000
    ensures Enabled(s, CleanOne(id, [], now)) && Do(s, CleanOne(id, [], now)) == s.(current := map[])
  {
    assert Ids([]) == [];
    assert PruneTable(map[], now) == map[];
    assert PruneCluster(NewCluster(id, 0), [], now) == NewCluster(id, 0);
    assert s.current - {id} == map[];
  }

  /** A request that then subscribes leaves a watcher on an object nobody updates. */
  lemma CleanupBetweenOrphans(id: Id, now: Time)
    requires now > 1_800_000_000_000
    ensures var steps := Dropping(id, now) + [Subscribe(1)];
            After(NewHeap, steps).Some? &&
            var s := After(NewHeap, steps).value;
            |s.objects| == 1 && s.objects[0].value.subs == [Sub([], false, false)] && !Attached(s, 0)
  {
    Dropped(id, now);
    Orphaned(id);
    AfterSnoc(NewHeap, Dropping(id, now), Subscribe(1));
  }

  lemma Orphaned(id: Id)
    ensures var s := Heap([Object(NewCluster(id, 0), [])], map[], [0, 0]);
            && Enabled(s, Subscribe(1))
            && Do(s, Subscribe(1)) == Heap([Object(SubscribeTo(NewCluster(id, 0)), [false])], map[], [0, 0])
            && SubscribeTo(NewCluster(id, 0)).subs == [Sub([], false, false)]
            && !Attached(Do(s, Subscribe(1)), 0)
  {
    assert [] + [false] == [false];
    assert NewCluster(id, 0).subs + [Sub([], false, false)] == [Sub([], false, false)];
  }
}
