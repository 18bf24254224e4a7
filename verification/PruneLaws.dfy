/** What pruning removes, and why the order a map is iterated in does not matter. */
module PruneLaws {
  import opened Basics
  import opened Affiliates
  import opened Registry

  // ----- endpoints -----

  /** Where in `eps` the live endpoints are. */
  function LivePositions(eps: seq<Endpoint>, now: Time): (pos: seq<nat>)
    ensures forall i :: 0 <= i < |pos| ==> pos[i] < |eps| && eps[pos[i]].expiry > now
  {
    if eps == [] then []
    else
      var last := |eps| - 1;
      LivePositions(eps[..last], now) + if eps[last].expiry > now then [last] else []
  }

  lemma {:induction false} PositionsIncrease(eps: seq<Endpoint>, now: Time, i: nat, j: nat)
    requires i < j < |LivePositions(eps, now)|
    ensures LivePositions(eps, now)[i] < LivePositions(eps, now)[j]
    decreases |eps|
  {
    var front := eps[..|eps| - 1];
    if j < |LivePositions(front, now)| {
      PositionsIncrease(front, now, i, j);
    }
  }

  lemma {:induction false} PositionsComplete(eps: seq<Endpoint>, now: Time, k: nat)
    requires k < |eps| && eps[k].expiry > now
    ensures k in LivePositions(eps, now)
    decreases |eps|
  {
    if k < |eps| - 1 {
      PositionsComplete(eps[..|eps| - 1], now, k);
    }
  }

  lemma {:induction false} LiveAt(eps: seq<Endpoint>, now: Time, i: nat)
    requires i < |Live(eps, now)|
    ensures |Live(eps, now)| == |LivePositions(eps, now)|
    ensures Live(eps, now)[i] == eps[LivePositions(eps, now)[i]]
    decreases |eps|
  {
    var front := eps[..|eps| - 1];
    SameCount(eps, now);
    SameCount(front, now);
    if i < |Live(front, now)| {
      LiveAt(front, now, i);
    }
  }

  lemma {:induction false} SameCount(eps: seq<Endpoint>, now: Time)
    ensures |Live(eps, now)| == |LivePositions(eps, now)|
  {
    if eps != [] {
      SameCount(eps[..|eps| - 1], now);
    }
  }

  /** Exactly the endpoints that outlive `now` survive, untouched and in order: `pos` lists where they were. */
  lemma LiveExact(eps: seq<Endpoint>, now: Time) returns (pos: seq<nat>)
    ensures |Live(eps, now)| == |pos|
    ensures forall i :: 0 <= i < |pos| ==> pos[i] < |eps| && Live(eps, now)[i] == eps[pos[i]]
    ensures forall i, j :: 0 <= i < j < |pos| ==> pos[i] < pos[j]
    ensures forall k: nat :: k in pos <==> k < |eps| && eps[k].expiry > now
  {
    pos := LivePositions(eps, now);
    SameCount(eps, now);
    forall i | 0 <= i < |pos|
      ensures Live(eps, now)[i] == eps[pos[i]]
    {
      LiveAt(eps, now, i);
    }
    forall i, j | 0 <= i < j < |pos|
      ensures pos[i] < pos[j]
    {
      PositionsIncrease(eps, now, i, j);
    }
    forall k: nat | k < |eps| && eps[k].expiry > now
      ensures k in pos
    {
      PositionsComplete(eps, now, k);
    }
  }

  lemma LiveSnoc(eps: seq<Endpoint>, ep: Endpoint, now: Time)
    ensures Live(eps + [ep], now) == Live(eps, now) + if ep.expiry > now then [ep] else []
  {
    assert (eps + [ep])[..|eps|] == eps;
  }

  lemma {:induction false} LiveLive(eps: seq<Endpoint>, t1: Time, t2: Time)
    requires t1 <= t2
    ensures Live(Live(eps, t1), t2) == Live(eps, t2)
  {
    if eps != [] {
      var front, ep := eps[..|eps| - 1], eps[|eps| - 1];
      LiveLive(front, t1, t2);
      LiveSnoc(Live(front, t1), ep, t2);
      assert Live(front, t1) + [] == Live(front, t1);
    }
  }

  lemma {:induction false} LiveMembers(eps: seq<Endpoint>, now: Time)
    ensures |Live(eps, now)| <= |eps|
    ensures |Live(eps, now)| == |eps| ==> Live(eps, now) == eps
    ensures forall ep :: ep in Live(eps, now) <==> ep in eps && ep.expiry > now
  {
    if eps != [] {
      var front, last := eps[..|eps| - 1], eps[|eps| - 1];
      LiveMembers(front, now);
      assert eps == front + [last];
    }
  }

  lemma LiveNames(eps: seq<Endpoint>, now: Time, d: Bytes)
    requires d in Names(Live(eps, now))
    ensures d in Names(eps)
  {
    LiveMembers(eps, now);
    var i :| 0 <= i < |Live(eps, now)| && Names(Live(eps, now))[i] == d;
    assert Live(eps, now)[i] in eps;
    var k :| 0 <= k < |eps| && eps[k] == Live(eps, now)[i];
    assert Names(eps)[k] == d;
  }

  lemma {:induction false} LiveDistinct(eps: seq<Endpoint>, now: Time)
    requires NoDuplicates(Names(eps))
    ensures NoDuplicates(Names(Live(eps, now)))
  {
    if eps != [] {
      var front, ep := eps[..|eps| - 1], eps[|eps| - 1];
      assert Names(eps)[..|eps| - 1] == Names(front);
      LiveDistinct(front, now);
      if ep.expiry > now {
        LiveSnocDistinct(front, ep, now);
      } else {
        assert Live(eps, now) == Live(front, now);
      }
    }
  }

  lemma LiveSnocDistinct(front: seq<Endpoint>, ep: Endpoint, now: Time)
    requires ep.data !in Names(front) && NoDuplicates(Names(Live(front, now)))
    ensures NoDuplicates(Names(Live(front, now) + [ep]))
  {
    var live := Live(front, now);
    if ep.data in Names(live) {
      LiveNames(front, now, ep.data);
    }
    assert Names(live + [ep]) == Names(live) + [ep.data];
    NoDuplicatesAppend(Names(live), ep.data);
  }

  lemma LiveValid(eps: seq<Endpoint>, now: Time)
    requires ValidEndpoints(eps)
    ensures ValidEndpoints(Live(eps, now))
  {
    LiveDistinct(eps, now);
    LiveMembers(eps, now);
  }

  // ----- tables -----

  lemma PruneKeepsValid(t: Table, now: Time)
    requires ValidTable(t)
    ensures ValidTable(PruneTable(t, now))
  {
    var p := PruneTable(t, now);
    assert p.Keys <= t.Keys;
    SubsetCardinality(p.Keys, t.Keys);
    forall id | id in p
      ensures p[id].id == id && ValidRecord(p[id])
    {
      LiveValid(t[id].endpoints, now);
    }
  }

  /** Pruning changes nothing of a record but its endpoints. */
  lemma RecordExactly(rec: Record, now: Time)
    ensures var r := PrunedRecord(rec, now);
            && r.id == rec.id && r.data == rec.data && r.expiry == rec.expiry
            && r.endpoints == Live(rec.endpoints, now)
  {
  }

  /**
   * A prune drops exactly the affiliates whose expiry has come. Each other keeps its id, data and expiry, and
   * exactly its endpoints whose expiry lies ahead, untouched and in order: `pos` lists where they were.
   */
  lemma TableExactly(t: Table, now: Time, id: Id) returns (pos: seq<nat>)
    ensures id in PruneTable(t, now) <==> id in t && t[id].expiry > now
    ensures id in PruneTable(t, now) ==>
              var rec, r := t[id], PruneTable(t, now)[id];
              && r.id == rec.id && r.data == rec.data && r.expiry == rec.expiry
              && |r.endpoints| == |pos|
              && (forall i :: 0 <= i < |pos| ==> pos[i] < |rec.endpoints| && r.endpoints[i] == rec.endpoints[pos[i]])
              && (forall i, j :: 0 <= i < j < |pos| ==> pos[i] < pos[j])
              && (forall k: nat :: k in pos <==> k < |rec.endpoints| && rec.endpoints[k].expiry > now)
  {
    if id in PruneTable(t, now) {
      RecordExactly(t[id], now);
      pos := LiveExact(t[id].endpoints, now);
    } else {
      pos := [];
    }
  }

  /** Pruning at t1 and then at a later t2 is pruning at t2. */
  lemma PrunePrune(t: Table, t1: Time, t2: Time)
    requires t1 <= t2
    ensures PruneTable(PruneTable(t, t1), t2) == PruneTable(t, t2)
  {
    forall id | id in t && t[id].expiry > t2
      ensures PrunedRecord(PrunedRecord(t[id], t1), t2) == PrunedRecord(t[id], t2)
    {
      LiveLive(t[id].endpoints, t1, t2);
    }
  }

  /** A second prune at the same time has nothing to announce. */
  lemma PruneAgainSilent(t: Table, now: Time, evs: seq<Event>)
    requires IsPruneBatch(PruneTable(t, now), now, evs)
    ensures PruneTable(PruneTable(t, now), now) == PruneTable(t, now)
    ensures evs == []
  {
    assert evs != [] ==> evs[0] in evs;
    var p := PruneTable(t, now);
    PrunePrune(t, now, now);
    forall id | id in p
      ensures PruneEvent(p[id], now) == None
    {
      LiveLive(t[id].endpoints, now, now);
    }
  }

  /** A prune announces something exactly when it changes what a client can see. */
  lemma PruneAnnounces(rec: Record, now: Time)
    ensures PruneEvent(rec, now).None? <==>
              rec.expiry > now && InfoOf(PrunedRecord(rec, now)) == InfoOf(rec)
  {
    LiveMembers(rec.endpoints, now);
    var live := Live(rec.endpoints, now);
    assert |Names(live)| == |live| && |Names(rec.endpoints)| == |rec.endpoints|;
  }

  // ----- batches -----

  /** Any two iteration orders produce the same set of events. */
  lemma BatchesAgree(t: Table, now: Time, evs: seq<Event>, evs': seq<Event>)
    requires IsPruneBatch(t, now, evs) && IsPruneBatch(t, now, evs')
    ensures Elems(evs) == Elems(evs')
  {
    forall ev | ev in evs
      ensures ev in evs'
    {
      assert PruneEvent(t[EventId(ev)], now) == Some(ev);
    }
    forall ev | ev in evs'
      ensures ev in evs
    {
      assert PruneEvent(t[EventId(ev)], now) == Some(ev);
    }
  }

  ghost function At(m: Mirror, id: Id): Option<Info> {
    if id in m then Some(m[id]) else None
  }

  ghost function Effect(ev: Event): Option<Info> {
    if ev.Upsert? then Some(ev.info) else None
  }

  lemma {:induction false} ReplayMiss(m: Mirror, evs: seq<Event>, id: Id)
    requires id !in Ids(evs)
    ensures At(Replay(m, evs), id) == At(m, id)
    decreases |evs|
  {
    if evs != [] {
      var front, last := evs[..|evs| - 1], evs[|evs| - 1];
      assert Ids(evs) == Ids(front) + [EventId(last)];
      ReplayMiss(m, front, id);
    }
  }

  lemma {:induction false} ReplayHit(m: Mirror, evs: seq<Event>, i: nat)
    requires NoDuplicates(Ids(evs)) && i < |evs|
    ensures At(Replay(m, evs), EventId(evs[i])) == Effect(evs[i])
    decreases |evs|
  {
    var front, last := evs[..|evs| - 1], evs[|evs| - 1];
    assert Ids(evs)[..|evs| - 1] == Ids(front);
    if i < |front| {
      ReplayHit(m, front, i);
      NoDuplicatesDiffer(Ids(evs), i, |front|);
    }
  }

  /** Replaying a batch that names each affiliate at most once sets what it names and nothing else. */
  lemma ReplayAt(m: Mirror, evs: seq<Event>, id: Id)
    requires NoDuplicates(Ids(evs))
    ensures id !in Ids(evs) ==> At(Replay(m, evs), id) == At(m, id)
    ensures forall ev :: ev in evs && EventId(ev) == id ==> At(Replay(m, evs), id) == Effect(ev)
  {
    if id !in Ids(evs) {
      ReplayMiss(m, evs, id);
    }
    forall ev | ev in evs && EventId(ev) == id
      ensures At(Replay(m, evs), id) == Effect(ev)
    {
      var i :| 0 <= i < |evs| && evs[i] == ev;
      ReplayHit(m, evs, i);
    }
  }

  /** A watching client may receive the events of one prune in any order. */
  lemma BatchOrderIrrelevant(t: Table, now: Time, evs: seq<Event>, evs': seq<Event>, m: Mirror)
    requires IsPruneBatch(t, now, evs) && IsPruneBatch(t, now, evs')
    ensures Replay(m, evs) == Replay(m, evs')
  {
    BatchesAgree(t, now, evs, evs');
    forall id
      ensures At(Replay(m, evs), id) == At(Replay(m, evs'), id)
    {
      ReplayAt(m, evs, id);
      ReplayAt(m, evs', id);
      IdsOfElems(evs, evs', id);
    }
    SameAt(Replay(m, evs), Replay(m, evs'));
  }

  lemma IdsOfElems(evs: seq<Event>, evs': seq<Event>, id: Id)
    requires Elems(evs) == Elems(evs')
    ensures id in Ids(evs) <==> exists ev :: ev in evs && EventId(ev) == id
    ensures id in Ids(evs) <==> id in Ids(evs')
    ensures forall ev :: ev in evs <==> ev in evs'
  {
    IdInIds(evs, id);
    IdInIds(evs', id);
    forall ev
      ensures ev in evs <==> ev in evs'
    {
      assert ev in evs <==> ev in Elems(evs);
      assert ev in evs' <==> ev in Elems(evs');
    }
  }

  lemma IdInIds(evs: seq<Event>, id: Id)
    ensures id in Ids(evs) <==> exists ev :: ev in evs && EventId(ev) == id
  {
    if id in Ids(evs) {
      var i :| 0 <= i < |evs| && Ids(evs)[i] == id;
      assert evs[i] in evs && EventId(evs[i]) == id;
    }
    if ev :| ev in evs && EventId(ev) == id {
      var i :| 0 <= i < |evs| && evs[i] == ev;
      assert Ids(evs)[i] == id;
    }
  }

  lemma SameAt(m: Mirror, m': Mirror)
    requires forall id :: At(m, id) == At(m', id)
    ensures m == m'
  {
    assert forall id :: id in m <==> At(m, id).Some?;
    assert forall id :: id in m' <==> At(m', id).Some?;
    forall id | id in m
      ensures id in m' && m[id] == m'[id]
    {
      assert At(m, id) == At(m', id);
    }
  }

  /** A client in agreement stays in agreement through a prune, whatever the order of its events. */
  lemma PruneKeepsAgreement(t: Table, now: Time, evs: seq<Event>, m: Mirror)
    requires ValidTable(t) && IsPruneBatch(t, now, evs) && Agrees(m, t)
    ensures Agrees(Replay(m, evs), PruneTable(t, now))
  {
    forall id
      ensures AgreesAt(Replay(m, evs), PruneTable(t, now), id)
    {
      assert AgreesAt(m, t, id);
      ReplayAt(m, evs, id);
      IdInIds(evs, id);
      PruneShows(t, now, evs, id);
      if id in t {
        PruneAnnounces(t[id], now);
      }
    }
  }

  lemma PruneShows(t: Table, now: Time, evs: seq<Event>, id: Id)
    requires ValidTable(t) && IsPruneBatch(t, now, evs)
    ensures (exists ev :: ev in evs && EventId(ev) == id) <==> id in t && PruneEvent(t[id], now).Some?
    ensures id in t && PruneEvent(t[id], now).Some? ==>
              var ev := PruneEvent(t[id], now).value; ev in evs && EventId(ev) == id
  {
    if id in t && PruneEvent(t[id], now).Some? {
      assert EventId(PruneEvent(t[id], now).value) == t[id].id;
    }
  }
}
