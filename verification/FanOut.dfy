/** What a burst of events does to one subscription: buffered up to 64, then evicted. */
module FanOut {
  import opened Basics
  import opened Registry

  /** Room left in the buffer of an open subscription. */
  function Room(sub: Sub): nat {
    if |sub.buffer| < 64 then 64 - |sub.buffer| else 0
  }

  /** A subscription after a burst: as much as fits is buffered; the first event that does not fit evicts it. */
  function Delivered(sub: Sub, evs: seq<Event>): Sub {
    if sub.closed then sub
    else if |evs| <= Room(sub) then sub.(buffer := sub.buffer + evs)
    else Sub(sub.buffer + evs[..Room(sub)], true, true)
  }

  lemma DeliveredSnoc(sub: Sub, evs: seq<Event>, ev: Event)
    ensures NotifySub(Delivered(sub, evs), ev) == Delivered(sub, evs + [ev])
  {
    var all := evs + [ev];
    assert sub.buffer + evs + [ev] == sub.buffer + all;
    if !sub.closed && |evs| > Room(sub) {
      assert all[..Room(sub)] == evs[..Room(sub)];
    } else if !sub.closed && |evs| == Room(sub) {
      assert all[..Room(sub)] == evs;
    }
  }

  /** Fan-out treats every subscription by itself: a slow one changes nothing for the others. */
  lemma {:induction false} NotifyEachSubs(c: ClusterValue, evs: seq<Event>, now: Time)
    ensures NotifyEach(c, evs, now).table == c.table && NotifyEach(c, evs, now).id == c.id
    ensures |NotifyEach(c, evs, now).subs| == |c.subs|
    ensures forall i :: 0 <= i < |c.subs| ==> NotifyEach(c, evs, now).subs[i] == Delivered(c.subs[i], evs)
    decreases |evs|
  {
    if evs == [] {
      forall i | 0 <= i < |c.subs|
        ensures Delivered(c.subs[i], evs) == c.subs[i]
      {
        assert c.subs[i].buffer + [] == c.subs[i].buffer;
      }
    } else {
      var front, ev := evs[..|evs| - 1], evs[|evs| - 1];
      assert evs == front + [ev];
      NotifyEachSubs(c, front, now);
      forall i | 0 <= i < |c.subs|
        ensures NotifyEach(c, evs, now).subs[i] == Delivered(c.subs[i], evs)
      {
        DeliveredSnoc(c.subs[i], front, ev);
      }
    }
  }

  /**
   * Deleting an affiliate removes it, gives the cluster 30 more minutes, and sends every open subscription its
   * tombstone, last; deleting an unknown one changes nothing.
   */
  lemma DeleteExactly(c: ClusterValue, id: Id, now: Time)
    ensures id !in c.table ==> DeleteFromCluster(c, id, now) == c
    ensures id in c.table ==>
              var c' := DeleteFromCluster(c, id, now);
              && c'.id == c.id && c'.table == c.table - {id} && c'.expiry == now + 1_800_000_000_000
              && |c'.subs| == |c.subs|
              && forall i :: 0 <= i < |c.subs| ==> c'.subs[i] == Delivered(c.subs[i], [Delete(id)])
  {
    if id in c.table {
      var was := c.(table := c.table - {id}, expiry := now + CLUSTER_TTL);
      assert [] + [Delete(id)] == [Delete(id)];
      NotifyEachSnoc(was, [], Delete(id), now);
      NotifyEachSubs(was, [Delete(id)], now);
      NotifyEachExpiry(was, [Delete(id)], now);
    }
  }

  ghost predicate AnyOverflow(c: ClusterValue, evs: seq<Event>) {
    exists i :: 0 <= i < |c.subs| && !c.subs[i].closed && |evs| > Room(c.subs[i])
  }

  /** A fan-out prolongs the cluster exactly when it evicts somebody. */
  lemma {:induction false} NotifyEachExpiry(c: ClusterValue, evs: seq<Event>, now: Time)
    ensures NotifyEach(c, evs, now).expiry == if AnyOverflow(c, evs) then now + 1_800_000_000_000 else c.expiry
    decreases |evs|
  {
    if evs != [] {
      var front, ev := evs[..|evs| - 1], evs[|evs| - 1];
      var mid := NotifyEach(c, front, now);
      NotifyEachExpiry(c, front, now);
      NotifyEachSubs(c, front, now);
      forall i | 0 <= i < |c.subs|
        ensures Overflows(mid.subs[i]) <==> !c.subs[i].closed && |front| == Room(c.subs[i])
      {
      }
      if AnyOverflow(c, evs) && !AnyOverflow(c, front) {
        var i :| 0 <= i < |c.subs| && !c.subs[i].closed && |evs| > Room(c.subs[i]);
        assert Overflows(mid.subs[i]);
      }
    }
  }
}
