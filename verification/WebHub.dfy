/** The web hub: a lossy fan-out over bounded client queues, counting the events it drops. */
module WebHub {
  import opened Basics
  import R = HubRuns

  type Event = R.Event

  /** A client channel; `number` counts the channels of its hub in the order they were made. */
  class Channel {
    var queue: seq<Event>
    ghost var taken: seq<Event>
    ghost var lost: nat
    ghost const number: nat

    constructor (ghost number: nat)
      ensures queue == [] && taken == [] && lost == 0 && this.number == number
    {
      queue, taken, lost := [], [], 0;
      this.number := number;
    }

    ghost function Value(): R.Client
      reads this
    {
      R.Client(taken, queue, lost)
    }

    /** The handler of the client reads its oldest event. */
    method Receive() returns (e: Event)
      requires queue != []
      modifies this`queue, this`taken
      ensures [e] + queue == old(queue) && taken == old(taken) + [e]
    {
      e := queue[0];
      queue, taken := queue[1..], taken + [e];
    }
  }

  /** The metrics shared by the hubs and their manager. */
  class Metrics {
    var dropped: nat
    var activeSubscribers: int
    var activeWatchers: int

    constructor ()
      ensures dropped == 0 && activeSubscribers == 0 && activeWatchers == 0
    {
      dropped, activeSubscribers, activeWatchers := 0, 0, 0;
    }
  }

  /** `issued` are all channels ever made, `pending` those the running broadcast has still to offer `event` to. */
  class Hub {
    var clients: set<Channel>
    const metrics: Metrics
    ghost var issued: seq<Channel>
    ghost var pending: set<Channel>
    ghost var event: Event
    ghost var drops: nat

    constructor (metrics: Metrics)
      ensures clients == {} && this.metrics == metrics
      ensures Valid() && Value() == R.Initial
    {
      clients := {};
      this.metrics := metrics;
      issued, pending, event, drops := [], {}, [], 0;
    }

    ghost predicate Valid()
      reads this, issued
    {
      && (forall n: nat :: n < |issued| ==> issued[n].number == n)
      && clients <= Elems(issued) && pending <= Elems(issued)
    }

    /** The hub as a state of its runs. */
    ghost function Value(): R.System
      reads this, issued
    {
      R.System(seq(|issued|, n requires 0 <= n < |issued| reads this, issued => issued[n].Value()),
               Numbered(clients), Numbered(pending), event, drops)
    }

    ghost function Numbered(chs: set<Channel>): set<nat>
      reads this
    {
      set n: nat | n < |issued| && issued[n] in chs
    }

    /** The numbers of the clients with no room for another event. */
    ghost function Full(): set<nat>
      reads this, issued
    {
      set n: nat | n < |issued| && issued[n] in clients && |issued[n].queue| >= 64
    }

    /** What the one-step broadcast is to the queues and the drops. */
    twostate lemma Offered(e: Event)
      requires old(Valid()) && clients == old(clients) && issued == old(issued)
      requires Value() == R.Broadcast(old(Value()), e)
      ensures forall ch :: ch in clients ==>
                ch.queue == if |old(ch.queue)| < 64 then old(ch.queue) + [e] else old(ch.queue)
      ensures drops == old(drops) + |old(Full())|
    {
      assert R.FullAmong(old(Value()), old(Value()).clients) == old(Full());
      forall ch | ch in clients
        ensures ch.queue == if |old(ch.queue)| < 64 then old(ch.queue) + [e] else old(ch.queue)
      {
        var n := ch.number;
        assert Value().channels[n] == ch.Value() && old(Value()).channels[n] == old(ch.Value());
        assert n in old(Value()).clients;
      }
    }

    method Subscribe() returns (ch: Channel)
      modifies this`clients, this`issued
      ensures fresh(ch) && ch.queue == []
      ensures clients == old(clients) + {ch} && issued == old(issued) + [ch]
      ensures old(Valid()) ==> Valid() && Value() == R.Do(old(Value()), R.Join)
    {
      ch := new Channel(|issued|);
      clients, issued := clients + {ch}, issued + [ch];
      assert old(Valid()) ==> Value().channels == old(Value()).channels + [R.Client([], [], 0)];
    }

    method Unsubscribe(ch: Channel)
      modifies this`clients
      ensures clients == old(clients) - {ch}
      ensures old(Valid()) ==> Valid()
      ensures old(Valid()) && ch in issued ==> Value() == R.Do(old(Value()), R.Leave(ch.number))
      ensures old(Valid()) && ch !in issued ==> Value() == old(Value())
    {
      clients := clients - {ch};
      assert old(Valid()) ==> Value().channels == old(Value()).channels;
    }

    /** A client's read, from the hub's side. */
    twostate lemma Took(ch: Channel)
      requires old(Valid()) && ch in issued && unchanged(this) && old(ch.queue) != []
      requires ch.queue == old(ch.queue)[1..] && ch.taken == old(ch.taken) + [old(ch.queue)[0]]
      requires ch.lost == old(ch.lost)
      requires forall c :: c in issued && c != ch ==> c.Value() == old(c.Value())
      ensures Valid() && R.Enabled(old(Value()), R.Take(ch.number))
      ensures Value() == R.Do(old(Value()), R.Take(ch.number))
    {
      assert Value().channels == R.Do(old(Value()), R.Take(ch.number)).channels;
    }

    /** Offer one client the event without blocking, counting a drop when its queue is full. */
    method Send(ch: Channel, e: Event)
      requires Valid() && ch in pending && e == event
      modifies ch`queue, ch`lost, this`pending, this`drops, metrics`dropped
      ensures ch.queue == if |old(ch.queue)| < 64 then old(ch.queue) + [e] else old(ch.queue)
      ensures metrics.dropped == old(metrics.dropped) + if |old(ch.queue)| < 64 then 0 else 1
      ensures pending == old(pending) - {ch} && metrics.dropped - drops == old(metrics.dropped - drops)
      ensures Valid() && R.Enabled(old(Value()), R.Send(ch.number))
      ensures Value() == R.Do(old(Value()), R.Send(ch.number))
    {
      if |ch.queue| < R.QUEUE_MAX {
        ch.queue := ch.queue + [e];
      } else {
        metrics.dropped := metrics.dropped + 1;
        drops, ch.lost := drops + 1, ch.lost + 1;
      }
      pending := pending - {ch};
      assert Value().channels == R.Do(old(Value()), R.Send(ch.number)).channels;
    }

    /**
     * In any order of the clients: one with room gets the event last in its queue, a full one keeps its queue as
     * it was and is counted as a drop; and the deliveries are the steps of a whole broadcast.
     */
    method Broadcast(e: Event)
      requires Valid() && pending == {}
      modifies this`pending, this`event, this`drops, metrics`dropped, clients
      ensures Valid() && pending == {} && Value() == R.Broadcast(old(Value()), e)
      ensures exists order :: R.Sends(R.Do(old(Value()), R.Begin(e)), order) == Some(Value())
      ensures forall ch :: ch in clients ==>
                ch.queue == if |old(ch.queue)| < 64 then old(ch.queue) + [e] else old(ch.queue)
      ensures metrics.dropped == old(metrics.dropped) + |old(Full())|
    {
      var subs := AnyOrder(clients);
      ghost var was, order := Value(), [];
      pending, event := clients, e;
      assert Value() == R.Do(was, R.Begin(e));
      for j := 0 to |subs|
        invariant Valid() && event == e && pending == clients - Elems(subs[..j])
        invariant R.Sends(R.Do(was, R.Begin(e)), order) == Some(Value())
        invariant metrics.dropped - drops == old(metrics.dropped - drops)
      {
        TakeNext(subs, j);
        NoDuplicatesAt(subs, j);
        R.SendsSnoc(R.Do(was, R.Begin(e)), order, Value(), subs[j].number);
        Send(subs[j], e);
        order := order + [subs[j].number];
      }
      R.BroadcastIsSends(was, e, order);
      Offered(e);
    }
  }

  /**
   * So for a hub that has gone through a run: each queue holds at most 64 events, and what its client read and
   * has still queued is an order-preserving part of the broadcasts made while it was subscribed, short by its drops.
   */
  lemma ObjectKeepsOrder(hub: Hub, actions: seq<R.Action>, ch: Channel)
    requires hub.Valid() && R.After(actions) == Some(hub.Value()) && ch in hub.issued && hub.pending == {}
    ensures |ch.queue| <= 64 && R.Subsequence(ch.taken + ch.queue, R.OfferedTo(actions, ch.number))
    ensures |ch.taken| + |ch.queue| + ch.lost == |R.OfferedTo(actions, ch.number)|
    ensures ch.lost == 0 <==> ch.taken + ch.queue == R.OfferedTo(actions, ch.number)
  {
    assert hub.Value().channels[ch.number] == ch.Value();
    R.OrderKept(actions, ch.number);
    R.KeepingUpMissesNothing(actions, ch.number);
  }
}
