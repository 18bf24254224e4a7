/**
 * Whole runs of a hub, one delivery at a time: clients come, go and read between the deliveries of a
 * broadcast. Nothing is lost uncounted, and every client sees its broadcasts in order.
 */
module HubRuns {
  import opened Basics

  type Event = Bytes

  const QUEUE_MAX: nat := 64

  /** One client channel: what it has been read, what is still queued, how often a send found it full. */
  datatype Client = Client(taken: seq<Event>, queue: seq<Event>, lost: nat)

  /** Channels are positions in `channels`; `pending` are those the running broadcast still has to offer `event` to. */
  datatype System = System(channels: seq<Client>, clients: set<nat>, pending: set<nat>, event: Event, dropped: nat)

  datatype Action =
    | Join
    | Leave(ch: nat)
    | Begin(event: Event)
    | Send(ch: nat)
    | Take(ch: nat)

  const Initial := System([], {}, {}, [], 0)

  /** One watcher goroutine broadcasts per hub, so a broadcast starts only when the last one is over. */
  predicate Enabled(x: System, a: Action) {
    match a
    case Join => true
    case Leave(ch) => ch < |x.channels|
    case Begin(_) => x.pending == {}
    case Send(ch) => ch in x.pending && ch < |x.channels|
    case Take(ch) => ch < |x.channels| && x.channels[ch].queue != []
  }

  function Offered(c: Client, e: Event): Client {
    if |c.queue| < QUEUE_MAX then c.(queue := c.queue + [e]) else c.(lost := c.lost + 1)
  }

  function Do(x: System, a: Action): System
    requires Enabled(x, a)
  {
    match a
    case Join => x.(channels := x.channels + [Client([], [], 0)], clients := x.clients + {|x.channels|})
    case Leave(ch) => x.(clients := x.clients - {ch})
    case Begin(e) => x.(pending := x.clients, event := e)
    case Send(ch) =>
      var c := x.channels[ch];
      x.(channels := x.channels[ch := Offered(c, x.event)],
         pending := x.pending - {ch},
         dropped := if |c.queue| < QUEUE_MAX then x.dropped else x.dropped + 1)
    case Take(ch) =>
      var c := x.channels[ch];
      x.(channels := x.channels[ch := c.(taken := c.taken + [c.queue[0]], queue := c.queue[1..])])
  }

  function After(actions: seq<Action>): Option<System>
    decreases |actions|
  {
    if actions == [] then Some(Initial)
    else
      var p := After(actions[..|actions| - 1]);
      var a := actions[|actions| - 1];
      if p.Some? && Enabled(p.value, a) then Some(Do(p.value, a)) else None
  }

  // ----- what the run offered -----

  /** The broadcasts begun while this channel was a client, in order. */
  function OfferedTo(actions: seq<Action>, ch: nat): seq<Event>
    requires After(actions).Some?
    decreases |actions|
  {
    if actions == [] then []
    else
      var earlier := actions[..|actions| - 1];
      var a := actions[|actions| - 1];
      if a.Begin? && ch in After(earlier).value.clients then OfferedTo(earlier, ch) + [a.event]
      else OfferedTo(earlier, ch)
  }

  /** The client counts at each broadcast, summed. */
  function OfferedInAll(actions: seq<Action>): nat
    requires After(actions).Some?
    decreases |actions|
  {
    if actions == [] then 0
    else
      var earlier := actions[..|actions| - 1];
      OfferedInAll(earlier) + if actions[|actions| - 1].Begin? then |After(earlier).value.clients| else 0
  }

  /** All events that sit in a queue or were read from one. */
  function Delivered(channels: seq<Client>): nat {
    if channels == [] then 0
    else
      var c := channels[|channels| - 1];
      Delivered(channels[..|channels| - 1]) + |c.taken| + |c.queue|
  }

  function History(c: Client): seq<Event> {
    c.taken + c.queue
  }

  /** Some of t, in the order of t. */
  ghost predicate Subsequence<T(!new)>(s: seq<T>, t: seq<T>)
    decreases |t|
  {
    s == [] ||
    (t != [] &&
     ((s[|s| - 1] == t[|t| - 1] && Subsequence(s[..|s| - 1], t[..|t| - 1])) || Subsequence(s, t[..|t| - 1])))
  }

  lemma SubsequenceBoth<T(!new)>(s: seq<T>, t: seq<T>, x: T)
    requires Subsequence(s, t)
    ensures Subsequence(s + [x], t + [x]) && Subsequence(s, t + [x])
  {
    assert (s + [x])[..|s|] == s && (t + [x])[..|t|] == t;
  }

  lemma {:induction false} SubsequenceShorter<T(!new)>(s: seq<T>, t: seq<T>)
    requires Subsequence(s, t)
    ensures |s| <= |t|
    ensures |s| == |t| ==> s == t
    decreases |t|
  {
    if s != [] {
      var s', t' := s[..|s| - 1], t[..|t| - 1];
      if s[|s| - 1] == t[|t| - 1] && Subsequence(s', t') {
        SubsequenceShorter(s', t');
        assert s == s' + [s[|s| - 1]] && t == t' + [t[|t| - 1]];
      } else {
        SubsequenceShorter(s, t');
      }
    }
  }

  // ----- the invariant -----

  /** The broadcasts this channel has been offered or refused, leaving out the one it still waits for. */
  function SettledFor(actions: seq<Action>, ch: nat): seq<Event>
    requires After(actions).Some?
  {
    SettledOf(After(actions).value, OfferedTo(actions, ch), ch)
  }

  function SettledOf(x: System, all: seq<Event>, ch: nat): seq<Event> {
    if ch in x.pending && all != [] then all[..|all| - 1] else all
  }

  ghost predicate ClientSound(c: Client, settled: seq<Event>) {
    && |c.queue| <= QUEUE_MAX
    && Subsequence(History(c), settled)
    && |History(c)| + c.lost == |settled|
  }

  /** Clients and pending deliveries refer to channels that exist. */
  ghost predicate ReferencesSound(x: System) {
    forall ch: nat :: ch in x.clients || ch in x.pending ==> ch < |x.channels|
  }

  ghost predicate OffersSound(actions: seq<Action>, ch: nat)
    requires After(actions).Some?
  {
    OffersAt(After(actions).value, OfferedTo(actions, ch), ch)
  }

  /** A pending channel was offered the running broadcast last; a channel not yet made was offered nothing. */
  ghost predicate OffersAt(x: System, all: seq<Event>, ch: nat) {
    && (ch in x.pending ==> all != [] && all[|all| - 1] == x.event)
    && (ch >= |x.channels| ==> all == [])
  }

  ghost predicate ChannelSound(actions: seq<Action>, ch: nat)
    requires After(actions).Some?
  {
    ch < |After(actions).value.channels| ==> ClientSound(After(actions).value.channels[ch], SettledFor(actions, ch))
  }

  ghost predicate Balanced(actions: seq<Action>)
    requires After(actions).Some?
  {
    var x := After(actions).value;
    Delivered(x.channels) + x.dropped + |x.pending| == OfferedInAll(actions)
  }

  ghost predicate Sound(actions: seq<Action>) {
    && After(actions).Some?
    && ReferencesSound(After(actions).value)
    && (forall ch: nat :: OffersSound(actions, ch))
    && (forall ch: nat :: ChannelSound(actions, ch))
    && Balanced(actions)
  }

  lemma {:induction false} DeliveredUpdate(channels: seq<Client>, i: nat, c: Client)
    requires i < |channels|
    ensures Delivered(channels[i := c]) + |History(channels[i])| == Delivered(channels) + |History(c)|
    decreases |channels|
  {
    var n := |channels| - 1;
    if i < n {
      DeliveredUpdate(channels[..n], i, c);
      assert channels[i := c][..n] == channels[..n][i := c];
    } else {
      assert channels[i := c][..n] == channels[..n];
    }
  }

  lemma OfferedSound(c: Client, settled: seq<Event>, e: Event)
    requires ClientSound(c, settled)
    ensures ClientSound(Offered(c, e), settled + [e])
  {
    SubsequenceBoth(History(c), settled, e);
    assert |c.queue| < QUEUE_MAX ==> History(Offered(c, e)) == History(c) + [e];
  }

  lemma TakenSound(c: Client, settled: seq<Event>)
    requires ClientSound(c, settled) && c.queue != []
    ensures ClientSound(c.(taken := c.taken + [c.queue[0]], queue := c.queue[1..]), settled)
  {
    assert History(c.(taken := c.taken + [c.queue[0]], queue := c.queue[1..])) == History(c);
  }

  lemma {:induction false} EveryRunSound(actions: seq<Action>)
    requires After(actions).Some?
    ensures Sound(actions)
    decreases |actions|
  {
    if actions == [] {
      assert forall ch: nat :: OffersSound(actions, ch) && ChannelSound(actions, ch);
    } else {
      var n := |actions| - 1;
      EveryRunSound(actions[..n]);
      assert actions == actions[..n] + [actions[n]];
      SoundStep(actions[..n], actions[n], actions);
    }
  }

  lemma SoundStep(earlier: seq<Action>, a: Action, actions: seq<Action>)
    requires Sound(earlier) && actions == earlier + [a] && After(actions).Some?
    ensures Sound(actions)
  {
    ReferencesStep(earlier, a, actions);
    forall ch: nat
      ensures OffersSound(actions, ch)
    {
      OffersStep(earlier, a, actions, ch);
    }
    forall ch: nat
      ensures ChannelSound(actions, ch)
    {
      ClientStep(earlier, a, actions, ch);
    }
    CountStep(earlier, a, actions);
  }

  lemma ReferencesStep(earlier: seq<Action>, a: Action, actions: seq<Action>)
    requires Sound(earlier) && actions == earlier + [a] && After(actions).Some?
    ensures ReferencesSound(After(actions).value)
  {
    var x := Unfold(earlier, a, actions);
  }

  /** One step of a run: the state and what was offered. */
  lemma Unfold(earlier: seq<Action>, a: Action, actions: seq<Action>) returns (x: System)
    requires actions == earlier + [a] && After(actions).Some?
    ensures After(earlier) == Some(x) && Enabled(x, a) && After(actions) == Some(Do(x, a))
    ensures forall ch: nat :: OfferedTo(actions, ch) ==
              if a.Begin? && ch in x.clients then OfferedTo(earlier, ch) + [a.event] else OfferedTo(earlier, ch)
    ensures OfferedInAll(actions) == OfferedInAll(earlier) + if a.Begin? then |x.clients| else 0
  {
    assert actions[..|actions| - 1] == earlier;
    x := After(earlier).value;
  }

  lemma OffersStep(earlier: seq<Action>, a: Action, actions: seq<Action>, ch: nat)
    requires Sound(earlier) && actions == earlier + [a] && After(actions).Some?
    ensures OffersSound(actions, ch)
  {
    var x := Unfold(earlier, a, actions);
    assert OffersSound(earlier, ch);
    OffersNext(x, a, Do(x, a), OfferedTo(earlier, ch), OfferedTo(actions, ch), ch);
  }

  lemma OffersNext(x: System, a: Action, x': System, all: seq<Event>, all': seq<Event>, ch: nat)
    requires Enabled(x, a) && x' == Do(x, a) && OffersAt(x, all, ch) && ReferencesSound(x)
    requires all' == if a.Begin? && ch in x.clients then all + [a.event] else all
    ensures OffersAt(x', all', ch)
  {
  }

  /** Only a delivery settles a broadcast for a channel. */
  lemma SettledStep(earlier: seq<Action>, a: Action, actions: seq<Action>, ch: nat)
    requires Sound(earlier) && actions == earlier + [a] && After(actions).Some?
    ensures SettledFor(actions, ch) ==
            if a == Send(ch) then SettledFor(earlier, ch) + [After(earlier).value.event] else SettledFor(earlier, ch)
  {
    var x := Unfold(earlier, a, actions);
    assert OffersSound(earlier, ch);
    SettledNext(x, a, Do(x, a), OfferedTo(earlier, ch), OfferedTo(actions, ch), ch);
  }

  lemma SettledNext(x: System, a: Action, x': System, all: seq<Event>, all': seq<Event>, ch: nat)
    requires Enabled(x, a) && x' == Do(x, a) && OffersAt(x, all, ch) && ReferencesSound(x)
    requires all' == if a.Begin? && ch in x.clients then all + [a.event] else all
    ensures SettledOf(x', all', ch) ==
            if a == Send(ch) then SettledOf(x, all, ch) + [x.event] else SettledOf(x, all, ch)
  {
    assert (all + [x.event])[..|all|] == all;
    if a.Begin? {
      assert (all + [a.event])[..|all|] == all;
    } else if a == Send(ch) {
      assert all == all[..|all| - 1] + [all[|all| - 1]];
    }
  }

  lemma ClientStep(earlier: seq<Action>, a: Action, actions: seq<Action>, ch: nat)
    requires Sound(earlier) && actions == earlier + [a] && After(actions).Some?
    ensures ChannelSound(actions, ch)
  {
    var x := Unfold(earlier, a, actions);
    SettledStep(earlier, a, actions, ch);
    assert ChannelSound(earlier, ch) && OffersSound(earlier, ch);
    if ch < |x.channels| {
      if a == Send(ch) {
        OfferedSound(x.channels[ch], SettledFor(earlier, ch), x.event);
      } else if a == Take(ch) {
        TakenSound(x.channels[ch], SettledFor(earlier, ch));
      }
    }
  }

  lemma CountStep(earlier: seq<Action>, a: Action, actions: seq<Action>)
    requires Sound(earlier) && actions == earlier + [a] && After(actions).Some?
    ensures Balanced(actions)
  {
    var x := Unfold(earlier, a, actions);
    CountNext(x, a, Do(x, a));
  }

  lemma CountNext(x: System, a: Action, x': System)
    requires Enabled(x, a) && x' == Do(x, a)
    ensures Delivered(x'.channels) + x'.dropped + |x'.pending| ==
              Delivered(x.channels) + x.dropped + |x.pending| + if a.Begin? then |x.clients| else 0
  {
    if a.Send? {
      DeliveredUpdate(x.channels, a.ch, Offered(x.channels[a.ch], x.event));
    } else if a.Take? {
      DeliveredUpdate(x.channels, a.ch, x'.channels[a.ch]);
    } else if a.Join? {
      assert x'.channels[..|x.channels|] == x.channels;
    }
  }

  // ----- the promises -----

  /** Deliveries plus drops plus what the running broadcast still owes is the sum of client counts. */
  lemma Conservation(actions: seq<Action>)
    requires After(actions).Some?
    ensures var x := After(actions).value; Delivered(x.channels) + x.dropped + |x.pending| == OfferedInAll(actions)
  {
    EveryRunSound(actions);
  }

  /**
   * What a client has read and still has queued is an order-preserving part of the broadcasts begun
   * while it was subscribed, short by exactly its drops and the one it may still wait for.
   */
  lemma OrderKept(actions: seq<Action>, ch: nat)
    requires After(actions).Some? && ch < |After(actions).value.channels|
    ensures var x := After(actions).value;
            var c := x.channels[ch];
            && |c.queue| <= 64
            && Subsequence(c.taken + c.queue, OfferedTo(actions, ch))
            && |c.taken| + |c.queue| + c.lost + (if ch in x.pending then 1 else 0) == |OfferedTo(actions, ch)|
  {
    EveryRunSound(actions);
    assert ChannelSound(actions, ch) && OffersSound(actions, ch);
    StillOwed(After(actions).value.channels[ch], OfferedTo(actions, ch), ch in After(actions).value.pending);
  }

  /** A client sound for what is settled, seen against everything it was offered. */
  lemma StillOwed(c: Client, all: seq<Event>, owed: bool)
    requires owed ==> all != []
    requires ClientSound(c, if owed then all[..|all| - 1] else all)
    ensures |c.queue| <= QUEUE_MAX && Subsequence(c.taken + c.queue, all)
    ensures |c.taken| + |c.queue| + c.lost + (if owed then 1 else 0) == |all|
  {
    if owed {
      SubsequenceBoth(History(c), all[..|all| - 1], all[|all| - 1]);
      assert all == all[..|all| - 1] + [all[|all| - 1]];
    }
  }

  /** A client that never let its queue fill up has every broadcast, in order. */
  lemma KeepingUpMissesNothing(actions: seq<Action>, ch: nat)
    requires After(actions).Some? && ch < |After(actions).value.channels|
    requires ch !in After(actions).value.pending
    ensures var c := After(actions).value.channels[ch];
            c.lost == 0 <==> c.taken + c.queue == OfferedTo(actions, ch)
  {
    OrderKept(actions, ch);
    SubsequenceShorter(History(After(actions).value.channels[ch]), OfferedTo(actions, ch));
  }

  // ----- a broadcast as one step -----

  function FullAmong(x: System, chs: set<nat>): set<nat> {
    set ch | ch in chs && ch < |x.channels| && |x.channels[ch].queue| >= QUEUE_MAX
  }

  /** The whole broadcast at once: every client is offered the event. */
  function Broadcast(x: System, e: Event): System {
    System(seq(|x.channels|, i requires 0 <= i < |x.channels| =>
             if i in x.clients then Offered(x.channels[i], e) else x.channels[i]),
           x.clients, {}, e, x.dropped + |FullAmong(x, x.clients)|)
  }

  /** Runs of deliveries, in the order given. */
  function Sends(x: System, order: seq<nat>): Option<System>
    decreases |order|
  {
    if order == [] then Some(x)
    else
      var p := Sends(x, order[..|order| - 1]);
      var a := Send(order[|order| - 1]);
      if p.Some? && Enabled(p.value, a) then Some(Do(p.value, a)) else None
  }

  lemma SendsSnoc(x: System, order: seq<nat>, y: System, ch: nat)
    requires Sends(x, order) == Some(y)
    ensures Enabled(y, Send(ch)) ==> Sends(x, order + [ch]) == Some(Do(y, Send(ch)))
  {
    assert (order + [ch])[..|order|] == order;
  }

  ghost predicate PartlySent(x: System, e: Event, sent: set<nat>, y: System) {
    && sent <= x.clients && y.clients == x.clients && y.pending == x.clients - sent && y.event == e
    && |y.channels| == |x.channels|
    && (forall i: nat :: i < |x.channels| ==>
          y.channels[i] == if i in sent then Offered(x.channels[i], e) else x.channels[i])
    && y.dropped == x.dropped + |FullAmong(x, sent)|
  }

  lemma FullGrows(x: System, chs: set<nat>, ch: nat)
    requires ch !in chs && ch < |x.channels|
    ensures |FullAmong(x, chs + {ch})| == |FullAmong(x, chs)| + if |x.channels[ch].queue| >= QUEUE_MAX then 1 else 0
  {
    assert FullAmong(x, chs + {ch}) ==
           if |x.channels[ch].queue| >= QUEUE_MAX then FullAmong(x, chs) + {ch} else FullAmong(x, chs);
  }

  lemma SendNext(x: System, e: Event, sent: set<nat>, y: System, ch: nat)
    requires PartlySent(x, e, sent, y) && Enabled(y, Send(ch))
    ensures PartlySent(x, e, sent + {ch}, Do(y, Send(ch)))
  {
    FullGrows(x, sent, ch);
  }

  lemma {:induction false} SendsReach(x: System, e: Event, order: seq<nat>)
    requires x.pending == {} && Sends(Do(x, Begin(e)), order).Some?
    ensures PartlySent(x, e, Elems(order), Sends(Do(x, Begin(e)), order).value)
    decreases |order|
  {
    if order == [] {
      assert Elems(order) == {};
      assert FullAmong(x, {}) == {};
    } else {
      var n := |order| - 1;
      SendsReach(x, e, order[..n]);
      SendNext(x, e, Elems(order[..n]), Sends(Do(x, Begin(e)), order[..n]).value, order[n]);
      assert order == order[..n] + [order[n]];
      assert Elems(order) == Elems(order[..n]) + {order[n]};
    }
  }

  /** Whatever order the deliveries take, a finished broadcast is the one-step broadcast. */
  lemma BroadcastIsSends(x: System, e: Event, order: seq<nat>)
    requires x.pending == {} && Sends(Do(x, Begin(e)), order).Some?
    requires Sends(Do(x, Begin(e)), order).value.pending == {}
    ensures Sends(Do(x, Begin(e)), order).value == Broadcast(x, e)
  {
    SendsReach(x, e, order);
    assert Elems(order) == x.clients;
    assert Sends(Do(x, Begin(e)), order).value.channels == Broadcast(x, e).channels;
  }

  function SendSteps(order: seq<nat>): seq<Action> {
    if order == [] then [] else SendSteps(order[..|order| - 1]) + [Send(order[|order| - 1])]
  }

  /** An uninterrupted broadcast continues a run. */
  lemma {:induction false} BroadcastContinues(actions: seq<Action>, x: System, e: Event, order: seq<nat>, y: System)
    requires After(actions) == Some(x) && x.pending == {} && Sends(Do(x, Begin(e)), order) == Some(y)
    ensures After(actions + [Begin(e)] + SendSteps(order)) == Some(y)
    decreases |order|
  {
    var begun := actions + [Begin(e)];
    if order == [] {
      assert begun[..|actions|] == actions && begun + [] == begun;
    } else {
      var n := |order| - 1;
      BroadcastContinues(actions, x, e, order[..n], Sends(Do(x, Begin(e)), order[..n]).value);
      var all := begun + SendSteps(order);
      assert all[..|all| - 1] == begun + SendSteps(order[..n]);
    }
  }
}
