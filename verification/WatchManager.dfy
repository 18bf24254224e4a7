/**
 * The refcounted watch manager: one hub and one watcher per cluster with subscribers, started by the
 * first subscription and cancelled by the last unsubscription.
 */
module WatchManager {
  import opened Basics
  import opened WebHub

  // ----- the manager as a value -----

  /** `serial` numbers the watchers in the order they were started. */
  datatype Entry<Ch> = Entry(serial: nat, clients: set<Ch>, refs: int)

  datatype Watch<Ch> = Watch(entries: map<Id, Entry<Ch>>, started: nat, cancelled: set<nat>,
                             activeSubscribers: int, activeWatchers: int)

  function Empty<Ch>(): Watch<Ch> {
    Watch(map[], 0, {}, 0, 0)
  }

  function Counted<Ch>(e: Entry<Ch>, ch: Ch): Entry<Ch> {
    e.(clients := e.clients + {ch}, refs := e.refs + 1)
  }

  function Uncounted<Ch>(e: Entry<Ch>, ch: Ch): Entry<Ch> {
    e.(clients := e.clients - {ch}, refs := e.refs - 1)
  }

  function Subscribed<Ch>(w: Watch<Ch>, id: Id, ch: Ch): Watch<Ch> {
    var known := id in w.entries;
    var entry := if known then w.entries[id] else Entry(w.started, {}, 0);
    w.(entries := w.entries[id := Counted(entry, ch)],
       started := if known then w.started else w.started + 1,
       activeSubscribers := w.activeSubscribers + 1,
       activeWatchers := if known then w.activeWatchers else w.activeWatchers + 1)
  }

  function Unsubscribed<Ch>(w: Watch<Ch>, id: Id, ch: Ch): Watch<Ch> {
    if id !in w.entries then w
    else
      var entry := Uncounted(w.entries[id], ch);
      if entry.refs <= 0 then
        w.(entries := w.entries - {id}, cancelled := w.cancelled + {entry.serial},
           activeSubscribers := w.activeSubscribers - 1, activeWatchers := w.activeWatchers - 1)
      else
        w.(entries := w.entries[id := entry], activeSubscribers := w.activeSubscribers - 1)
  }

  /** A watcher without subscribers yet. */
  function Started<Ch>(w: Watch<Ch>, id: Id): Watch<Ch> {
    w.(entries := w.entries[id := Entry(w.started, {}, 0)], started := w.started + 1,
       activeWatchers := w.activeWatchers + 1)
  }

  /** A handler gone from the hub and from the count. */
  function Released<Ch>(w: Watch<Ch>, id: Id, ch: Ch): Watch<Ch>
    requires id in w.entries
  {
    w.(entries := w.entries[id := Uncounted(w.entries[id], ch)], activeSubscribers := w.activeSubscribers - 1)
  }

  /** A watcher cancelled and forgotten. */
  function Stopped<Ch>(w: Watch<Ch>, id: Id): Watch<Ch>
    requires id in w.entries
  {
    w.(entries := w.entries - {id}, cancelled := w.cancelled + {w.entries[id].serial},
       activeWatchers := w.activeWatchers - 1)
  }

  /** Subscribing starts a missing watcher first; unsubscribing stops one whose count has run out. */
  lemma InParts<Ch>(w: Watch<Ch>, id: Id, ch: Ch)
    ensures id !in w.entries ==> Subscribed(Started(w, id), id, ch) == Subscribed(w, id, ch)
    ensures id in w.entries ==>
              Unsubscribed(w, id, ch) ==
              if w.entries[id].refs <= 1 then Stopped(Released(w, id, ch), id) else Released(w, id, ch)
  {
    if id in w.entries {
      assert Released(w, id, ch).entries - {id} == w.entries - {id};
    }
  }

  /** One handler more or less is seen in one entry and one gauge. */
  lemma Moved<Ch>(w: Watch<Ch>, w': Watch<Ch>, id: Id, ch: Ch, e: Entry<Ch>)
    requires id in w.entries && w'.entries == w.entries[id := e]
    requires w'.started == w.started && w'.cancelled == w.cancelled && w'.activeWatchers == w.activeWatchers
    ensures w'.activeSubscribers == w.activeSubscribers + 1 && e == Counted(w.entries[id], ch) ==>
              w' == Subscribed(w, id, ch)
    ensures w'.activeSubscribers == w.activeSubscribers - 1 && e == Uncounted(w.entries[id], ch) ==>
              w' == Released(w, id, ch)
  {
  }

  // ----- the manager as an object -----

  class WatchEntry {
    const hub: Hub
    ghost const serial: nat
    var cancelled: bool
    var refs: int

    constructor (hub: Hub, ghost serial: nat)
      ensures this.hub == hub && this.serial == serial && !cancelled && refs == 0
    {
      this.hub := hub;
      this.serial := serial;
      cancelled, refs := false, 0;
    }
  }

  class Manager {
    var entries: map<Id, WatchEntry>
    const metrics: Metrics
    ghost var started: seq<WatchEntry>

    /** Entries are numbered as started and share no hub; the manager holds each of its entries under one id. */
    ghost predicate Valid()
      reads this, started
    {
      && (forall i: nat :: i < |started| ==> started[i].serial == i)
      && (forall i: nat, j: nat :: i < |started| && j < |started| && started[i].hub == started[j].hub ==> i == j)
      && (forall id :: id in entries ==> entries[id] in started)
      && (forall id, other :: id in entries && other in entries && entries[id] == entries[other] ==> id == other)
    }

    ghost function Entries(): map<Id, Entry<Channel>>
      reads this, entries.Values, set id | id in entries :: entries[id].hub
    {
      map id | id in entries :: Entry(entries[id].serial, entries[id].hub.clients, entries[id].refs)
    }

    ghost function Cancelled(): set<nat>
      reads this, started
    {
      set i: nat | i < |started| && started[i].cancelled
    }

    ghost function Value(): Watch<Channel>
      reads this, started, metrics, entries.Values, set id | id in entries :: entries[id].hub
    {
      Watch(Entries(), |started|, Cancelled(), metrics.activeSubscribers, metrics.activeWatchers)
    }

    /** An entry and its hub belong to one id. */
    lemma Apart(id: Id)
      requires Valid() && id in entries
      ensures forall other :: other in entries && other != id ==>
                entries[other] != entries[id] && entries[other].hub != entries[id].hub
    {
    }

    /** Adding or changing one entry and its hub changes one entry of the value. */
    twostate lemma OneChanged(id: Id)
      requires id in entries && entries == old(entries)[id := entries[id]]
      requires forall other :: other in entries && other != id ==>
                 entries[other].refs == old(entries[other].refs) &&
                 entries[other].hub.clients == old(entries[other].hub.clients)
      ensures Entries() == old(Entries())[id := Entry(entries[id].serial, entries[id].hub.clients, entries[id].refs)]
    {
    }

    /** Dropping an id from the map drops one entry of the value. */
    twostate lemma OneDropped(id: Id)
      requires id in old(entries) && entries == old(entries) - {id}
      requires forall other :: other in entries ==>
                 entries[other].refs == old(entries[other].refs) &&
                 entries[other].hub.clients == old(entries[other].hub.clients)
      ensures Entries() == old(Entries()) - {id}
    {
    }

    /** Objects keep their serials and hubs. */
    twostate lemma StillValid()
      requires old(Valid()) && unchanged(this)
      ensures Valid()
    {
    }

    twostate lemma NoneCancelled()
      requires old(started) <= started
      requires forall entry :: entry in old(started) ==> entry.cancelled == old(entry.cancelled)
      requires forall i: nat :: |old(started)| <= i < |started| ==> !started[i].cancelled
      ensures Cancelled() == old(Cancelled())
    {
    }

    twostate lemma OneCancelled(entry: WatchEntry)
      requires Valid() && started == old(started) && entry in started && entry.cancelled
      requires forall e :: e in started && e != entry ==> e.cancelled == old(e.cancelled)
      ensures Cancelled() == old(Cancelled()) + {entry.serial}
    {
      var i :| 0 <= i < |started| && started[i] == entry;
    }

    constructor (metrics: Metrics)
      requires metrics.activeSubscribers == 0 && metrics.activeWatchers == 0
      ensures Valid() && Value() == Empty() && this.metrics == metrics
    {
      entries, started := map[], [];
      this.metrics := metrics;
    }

    /** Starts a watcher for a cluster that has none. */
    method Start(id: Id) returns (entry: WatchEntry)
      requires Valid() && id !in entries
      modifies this`entries, this`started, metrics`activeWatchers
      ensures Valid() && fresh(entry) && fresh(entry.hub)
      ensures entries == old(entries)[id := entry] && started == old(started) + [entry]
      ensures Value() == Started(old(Value()), id)
      ensures entry.hub.clients == {} && entry.refs == 0
    {
      var hub := new Hub(metrics);
      entry := new WatchEntry(hub, |started|);
      entries := entries[id := entry];
      started := started + [entry];
      metrics.activeWatchers := metrics.activeWatchers + 1;
      OneChanged(id);
      NoneCancelled();
    }

    /** One more handler on an entry of the manager. */
    method Join(id: Id, entry: WatchEntry) returns (ch: Channel)
      requires Valid() && id in entries && entries[id] == entry
      modifies metrics`activeSubscribers, entry`refs, entry.hub`clients, entry.hub`issued
      ensures Valid() && fresh(ch) && ch.queue == []
      ensures Value() == Subscribed(old(Value()), id, ch)
      ensures entry.hub.clients == old(entry.hub.clients) + {ch} && entry.refs == old(entry.refs) + 1
    {
      ghost var before := Value();
      assert before.entries[id] == Entry(entry.serial, entry.hub.clients, entry.refs);
      entry.refs := entry.refs + 1;
      metrics.activeSubscribers := metrics.activeSubscribers + 1;
      ch := entry.hub.Subscribe();
      Apart(id);
      StillValid();
      OneChanged(id);
      NoneCancelled();
      Moved(before, Value(), id, ch, Entry(entry.serial, entry.hub.clients, entry.refs));
    }

    method Subscribe(id: Id) returns (ch: Channel)
      requires Valid()
      modifies this, metrics, started, set entry | entry in started :: entry.hub
      ensures Valid() && fresh(ch) && ch.queue == []
      ensures Value() == Subscribed(old(Value()), id, ch)
      ensures id in old(entries) ==>
                && entries == old(entries) && started == old(started)
                && entries[id].hub.clients == old(entries[id].hub.clients) + {ch}
                && entries[id].refs == old(entries[id].refs) + 1
      ensures id !in old(entries) ==>
                && id in entries && entries == old(entries)[id := entries[id]]
                && started == old(started) + [entries[id]]
                && entries[id].hub.clients == {ch} && entries[id].refs == 1
      ensures forall entry :: entry in started && entry !in old(started) ==> fresh(entry) && fresh(entry.hub)
      ensures metrics.dropped == old(metrics.dropped)
    {
      if id !in entries {
        var entry := Start(id);
      }
      ch := Join(id, entries[id]);
      InParts(old(Value()), id, ch);
    }

    /** One handler less on an entry of the manager. */
    method Release(id: Id, ch: Channel, entry: WatchEntry)
      requires Valid() && id in entries && entries[id] == entry
      modifies metrics`activeSubscribers, entry`refs, entry.hub`clients
      ensures Valid() && Value() == Released(old(Value()), id, ch)
      ensures entry.hub.clients == old(entry.hub.clients) - {ch} && entry.refs == old(entry.refs) - 1
    {
      ghost var before := Value();
      assert before.entries[id] == Entry(entry.serial, entry.hub.clients, entry.refs);
      entry.hub.Unsubscribe(ch);
      entry.refs := entry.refs - 1;
      metrics.activeSubscribers := metrics.activeSubscribers - 1;
      Apart(id);
      StillValid();
      OneChanged(id);
      NoneCancelled();
      Moved(before, Value(), id, ch, Entry(entry.serial, entry.hub.clients, entry.refs));
    }

    /** Cancels a watcher and removes its entry. */
    method Stop(id: Id, entry: WatchEntry)
      requires Valid() && id in entries && entries[id] == entry
      modifies this`entries, metrics`activeWatchers, entry`cancelled
      ensures Valid() && Value() == Stopped(old(Value()), id)
      ensures entries == old(entries) - {id} && entry.cancelled
    {
      Apart(id);
      entry.cancelled := true;
      entries := entries - {id};
      metrics.activeWatchers := metrics.activeWatchers - 1;
      OneDropped(id);
      OneCancelled(entry);
    }

    method Unsubscribe(id: Id, ch: Channel)
      requires Valid()
      modifies this, metrics, started, set entry | entry in started :: entry.hub
      ensures Valid()
      ensures Value() == Unsubscribed(old(Value()), id, ch)
      ensures id !in old(entries) ==> entries == old(entries)
      ensures id in old(entries) ==>
                var entry := old(entries[id]);
                && entry.hub.clients == old(entries[id].hub.clients) - {ch}
                && entry.refs == old(entries[id].refs) - 1
                && entries == (if entry.refs <= 0 then old(entries) - {id} else old(entries))
                && entry.cancelled == (entry.refs <= 0 || old(entries[id].cancelled))
      ensures started == old(started) && metrics.dropped == old(metrics.dropped)
    {
      if id in entries {
        InParts(Value(), id, ch);
        var entry := entries[id];
        Release(id, ch, entry);
        if entry.refs <= 0 {
          Stop(id, entry);
        }
      }
    }
  }
}
