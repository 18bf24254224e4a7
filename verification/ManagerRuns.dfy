/**
 * Whole runs of the watch manager in which every handler unsubscribes the channel it was given, under
 * the cluster it subscribed to, once: references, clients, gauges and cancellations always agree.
 */
module ManagerRuns {
  import opened Basics
  import opened WatchManager
  import WebHub

  /** `outstanding` maps each channel whose handler still runs to its cluster; `used` are all channels ever given. */
  datatype World<Ch> = World(watch: Watch<Ch>, outstanding: map<Ch, Id>, used: set<Ch>)

  datatype Action<Ch> =
    | Enter(id: Id, ch: Ch)
    | Exit(ch: Ch)

  /** A channel is new when it is given out; a handler exits once, with its own channel. */
  predicate Enabled<Ch>(x: World<Ch>, a: Action<Ch>) {
    match a
    case Enter(_, ch) => ch !in x.used
    case Exit(ch) => ch in x.outstanding
  }

  function Do<Ch>(x: World<Ch>, a: Action<Ch>): World<Ch>
    requires Enabled(x, a)
  {
    match a
    case Enter(id, ch) => World(Subscribed(x.watch, id, ch), x.outstanding[ch := id], x.used + {ch})
    case Exit(ch) => x.(watch := Unsubscribed(x.watch, x.outstanding[ch], ch), outstanding := x.outstanding - {ch})
  }

  function After<Ch>(actions: seq<Action<Ch>>): Option<World<Ch>>
    decreases |actions|
  {
    if actions == [] then Some(World(Empty(), map[], {}))
    else
      var p := After(actions[..|actions| - 1]);
      var a := actions[|actions| - 1];
      if p.Some? && Enabled(p.value, a) then Some(Do(p.value, a)) else None
  }

  /** The channels whose handlers watch this cluster. */
  ghost function Watching<Ch>(outstanding: map<Ch, Id>, id: Id): set<Ch> {
    set ch | ch in outstanding && outstanding[ch] == id
  }

  /** The sum of all reference counts. */
  ghost function References<Ch>(entries: map<Id, Entry<Ch>>): int
    decreases |entries|
  {
    if entries == map[] then 0
    else
      var id :| id in entries;
      entries[id].refs + References(entries - {id})
  }

  /** The entry of a cluster serves exactly these channels and counts them; no entry, no channels. */
  ghost predicate Serves<Ch>(w: Watch<Ch>, id: Id, watching: set<Ch>) {
    if id in w.entries then
      w.entries[id].clients == watching && w.entries[id].refs == |watching| && w.entries[id].refs >= 1
    else watching == {}
  }

  /** The entry of a cluster serves exactly its outstanding channels and counts them. */
  ghost predicate EntrySound<Ch>(x: World<Ch>, id: Id) {
    Serves(x.watch, id, Watching(x.outstanding, id))
  }

  /** Current watchers have different numbers, and the started ones that are not current are the cancelled ones. */
  ghost predicate SerialsSound<Ch>(w: Watch<Ch>) {
    SerialsDistinct(w) && CancelledExactly(w)
  }

  ghost predicate SerialsDistinct<Ch>(w: Watch<Ch>) {
    forall id, other ::
      id in w.entries && other in w.entries && w.entries[id].serial == w.entries[other].serial ==> id == other
  }

  /** Number i is cancelled exactly if it was started and is not current. */
  ghost predicate CancelledAt<Ch>(w: Watch<Ch>, i: nat) {
    i in w.cancelled <==> i < w.started && !Current(w, i)
  }

  ghost predicate CancelledExactly<Ch>(w: Watch<Ch>) {
    forall i: nat :: CancelledAt(w, i)
  }

  ghost predicate Current<Ch>(w: Watch<Ch>, i: nat) {
    exists id :: id in w.entries && w.entries[id].serial == i
  }

  ghost predicate SerialsBelow<Ch>(w: Watch<Ch>) {
    forall id :: id in w.entries ==> w.entries[id].serial < w.started
  }

  ghost predicate GaugesSound<Ch>(x: World<Ch>) {
    && x.watch.activeSubscribers == References(x.watch.entries) == |x.outstanding|
    && x.watch.activeWatchers == |x.watch.entries|
  }

  ghost predicate Sound<Ch>(x: World<Ch>) {
    && (forall id :: EntrySound(x, id))
    && SerialsSound(x.watch) && SerialsBelow(x.watch) && GaugesSound(x)
    && x.outstanding.Keys <= x.used
  }

  // ----- sums over the entries -----

  lemma {:induction false} ReferencesWithout<Ch>(entries: map<Id, Entry<Ch>>, id: Id)
    requires id in entries
    ensures References(entries) == entries[id].refs + References(entries - {id})
    decreases |entries|
  {
    var k :| k in entries && References(entries) == entries[k].refs + References(entries - {k});
    if k != id {
      ReferencesWithout(entries - {k}, id);
      ReferencesWithout(entries - {id}, k);
      assert entries - {k} - {id} == entries - {id} - {k};
    }
  }

  lemma ReferencesPut<Ch>(entries: map<Id, Entry<Ch>>, id: Id, e: Entry<Ch>)
    ensures References(entries[id := e]) == References(entries - {id}) + e.refs
  {
    ReferencesWithout(entries[id := e], id);
    assert entries[id := e] - {id} == entries - {id};
  }

  lemma ReferencesAbsent<Ch>(entries: map<Id, Entry<Ch>>, id: Id)
    requires id !in entries
    ensures References(entries - {id}) == References(entries)
  {
    assert entries - {id} == entries;
  }

  lemma RemoveCount<K, V>(m: map<K, V>, k: K)
    requires k in m
    ensures |m - {k}| == |m| - 1
  {
    assert m == (m - {k})[k := m[k]];
  }

  // ----- every step -----

  lemma WatchingStep<Ch>(x: World<Ch>, a: Action<Ch>, id: Id)
    requires Enabled(x, a) && x.outstanding.Keys <= x.used
    ensures var was := Watching(x.outstanding, id);
            var now := Watching(Do(x, a).outstanding, id);
            if a.Enter? then
              if a.id == id then now == was + {a.ch} && a.ch !in was else now == was
            else
              if x.outstanding[a.ch] == id then now == was - {a.ch} && a.ch in was else now == was
  {
  }

  lemma EntryStep<Ch>(x: World<Ch>, a: Action<Ch>, id: Id)
    requires Sound(x) && Enabled(x, a)
    ensures EntrySound(Do(x, a), id)
  {
    assert EntrySound(x, id);
    WatchingStep(x, a, id);
    var was, now := Watching(x.outstanding, id), Watching(Do(x, a).outstanding, id);
    if a.Enter? {
      EntryEntered(x.watch, a.id, a.ch, id, was, now);
    } else {
      EntryLeft(x.watch, x.outstanding[a.ch], a.ch, id, was, now);
    }
  }

  lemma EntryEntered<Ch>(w: Watch<Ch>, at: Id, ch: Ch, id: Id, was: set<Ch>, now: set<Ch>)
    requires Serves(w, id, was)
    requires if at == id then now == was + {ch} && ch !in was else now == was
    ensures Serves(Subscribed(w, at, ch), id, now)
  {
  }

  lemma EntryLeft<Ch>(w: Watch<Ch>, at: Id, ch: Ch, id: Id, was: set<Ch>, now: set<Ch>)
    requires Serves(w, id, was)
    requires if at == id then now == was - {ch} && ch in was else now == was
    ensures Serves(Unsubscribed(w, at, ch), id, now)
  {
    if at == id {
      assert |now| == |was| - 1;
    }
  }

  /** Writing an entry makes its number current in place of the one it replaces. */
  lemma CurrentPut<Ch>(w: Watch<Ch>, w': Watch<Ch>, id: Id, e: Entry<Ch>, i: nat)
    requires w'.entries == w.entries[id := e] && (id in w.entries ==> w.entries[id].serial == e.serial)
    ensures Current(w', i) <==> Current(w, i) || i == e.serial
  {
    assert w'.entries[id] == e;
    if Current(w, i) {
      var k :| k in w.entries && w.entries[k].serial == i;
      assert w'.entries[k].serial == i;
    }
  }

  lemma CurrentRemove<Ch>(w: Watch<Ch>, w': Watch<Ch>, id: Id, i: nat)
    requires SerialsSound(w) && id in w.entries && w'.entries == w.entries - {id}
    ensures Current(w', i) <==> Current(w, i) && i != w.entries[id].serial
  {
    if Current(w, i) && i != w.entries[id].serial {
      var k :| k in w.entries && w.entries[k].serial == i;
      assert k in w'.entries;
    }
  }

  lemma CancelledAfterPut<Ch>(w: Watch<Ch>, w': Watch<Ch>, id: Id, e: Entry<Ch>, i: nat)
    requires CancelledAt(w, i) && w'.entries == w.entries[id := e] && w'.cancelled == w.cancelled
    requires if id in w.entries then w.entries[id].serial == e.serial && w'.started == w.started
             else w.started == e.serial && w'.started == w.started + 1
    requires SerialsBelow(w)
    ensures CancelledAt(w', i)
  {
    CurrentPut(w, w', id, e, i);
    assert id in w.entries ==> Current(w, w.entries[id].serial);
  }

  lemma CancelledAfterRemove<Ch>(w: Watch<Ch>, w': Watch<Ch>, id: Id, i: nat)
    requires CancelledAt(w, i) && SerialsSound(w) && SerialsBelow(w) && id in w.entries
    requires w'.entries == w.entries - {id} && w'.started == w.started
    requires w'.cancelled == w.cancelled + {w.entries[id].serial}
    ensures CancelledAt(w', i)
  {
    CurrentRemove(w, w', id, i);
  }

  lemma CancelledStep<Ch>(x: World<Ch>, a: Action<Ch>, i: nat)
    requires Sound(x) && Enabled(x, a)
    ensures CancelledAt(Do(x, a).watch, i)
  {
    var w, w' := x.watch, Do(x, a).watch;
    var id := if a.Enter? then a.id else x.outstanding[a.ch];
    assert EntrySound(x, id) && CancelledAt(w, i);
    if id in w'.entries {
      CancelledAfterPut(w, w', id, w'.entries[id], i);
    } else {
      assert a.ch in Watching(x.outstanding, id);
      CancelledAfterRemove(w, w', id, i);
    }
  }

  lemma DistinctStep<Ch>(x: World<Ch>, a: Action<Ch>)
    requires Sound(x) && Enabled(x, a)
    ensures SerialsDistinct(Do(x, a).watch) && SerialsBelow(Do(x, a).watch)
  {
  }

  lemma SerialsStep<Ch>(x: World<Ch>, a: Action<Ch>)
    requires Sound(x) && Enabled(x, a)
    ensures SerialsSound(Do(x, a).watch) && SerialsBelow(Do(x, a).watch)
  {
    DistinctStep(x, a);
    forall i: nat
      ensures CancelledAt(Do(x, a).watch, i)
    {
      CancelledStep(x, a, i);
    }
  }

  lemma ReferencesEntered<Ch>(w: Watch<Ch>, id: Id, ch: Ch)
    ensures References(Subscribed(w, id, ch).entries) == References(w.entries) + 1
    ensures |Subscribed(w, id, ch).entries| == if id in w.entries then |w.entries| else |w.entries| + 1
  {
    var w' := Subscribed(w, id, ch);
    if id in w.entries {
      ReferencesWithout(w.entries, id);
      RemoveCount(w.entries, id);
    } else {
      ReferencesAbsent(w.entries, id);
    }
    ReferencesPut(w.entries, id, w'.entries[id]);
    assert w'.entries.Keys == w.entries.Keys + {id};
  }

  lemma ReferencesLeft<Ch>(w: Watch<Ch>, id: Id, ch: Ch)
    requires id in w.entries && w.entries[id].refs >= 1
    ensures var w' := Unsubscribed(w, id, ch);
            && References(w'.entries) == References(w.entries) - 1
            && |w'.entries| == if id in w'.entries then |w.entries| else |w.entries| - 1
  {
    var w' := Unsubscribed(w, id, ch);
    ReferencesWithout(w.entries, id);
    if id in w'.entries {
      ReferencesPut(w.entries, id, w'.entries[id]);
      assert w'.entries.Keys == w.entries.Keys;
    } else {
      RemoveCount(w.entries, id);
    }
  }

  lemma GaugesStep<Ch>(x: World<Ch>, a: Action<Ch>)
    requires Sound(x) && Enabled(x, a)
    ensures GaugesSound(Do(x, a))
  {
    if a.Enter? {
      ReferencesEntered(x.watch, a.id, a.ch);
    } else {
      var id := x.outstanding[a.ch];
      assert EntrySound(x, id) && a.ch in Watching(x.outstanding, id);
      ReferencesLeft(x.watch, id, a.ch);
      RemoveCount(x.outstanding, a.ch);
    }
  }

  lemma {:induction false} EveryRunSound<Ch>(actions: seq<Action<Ch>>)
    requires After(actions).Some?
    ensures Sound(After(actions).value)
    decreases |actions|
  {
    if actions != [] {
      var n := |actions| - 1;
      EveryRunSound(actions[..n]);
      var x, a := After(actions[..n]).value, actions[n];
      forall id
        ensures EntrySound(Do(x, a), id)
      {
        EntryStep(x, a, id);
      }
      SerialsStep(x, a);
      GaugesStep(x, a);
    }
  }

  // ----- the promises -----

  /**
   * In every run: each entry's count is its hub's client count and at least one, every channel a handler
   * holds is in the hub now current for its cluster, the gauges are the sum of counts and the number of
   * entries, and the watchers cancelled are exactly those whose entry was removed.
   */
  lemma ManagerConserves<Ch>(actions: seq<Action<Ch>>)
    requires After(actions).Some?
    ensures var x := After(actions).value;
            && (forall id :: id in x.watch.entries ==>
                  x.watch.entries[id].refs == |x.watch.entries[id].clients| && x.watch.entries[id].refs >= 1)
            && (forall ch :: ch in x.outstanding ==>
                  x.outstanding[ch] in x.watch.entries && ch in x.watch.entries[x.outstanding[ch]].clients)
            && x.watch.activeSubscribers == References(x.watch.entries) == |x.outstanding|
            && x.watch.activeWatchers == |x.watch.entries|
            && CancelledExactly(x.watch)
  {
    EveryRunSound(actions);
    var x := After(actions).value;
    forall id | id in x.watch.entries
      ensures x.watch.entries[id].refs == |x.watch.entries[id].clients| && x.watch.entries[id].refs >= 1
    {
      assert EntrySound(x, id);
    }
    forall ch | ch in x.outstanding
      ensures x.outstanding[ch] in x.watch.entries && ch in x.watch.entries[x.outstanding[ch]].clients
    {
      assert EntrySound(x, x.outstanding[ch]);
      assert ch in Watching(x.outstanding, x.outstanding[ch]);
    }
  }

  /** So for a manager object that has gone through such a run with real channels. */
  lemma ManagerObjectConserves(m: Manager, actions: seq<Action<WebHub.Channel>>)
    requires After(actions).Some? && m.Valid() && m.Value() == After(actions).value.watch
    ensures forall id :: id in m.entries ==>
              m.entries[id].refs == |m.entries[id].hub.clients| && m.entries[id].refs >= 1
    ensures var outstanding := After(actions).value.outstanding;
            && (forall ch :: ch in outstanding ==>
                  outstanding[ch] in m.entries && ch in m.entries[outstanding[ch]].hub.clients)
            && m.metrics.activeSubscribers == |outstanding|
    ensures m.metrics.activeWatchers == |m.entries|
    ensures forall i: nat :: i < |m.started| ==> (m.started[i].cancelled <==> m.started[i] !in m.entries.Values)
  {
    ManagerConserves(actions);
    var w := m.Value();
    forall id | id in m.entries
      ensures m.entries[id].refs == |m.entries[id].hub.clients| && m.entries[id].refs >= 1
    {
      assert w.entries[id].refs == m.entries[id].refs;
    }
    assert w.entries.Keys == m.entries.Keys;
    assert |m.entries| == |m.entries.Keys| && |w.entries| == |w.entries.Keys|;
    forall i: nat | i < |m.started|
      ensures m.started[i].cancelled <==> m.started[i] !in m.entries.Values
    {
      ObjectCancelled(m, w, i);
    }
  }

  lemma ObjectCancelled(m: Manager, w: Watch<WebHub.Channel>, i: nat)
    requires m.Valid() && w == m.Value() && CancelledExactly(w) && i < |m.started|
    ensures m.started[i].cancelled <==> m.started[i] !in m.entries.Values
  {
    assert CancelledAt(w, i);
    if m.started[i] in m.entries.Values {
      var id :| id in m.entries && m.entries[id] == m.started[i];
      assert w.entries[id].serial == i;
    }
    if Current(w, i) {
      var id :| id in w.entries && w.entries[id].serial == i;
      assert m.entries[id] in m.started;
    }
  }

  /** When the last handler has left, no watcher is left running. */
  lemma AllLeftAllCancelled<Ch>(actions: seq<Action<Ch>>)
    requires After(actions).Some? && After(actions).value.outstanding == map[]
    ensures var w := After(actions).value.watch;
            && w.entries == map[] && w.activeSubscribers == 0 && w.activeWatchers == 0
            && forall i: nat :: i in w.cancelled <==> i < w.started
  {
    EveryRunSound(actions);
    NobodyLeft(After(actions).value);
  }

  lemma NobodyLeft<Ch>(x: World<Ch>)
    requires Sound(x) && x.outstanding == map[]
    ensures x.watch.entries == map[]
    ensures forall i: nat :: i in x.watch.cancelled <==> i < x.watch.started
  {
    forall id
      ensures id !in x.watch.entries
    {
      assert EntrySound(x, id);
      assert Watching(x.outstanding, id) == {};
    }
    forall i: nat
      ensures i in x.watch.cancelled <==> i < x.watch.started
    {
      assert CancelledAt(x.watch, i);
    }
  }

  /** The world in which a handler leaves with this cluster and this channel, whether or not they are its own. */
  ghost function Leave<Ch>(x: World<Ch>, id: Id, ch: Ch): World<Ch> {
    x.(watch := Unsubscribed(x.watch, id, ch), outstanding := x.outstanding - {ch})
  }

  /**
   * The manager does not check the channel it is given. Leaving keeps counts and clients together exactly
   * when the channel is outstanding under that cluster, or is not outstanding and the cluster has no entry.
   */
  lemma LeavingKeepsCountsIff<Ch>(x: World<Ch>, id: Id, ch: Ch)
    requires Sound(x)
    ensures (forall k :: EntrySound(Leave(x, id, ch), k)) <==>
            if ch in x.outstanding then x.outstanding[ch] == id else id !in x.watch.entries
  {
    var y := Leave(x, id, ch);
    if ch in x.outstanding && x.outstanding[ch] == id {
      forall k
        ensures EntrySound(y, k)
      {
        assert Enabled(x, Exit(ch)) && Do(x, Exit(ch)) == y;
        EntryStep(x, Exit(ch), k);
      }
    } else if ch in x.outstanding {
      var own := x.outstanding[ch];
      assert EntrySound(x, own);
      assert ch in Watching(x.outstanding, own) && ch !in Watching(y.outstanding, own);
      assert y.watch.entries[own] == x.watch.entries[own];
      assert !EntrySound(y, own);
    } else {
      assert y.outstanding == x.outstanding;
      assert EntrySound(x, id);
      if id in x.watch.entries {
        assert !EntrySound(y, id);
      } else {
        assert forall k :: EntrySound(x, k) ==> EntrySound(y, k);
      }
    }
  }
}
