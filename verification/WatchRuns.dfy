/** Every run of one cluster, one operation at a time: no watcher ever sees a gap. */
module WatchRuns {
  import opened Basics
  import opened Affiliates
  import opened Registry
  import opened FanOut
  import UpdateLaws

  /** A Watch stream: the table it was given a listing of, where in the log that was, and the events sent since. */
  datatype Client = Client(listed: Table, start: nat, sent: seq<Event>) {
    /** The copy a client builds from the listing. */
    function Base(): Mirror {
      MirrorOf(listed)
    }
  }

  /**
   * A cluster together with its history: `log` is every event committed, and `past[k]` the server's
   * table once k events were committed, until the next one was.
   */
  datatype World = World(cluster: ClusterValue, log: seq<Event>, past: seq<Table>, clients: seq<Client>)

  datatype Action =
    | Update(req: UpdateRequest, now: Time)
    | Remove(id: Id, now: Time)
    | Prune(evs: seq<Event>, now: Time)
    | Subscribe
    | Send(i: nat)
    | Close(i: nat, now: Time)

  /** A run begins with a cluster without watchers: a new one, or one restored from a snapshot. */
  function Start(c: ClusterValue): World {
    World(c, [], [c.table], [])
  }

  ghost predicate Enabled(w: World, a: Action) {
    match a
    case Prune(evs, now) => IsPruneBatch(w.cluster.table, now, evs)
    case Send(i) => i < |w.cluster.subs| == |w.clients| && w.cluster.subs[i].buffer != []
    case Close(i, _) => i < |w.cluster.subs|
    case _ => |w.past| == |w.log| + 1
  }

  ghost function Stages(t: Table, now: Time, evs: seq<Event>): (r: seq<Table>)
    ensures |r| == |evs| + 1
  {
    seq(|evs| + 1, k requires 0 <= k <= |evs| => PartlyPruned(t, now, Elems(Ids(evs[..k]))))
  }

  ghost function EventsOf(t: Table, a: Action): seq<Event> {
    match a
    case Update(req, now) =>
      var ev := UpdateLaws.EventOf(t, req, now);
      if ev.Some? then [ev.value] else []
    case Remove(id, _) => if id in t then [Delete(id)] else []
    case Prune(evs, _) => evs
    case _ => []
  }

  ghost function TableAfter(t: Table, a: Action): Table {
    match a
    case Update(req, now) => UpdateTable(t, req, now)
    case Remove(id, _) => t - {id}
    case Prune(_, now) => PruneTable(t, now)
    case _ => t
  }

  ghost function StagesOf(t: Table, a: Action): (r: seq<Table>)
    ensures |r| == |EventsOf(t, a)| + 1
  {
    if a.Prune? then Stages(t, a.now, a.evs)
    else if EventsOf(t, a) == [] then [TableAfter(t, a)]
    else [t, TableAfter(t, a)]
  }

  ghost function ClusterAfter(w: World, a: Action): ClusterValue
    requires Enabled(w, a)
  {
    match a
    case Update(req, now) => UpdateCluster(w.cluster, req, now)
    case Remove(id, now) => DeleteFromCluster(w.cluster, id, now)
    case Prune(evs, now) => PruneCluster(w.cluster, evs, now)
    case Subscribe => SubscribeTo(w.cluster)
    case Send(i) => Receive(w.cluster, i)
    case Close(i, now) => CloseSub(w.cluster, i, now)
  }

  ghost function Perform(w: World, a: Action): World
    requires Enabled(w, a) && |w.past| == |w.log| + 1
  {
    var t := w.cluster.table;
    World(ClusterAfter(w, a),
          w.log + EventsOf(t, a),
          w.past[..|w.log|] + StagesOf(t, a),
          match a
          case Subscribe => w.clients + [Client(t, |w.log|, [])]
          case Send(i) => w.clients[i := w.clients[i].(sent := w.clients[i].sent + [w.cluster.subs[i].buffer[0]])]
          case _ => w.clients)
  }

  /** The world after a run; None when some action of it was not possible. */
  ghost function After(start: ClusterValue, acts: seq<Action>): (w: Option<World>)
    ensures w.Some? ==> |w.value.past| == |w.value.log| + 1
    decreases |acts|
  {
    if acts == [] then Some(Start(start))
    else
      var w := After(start, acts[..|acts| - 1]);
      if w.Some? && Enabled(w.value, acts[|acts| - 1]) then Some(Perform(w.value, acts[|acts| - 1])) else None
  }

  // ----- gap-free delivery -----

  /** Sent and buffered events of client i are the log since it subscribed: all of it while it is open. */
  ghost predicate GapFreeAt(w: World, i: nat)
    requires i < |w.clients| == |w.cluster.subs|
  {
    var c, sub := w.clients[i], w.cluster.subs[i];
    && c.start <= |w.log|
    && c.sent + sub.buffer <= w.log[c.start..]
    && (!sub.closed ==> c.sent + sub.buffer == w.log[c.start..])
    && |sub.buffer| <= SUBSCRIPTION_BUFFER
  }

  ghost predicate GapFree(w: World) {
    && |w.clients| == |w.cluster.subs|
    && forall i :: 0 <= i < |w.clients| ==> GapFreeAt(w, i)
  }

  lemma PrefixExtends<T>(p: seq<T>, s: seq<T>, more: seq<T>, from: nat)
    requires from <= |s| && p <= s[from..]
    ensures p <= (s + more)[from..]
    ensures p == s[from..] ==> forall k :: 0 <= k <= |more| ==> p + more[..k] <= (s + more)[from..]
    ensures p == s[from..] ==> p + more == (s + more)[from..]
  {
    assert (s + more)[from..] == s[from..] + more;
  }

  lemma SubsAfterCommit(w: World, a: Action)
    requires Enabled(w, a) && (a.Update? || a.Remove? || a.Prune?)
    ensures var subs := ClusterAfter(w, a).subs;
            |subs| == |w.cluster.subs| &&
            forall i :: 0 <= i < |subs| ==> subs[i] == Delivered(w.cluster.subs[i], EventsOf(w.cluster.table, a))
    ensures ClusterAfter(w, a).table == TableAfter(w.cluster.table, a)
  {
    var evs := EventsOf(w.cluster.table, a);
    var base := w.cluster.(table := TableAfter(w.cluster.table, a));
    match a {
      case Update(req, now) => SubsAfterOption(base, UpdateLaws.EventOf(w.cluster.table, req, now), now, evs);
      case Remove(id, now) =>
        if id in w.cluster.table {
          SubsAfterOption(base.(expiry := now + CLUSTER_TTL), Some(Delete(id)), now, evs);
        } else {
          assert w.cluster.table - {id} == w.cluster.table;
          SubsAfterOption(base, None, now, evs);
        }
      case Prune(_, now) => NotifyEachSubs(base, evs, now);
    }
  }

  lemma SubsAfterOption(c: ClusterValue, ev: Option<Event>, now: Time, evs: seq<Event>)
    requires evs == if ev.Some? then [ev.value] else []
    ensures var c' := NotifyOption(c, ev, now);
            && c'.table == c.table && |c'.subs| == |c.subs|
            && forall i :: 0 <= i < |c.subs| ==> c'.subs[i] == Delivered(c.subs[i], evs)
  {
    NotifyEachSubs(c, evs, now);
    if ev.Some? {
      assert evs == [] + [ev.value];
      NotifyEachSnoc(c, [], ev.value, now);
    }
  }

  lemma DeliveredGapFree(sub: Sub, c: Client, log: seq<Event>, evs: seq<Event>)
    requires c.start <= |log| && c.sent + sub.buffer <= log[c.start..]
    requires !sub.closed ==> c.sent + sub.buffer == log[c.start..]
    requires |sub.buffer| <= SUBSCRIPTION_BUFFER
    ensures var sub' := Delivered(sub, evs);
            && c.sent + sub'.buffer <= (log + evs)[c.start..]
            && (!sub'.closed ==> c.sent + sub'.buffer == (log + evs)[c.start..])
            && |sub'.buffer| <= SUBSCRIPTION_BUFFER
  {
    PrefixExtends(c.sent + sub.buffer, log, evs, c.start);
    if !sub.closed {
      var n := if |evs| <= Room(sub) then |evs| else Room(sub);
      assert c.sent + (sub.buffer + evs[..n]) == (c.sent + sub.buffer) + evs[..n];
      assert evs[..|evs|] == evs;
    }
  }

  lemma GapFreeStep(w: World, a: Action)
    requires GapFree(w) && Enabled(w, a) && |w.past| == |w.log| + 1
    ensures GapFree(Perform(w, a))
  {
    var w' := Perform(w, a);
    if a.Update? || a.Remove? || a.Prune? {
      SubsAfterCommit(w, a);
      GapFreeCommit(w, w', EventsOf(w.cluster.table, a));
    } else {
      assert w'.log == w.log;
      GapFreeElse(w, w', a);
    }
  }

  lemma GapFreeCommit(w: World, w': World, evs: seq<Event>)
    requires GapFree(w) && w'.log == w.log + evs && w'.clients == w.clients
    requires |w'.cluster.subs| == |w.cluster.subs|
    requires forall i :: 0 <= i < |w.cluster.subs| ==> w'.cluster.subs[i] == Delivered(w.cluster.subs[i], evs)
    ensures GapFree(w')
  {
    forall i | 0 <= i < |w.clients|
      ensures GapFreeAt(w', i)
    {
      assert GapFreeAt(w, i);
      DeliveredGapFree(w.cluster.subs[i], w.clients[i], w.log, evs);
    }
  }

  lemma GapFreeElse(w: World, w': World, a: Action)
    requires GapFree(w) && (a.Subscribe? || a.Send? || a.Close?) && Enabled(w, a) && w'.log == w.log
    requires w'.cluster == ClusterAfter(w, a)
    requires a.Subscribe? ==> w'.clients == w.clients + [Client(w.cluster.table, |w.log|, [])]
    requires a.Close? ==> w'.clients == w.clients
    requires a.Send? ==>
               var c, sub := w.clients[a.i], w.cluster.subs[a.i];
               w'.clients == w.clients[a.i := c.(sent := c.sent + [sub.buffer[0]])]
    ensures GapFree(w')
  {
    assert w.log[|w.log|..] == [];
    if a.Send? {
      var c, sub := w.clients[a.i], w.cluster.subs[a.i];
      assert sub.buffer == [sub.buffer[0]] + sub.buffer[1..];
      assert c.sent + sub.buffer == (c.sent + [sub.buffer[0]]) + sub.buffer[1..];
    }
    forall i | 0 <= i < |w.clients|
      ensures GapFreeAt(w', i)
    {
      assert GapFreeAt(w, i);
    }
  }

  /** In every run, what a watcher was sent plus what is buffered for it is the log since it subscribed. */
  lemma {:induction false} EveryRunGapFree(start: ClusterValue, acts: seq<Action>)
    requires start.subs == [] && After(start, acts).Some?
    ensures GapFree(After(start, acts).value)
    decreases |acts|
  {
    if acts != [] {
      EveryRunGapFree(start, acts[..|acts| - 1]);
      GapFreeStep(After(start, acts[..|acts| - 1]).value, acts[|acts| - 1]);
    }
  }

  // ----- eviction -----

  /** The events committed since client i subscribed that it has not been sent. */
  ghost function Unsent(w: World, i: nat): int
    requires i < |w.clients|
  {
    |w.log| - w.clients[i].start - |w.clients[i].sent|
  }

  /** The step commits events that leave client i more than 64 behind. */
  ghost predicate Overruns(w: World, a: Action, i: nat)
    requires i < |w.clients|
  {
    Unsent(w, i) + |EventsOf(w.cluster.table, a)| > 64
  }

  /** How many of n events still fit behind this many buffered ones. */
  function Fitting(buffered: nat, n: nat): nat {
    if buffered + n <= 64 then n else if buffered <= 64 then 64 - buffered else 0
  }

  /**
   * In every run a step closes an open watcher if and only if it closes that watcher, or commits events that
   * leave it more than 64 behind; exactly in the second case an update is recorded as lost; and the events that
   * fit are appended to its buffer in order, nothing else being added or removed but by its own send.
   */
  lemma ClosedExactly(start: ClusterValue, acts: seq<Action>, w: World, a: Action, i: nat, evs: seq<Event>)
    requires start.subs == [] && After(start, acts) == Some(w) && Enabled(w, a)
    requires i < |w.cluster.subs| && !w.cluster.subs[i].closed && evs == EventsOf(w.cluster.table, a)
    ensures i < |w.clients|
    ensures var was, after := w.cluster.subs[i], ClusterAfter(w, a).subs;
            && |after| >= |w.cluster.subs|
            && (after[i].closed <==> Overruns(w, a, i) || (a.Close? && a.i == i))
            && (after[i].lost <==> Overruns(w, a, i) || was.lost)
            && after[i].buffer == (if a == Send(i) then was.buffer[1..]
                                   else was.buffer + evs[..Fitting(|was.buffer|, |evs|)])
  {
    EveryRunGapFree(start, acts);
    assert GapFreeAt(w, i);
    DeliveredExactly(w.clients[i], w.cluster.subs[i], w.log, evs);
    if a.Update? || a.Remove? || a.Prune? {
      SubsAfterCommit(w, a);
    }
  }

  lemma DeliveredExactly(c: Client, sub: Sub, log: seq<Event>, evs: seq<Event>)
    requires c.start <= |log| && c.sent + sub.buffer == log[c.start..] && |sub.buffer| <= 64 && !sub.closed
    ensures |log| - c.start - |c.sent| == |sub.buffer|
    ensures var sub' := Delivered(sub, evs);
            && (sub'.closed <==> |sub.buffer| + |evs| > 64) && (sub'.lost <==> |sub.buffer| + |evs| > 64 || sub.lost)
            && sub'.buffer == sub.buffer + evs[..Fitting(|sub.buffer|, |evs|)]
    ensures evs == [] ==> sub.buffer + evs[..Fitting(|sub.buffer|, |evs|)] == sub.buffer
  {
    assert |c.sent + sub.buffer| == |log[c.start..]|;
    assert evs[..|evs|] == evs;
  }

  /** A closed watcher stays as it is, but for its own sends, which go on. */
  lemma ClosedStays(w: World, a: Action, i: nat)
    requires Enabled(w, a) && i < |w.cluster.subs| && w.cluster.subs[i].closed
    ensures i < |ClusterAfter(w, a).subs|
    ensures var was, now := w.cluster.subs[i], ClusterAfter(w, a).subs[i];
            now == if a == Send(i) then was.(buffer := was.buffer[1..]) else was
  {
    if a.Update? || a.Remove? || a.Prune? {
      SubsAfterCommit(w, a);
    }
  }

  /** In every run a new watcher is open, has the table of that moment, and nothing buffered or sent. */
  lemma BornOpen(start: ClusterValue, acts: seq<Action>, w: World)
    requires start.subs == [] && After(start, acts) == Some(w)
    ensures |w.clients| == |w.cluster.subs|
    ensures After(start, acts + [Subscribe]) ==
              Some(w.(cluster := w.cluster.(subs := w.cluster.subs + [Sub([], false, false)]),
                      clients := w.clients + [Client(w.cluster.table, |w.log|, [])],
                      past := w.past[..|w.log|] + [w.cluster.table]))
  {
    EveryRunGapFree(start, acts);
    assert (acts + [Subscribe])[..|acts|] == acts;
    assert w.log + [] == w.log;
  }

  /** Step k of the run closes watcher i, which is there by then. */
  ghost predicate ClosesAt(start: ClusterValue, acts: seq<Action>, k: nat, i: nat) {
    && k < |acts| && After(start, acts[..k]).Some?
    && var w := After(start, acts[..k]).value;
       i < |w.clients| && (Overruns(w, acts[k], i) || (acts[k].Close? && acts[k].i == i))
  }

  /** Step k of the run evicts watcher i: it is open, and left more than 64 behind. */
  ghost predicate EvictsAt(start: ClusterValue, acts: seq<Action>, k: nat, i: nat) {
    && k < |acts| && After(start, acts[..k]).Some?
    && var w := After(start, acts[..k]).value;
       i < |w.clients| && i < |w.cluster.subs| && !w.cluster.subs[i].closed && Overruns(w, acts[k], i)
  }

  ghost predicate EverClosed(start: ClusterValue, acts: seq<Action>, i: nat) {
    exists k: nat :: ClosesAt(start, acts, k, i)
  }

  ghost predicate EverEvicted(start: ClusterValue, acts: seq<Action>, i: nat) {
    exists k: nat :: EvictsAt(start, acts, k, i)
  }

  lemma StepsBefore(start: ClusterValue, acts: seq<Action>, front: seq<Action>, a: Action, v: World, i: nat)
    requires acts == front + [a] && After(start, front) == Some(v) && |v.clients| == |v.cluster.subs|
    ensures EverClosed(start, acts, i) <==>
            EverClosed(start, front, i) || (i < |v.clients| && (Overruns(v, a, i) || (a.Close? && a.i == i)))
    ensures EverEvicted(start, acts, i) <==>
            EverEvicted(start, front, i) || (i < |v.clients| && !v.cluster.subs[i].closed && Overruns(v, a, i))
  {
    forall k: nat | k < |front|
      ensures ClosesAt(start, acts, k, i) <==> ClosesAt(start, front, k, i)
      ensures EvictsAt(start, acts, k, i) <==> EvictsAt(start, front, k, i)
    {
      assert acts[..k] == front[..k];
    }
    var n := |front|;
    assert acts[..n] == front;
    assert ClosesAt(start, acts, n, i) <==> i < |v.clients| && (Overruns(v, a, i) || (a.Close? && a.i == i));
    assert EvictsAt(start, acts, n, i) <==> i < |v.clients| && !v.cluster.subs[i].closed && Overruns(v, a, i);
  }

  /**
   * At the end of every run a watcher is closed if and only if some step closed it: its own close, or one that
   * left it more than 64 events behind; and it lost an update if and only if one of the latter found it open.
   */
  lemma {:induction false} ClosedIff(start: ClusterValue, acts: seq<Action>, w: World, i: nat)
    requires start.subs == [] && After(start, acts) == Some(w)
    ensures |w.clients| == |w.cluster.subs|
    ensures i < |w.cluster.subs| && w.cluster.subs[i].closed <==> EverClosed(start, acts, i)
    ensures i < |w.cluster.subs| && w.cluster.subs[i].lost <==> EverEvicted(start, acts, i)
    decreases |acts|
  {
    EveryRunGapFree(start, acts);
    if acts != [] {
      var front, a := acts[..|acts| - 1], acts[|acts| - 1];
      var v := LastStep(start, acts, w);
      assert acts == front + [a];
      ClosedIff(start, front, v, i);
      StepsBefore(start, acts, front, a, v, i);
      StepCloses(start, front, v, a, i, w.cluster);
    }
  }

  lemma LastStep(start: ClusterValue, acts: seq<Action>, w: World) returns (v: World)
    requires acts != [] && After(start, acts) == Some(w)
    ensures After(start, acts[..|acts| - 1]) == Some(v) && Enabled(v, acts[|acts| - 1])
    ensures w.cluster == ClusterAfter(v, acts[|acts| - 1])
  {
    v := After(start, acts[..|acts| - 1]).value;
  }

  lemma StepCloses(start: ClusterValue, front: seq<Action>, v: World, a: Action, i: nat, c: ClusterValue)
    requires start.subs == [] && After(start, front) == Some(v) && Enabled(v, a) && c == ClusterAfter(v, a)
    ensures |v.clients| == |v.cluster.subs| <= |c.subs|
    ensures i < |c.subs| && c.subs[i].closed <==>
            i < |v.clients| && (v.cluster.subs[i].closed || Overruns(v, a, i) || (a.Close? && a.i == i))
    ensures i < |c.subs| && c.subs[i].lost <==>
            i < |v.clients| && (v.cluster.subs[i].lost || (!v.cluster.subs[i].closed && Overruns(v, a, i)))
  {
    EveryRunGapFree(start, front);
    NewcomersOpen(v, a);
    if i < |v.cluster.subs| {
      if v.cluster.subs[i].closed {
        ClosedStays(v, a, i);
      } else {
        ClosedExactly(start, front, v, a, i, EventsOf(v.cluster.table, a));
      }
    }
  }

  lemma NewcomersOpen(w: World, a: Action)
    requires Enabled(w, a)
    ensures |w.cluster.subs| <= |ClusterAfter(w, a).subs|
    ensures forall i :: |w.cluster.subs| <= i < |ClusterAfter(w, a).subs| ==>
              ClusterAfter(w, a).subs[i] == Sub([], false, false)
  {
    if a.Update? || a.Remove? || a.Prune? {
      SubsAfterCommit(w, a);
    }
  }
}
