/** What happens when two commits about one affiliate overlap before they are delivered. */
module Overlap {
  import opened Basics
  import opened Affiliates
  import opened Registry
  import opened Interleaving
  import opened Convergence
  import W = WatchRuns
  import V = WatchViews
  import MergeLaws
  import UpdateLaws

  /** Two commits about one affiliate: updates, deletes, or prunes, in any combination. */
  datatype Pair = Pair(first: W.Action, second: W.Action)

  /** The operation commits and announces this one event. */
  ghost predicate Announces(t: Table, op: W.Action, ev: Event) {
    && (op.Update? || op.Remove? || op.Prune?)
    && (op.Prune? ==> IsPruneBatch(t, op.now, op.evs))
    && W.EventsOf(t, op) == [ev]
  }

  ghost predicate Announcing(t: Table, p: Pair) {
    && |W.EventsOf(t, p.first)| == 1 && |W.EventsOf(W.TableAfter(t, p.first), p.second)| == 1
    && Announces(t, p.first, FirstEvent(t, p)) && Announces(W.TableAfter(t, p.first), p.second, SecondEvent(t, p))
    && EventId(FirstEvent(t, p)) == EventId(SecondEvent(t, p))
  }

  ghost function FirstEvent(t: Table, p: Pair): Event
    requires |W.EventsOf(t, p.first)| == 1
  {
    W.EventsOf(t, p.first)[0]
  }

  ghost function SecondEvent(t: Table, p: Pair): Event
    requires |W.EventsOf(W.TableAfter(t, p.first), p.second)| == 1
  {
    W.EventsOf(W.TableAfter(t, p.first), p.second)[0]
  }

  ghost function TableAfterBoth(t: Table, p: Pair): Table {
    W.TableAfter(W.TableAfter(t, p.first), p.second)
  }

  /**
   * Ending with the first event instead of the second shows the same: they are the same event, or the
   * first deletes the affiliate and the second shows it with nothing left, as only a prune can.
   */
  predicate Interchangeable(first: Event, second: Event) {
    first == second ||
    (first.Delete? && second.Upsert? && second.info.data == [] && second.info.endpoints == [])
  }

  /** Both commit, then the second is delivered to watcher i before the first. */
  function Swapped(p: Pair, i: nat): seq<Step> {
    [Commit(0, p.first), Commit(1, p.second), Capture(1), Deliver(1, i), Capture(0), Deliver(0, i)]
  }

  ghost predicate HasRoomForTwo(s: System, i: nat) {
    && i < |s.watchers| && s.watchers[i].open
    && |s.watchers[i].got| + 2 <= s.watchers[i].read + SUBSCRIPTION_BUFFER
  }

  lemma RunSnoc(s: System, steps: seq<Step>, a: Step)
    requires RunFrom(s, steps).Some? && Enabled(RunFrom(s, steps).value, a)
    ensures RunFrom(s, steps + [a]) == Some(Do(RunFrom(s, steps).value, a))
  {
    assert (steps + [a])[..|steps|] == steps;
  }

  /** The two commits: both events are in flight, numbered in commit order. */
  lemma BothCommit(s: System, p: Pair) returns (s': System)
    requires s.tasks == map[] && Announcing(s.table, p)
    ensures RunFrom(s, Swapped(p, 0)[..2]) == Some(s')
    ensures s'.log == s.log + [FirstEvent(s.table, p), SecondEvent(s.table, p)]
    ensures s'.tasks == map[0 := Task([|s.log|], None), 1 := Task([|s.log| + 1], None)]
    ensures s'.watchers == s.watchers && s'.table == TableAfterBoth(s.table, p)
  {
    var a, b := Commit(0, p.first), Commit(1, p.second);
    RunSnoc(s, [], a);
    var s1 := CommitOne(s, 0, p.first, FirstEvent(s.table, p));
    RunSnoc(s, [a], b);
    s' := CommitOne(s1, 1, p.second, SecondEvent(s.table, p));
    assert [] + [a] == [a];
    FirstTwo(p);
  }

  lemma FirstTwo(p: Pair)
    ensures Swapped(p, 0)[..2] == [Commit(0, p.first)] + [Commit(1, p.second)]
  {
  }

  lemma CommitOne(s: System, tid: nat, op: W.Action, ev: Event) returns (s': System)
    requires tid !in s.tasks && Announces(s.table, op, ev)
    ensures Enabled(s, Commit(tid, op)) && s' == Do(s, Commit(tid, op))
    ensures s'.log == s.log + [ev] && s'.tasks == s.tasks[tid := Task([|s.log|], None)]
    ensures s'.table == W.TableAfter(s.table, op) && s'.watchers == s.watchers
  {
    s' := Do(s, Commit(tid, op));
    assert Numbered(|s.log|, 1) == [|s.log|];
  }

  /** Fan-out of a one-event task to watcher i, which has room for it. */
  lemma Fan(s: System, steps: seq<Step>, s1: System, tid: nat, i: nat) returns (s': System)
    requires RunFrom(s, steps) == Some(s1)
    requires tid in s1.tasks && s1.tasks[tid].targets == None && |s1.tasks[tid].tags| == 1
    requires i < |s1.watchers| && s1.watchers[i].open
    requires |s1.watchers[i].got| < s1.watchers[i].read + SUBSCRIPTION_BUFFER
    ensures RunFrom(s, steps + [Capture(tid), Deliver(tid, i)]) == Some(s')
    ensures s'.log == s1.log && s'.table == s1.table
    ensures s'.tasks.Keys == s1.tasks.Keys && forall t :: t in s1.tasks && t != tid ==> s'.tasks[t] == s1.tasks[t]
    ensures s'.tasks[tid].tags == s1.tasks[tid].tags
    ensures s'.tasks[tid].targets.Some? && i !in s'.tasks[tid].targets.value
    ensures s'.watchers == s1.watchers[i := s1.watchers[i].(got := s1.watchers[i].got + s1.tasks[tid].tags)]
  {
    RunSnoc(s, steps, Capture(tid));
    var s2 := Do(s1, Capture(tid));
    RunSnoc(s, steps + [Capture(tid)], Deliver(tid, i));
    s' := Do(s2, Deliver(tid, i));
    assert steps + [Capture(tid)] + [Deliver(tid, i)] == steps + [Capture(tid), Deliver(tid, i)];
    assert s1.tasks[tid].tags == [s1.tasks[tid].tags[0]];
  }

  /** Task 1 and then task 0, each with one event, delivered to watcher i. */
  lemma FanBoth(s: System, steps: seq<Step>, s2: System, a: nat, b: nat, i: nat) returns (s': System)
    requires RunFrom(s, steps) == Some(s2)
    requires s2.tasks == map[0 := Task([a], None), 1 := Task([b], None)] && HasRoomForTwo(s2, i)
    ensures RunFrom(s, steps + [Capture(1), Deliver(1, i)] + [Capture(0), Deliver(0, i)]) == Some(s')
    ensures s'.log == s2.log && s'.table == s2.table
    ensures s'.watchers == s2.watchers[i := s2.watchers[i].(got := s2.watchers[i].got + [b] + [a])]
    ensures Settled(s', i)
  {
    var s4 := Fan(s, steps, s2, 1, i);
    s' := Fan(s, steps + [Capture(1), Deliver(1, i)], s4, 0, i);
    AllOffered(s', i);
  }

  lemma SwappedSchedule(s: System, p: Pair, i: nat) returns (s': System)
    requires s.tasks == map[] && Announcing(s.table, p) && HasRoomForTwo(s, i)
    ensures RunFrom(s, Swapped(p, i)) == Some(s')
    ensures s'.log == s.log + [FirstEvent(s.table, p), SecondEvent(s.table, p)]
    ensures s'.table == TableAfterBoth(s.table, p)
    ensures s'.watchers == s.watchers[i := s.watchers[i].(got := s.watchers[i].got + [|s.log| + 1] + [|s.log|])]
    ensures Settled(s', i)
  {
    var commits := Swapped(p, 0)[..2];
    var s2 := BothCommit(s, p);
    s' := FanBoth(s, commits, s2, |s.log|, |s.log| + 1, i);
    SwappedSteps(p, i);
  }

  lemma SwappedSteps(p: Pair, i: nat)
    ensures Swapped(p, i) == Swapped(p, 0)[..2] + [Capture(1), Deliver(1, i)] + [Capture(0), Deliver(0, i)]
  {
  }

  lemma AllOffered(s: System, i: nat)
    requires forall t :: t in s.tasks ==>
               |s.tasks[t].tags| == 1 && s.tasks[t].targets.Some? && i !in s.tasks[t].targets.value
    ensures Settled(s, i)
  {
  }

  /** A watcher that gets the second event before the first shows the first one's affiliate. */
  lemma SwappedCopy(log: seq<Event>, base: Mirror, got: seq<nat>, first: Event, second: Event)
    requires Within(got, |log|)
    ensures Replay(base, EventsAt(log + [first, second], got + [|log| + 1] + [|log|])) ==
              Apply(Apply(Replay(base, EventsAt(log, got)), second), first)
  {
    var all := log + [first, second];
    SecondOnly(log, base, got, first, second);
    CopyAfterOffer(all, base, got + [|log| + 1], |log|);
  }

  lemma SecondOnly(log: seq<Event>, base: Mirror, got: seq<nat>, first: Event, second: Event)
    requires Within(got, |log|)
    ensures Replay(base, EventsAt(log + [first, second], got + [|log| + 1])) ==
              Apply(Replay(base, EventsAt(log, got)), second)
  {
    EventsAtGrows(log, [first, second], got);
    CopyAfterOffer(log + [first, second], base, got, |log| + 1);
  }

  /** In order, each of the two keeps a correct copy correct; a tombstone leaves no affiliate behind. */
  lemma InOrder(t: Table, op: W.Action, ev: Event, m: Mirror)
    requires ValidTable(t) && Agrees(m, t) && Announces(t, op, ev)
    ensures Agrees(Apply(m, ev), W.TableAfter(t, op))
    ensures ev.Delete? ==> ev.id !in W.TableAfter(t, op)
  {
    AnnouncedIsClean(t, op, ev);
    V.CommitStages(t, op, m, 1);
    V.SingleReplay(m, W.EventsOf(t, op), 1);
    V.LastStage(t, op);
    if op.Prune? {
      assert ev in op.evs;
    } else if op.Update? {
      UpsertShows(t, op.req, op.now);
    }
  }

  lemma AnnouncedIsClean(t: Table, op: W.Action, ev: Event)
    requires ValidTable(t) && Announces(t, op, ev)
    ensures V.Clean(t, op)
  {
    if op.Update? {
      UpdateLaws.OutcomeOf(t, op.req, op.now);
    }
  }

  /** What an update announces is an affiliate with data or endpoints. */
  lemma UpsertShows(t: Table, req: UpdateRequest, now: Time)
    requires ValidTable(t) && UpdateLaws.EventOf(t, req, now).Some?
    ensures var ev := UpdateLaws.EventOf(t, req, now).value;
            ev.Upsert? && ev.info.id == req.id && !(ev.info.data == [] && ev.info.endpoints == [])
  {
    UpdateLaws.TargetValid(t, req.id);
    EventIs(t, req, now);
    ShowsSomething(Target(t, req.id), req, now);
  }

  lemma EventIs(t: Table, req: UpdateRequest, now: Time)
    requires UpdateLaws.EventOf(t, req, now).Some?
    ensures UpdateLaws.EventOf(t, req, now).value == Upsert(InfoOf(UpdatedRecord(Target(t, req.id), req, now)))
    ensures var m := Merge(Target(t, req.id).endpoints, req.endpoints, now + req.ttl);
            !m.overflow && (req.data != [] || m.changed)
    ensures Keyed(t) ==> Target(t, req.id).id == req.id
  {
  }

  lemma ShowsSomething(rec: Record, req: UpdateRequest, now: Time)
    requires ValidEndpoints(rec.endpoints)
    requires var m := Merge(rec.endpoints, req.endpoints, now + req.ttl); req.data != [] || m.changed
    ensures var info := InfoOf(UpdatedRecord(rec, req, now));
            info.id == rec.id && !(info.data == [] && info.endpoints == [])
  {
    UpdateLaws.UpdatedInfo(rec, req, now, Names(Merge(rec.endpoints, req.endpoints, now + req.ttl).endpoints));
    if req.data == [] {
      MergeAddsSome(rec.endpoints, req.endpoints, now + req.ttl);
    }
  }

  lemma MergeAddsSome(eps: seq<Endpoint>, req: seq<Bytes>, e: Time)
    requires ValidEndpoints(eps) && Merge(eps, req, e).changed
    ensures Merge(eps, req, e).endpoints != []
  {
    MergeLaws.MergeExact(eps, req, e);
    assert exists d :: d in Elems(req);
  }

  /** Applied in the wrong order, two announcements of one affiliate agree exactly when they are interchangeable. */
  lemma WrongOrder(t: Table, p: Pair, m: Mirror)
    requires ValidTable(t) && Agrees(m, t) && Announcing(t, p)
    ensures Agrees(Apply(Apply(m, SecondEvent(t, p)), FirstEvent(t, p)), TableAfterBoth(t, p)) <==>
              Interchangeable(FirstEvent(t, p), SecondEvent(t, p))
  {
    var first, second := FirstEvent(t, p), SecondEvent(t, p);
    var t1 := W.TableAfter(t, p.first);
    V.TableAfterValid(t, p.first);
    InOrder(t, p.first, first, m);
    InOrder(t1, p.second, second, Apply(m, first));
    LastWins(m, TableAfterBoth(t, p), first, second);
  }

  lemma LastWins(m: Mirror, t: Table, first: Event, second: Event)
    requires EventId(first) == EventId(second) && Agrees(Apply(Apply(m, first), second), t)
    requires second.Delete? ==> second.id !in t
    ensures Agrees(Apply(Apply(m, second), first), t) <==> Interchangeable(first, second)
  {
    var wrong, right := Apply(Apply(m, second), first), Apply(Apply(m, first), second);
    var id := EventId(first);
    assert AgreesAt(right, t, id);
    forall k | k != id
      ensures AgreesAt(wrong, t, k)
    {
      assert AgreesAt(right, t, k);
    }
    assert id in t ==> |Names(t[id].endpoints)| == |t[id].endpoints|;
    assert AgreesAt(wrong, t, id) <==> Interchangeable(first, second);
  }

  /** Watcher i, having replayed all it was offered, has the server's table. */
  ghost predicate UpToDate(s: System, i: nat) {
    && i < |s.watchers| && Within(s.watchers[i].got, |s.log|)
    && Agrees(Replay(s.watchers[i].base, EventsAt(s.log, s.watchers[i].got)), s.table)
  }

  /**
   * From any state with nothing in flight, two overlapping commits about one affiliate have a schedule
   * after which an open watcher has been offered everything; it agrees exactly when their events are
   * interchangeable.
   */
  lemma OverlapMayDiverge(s: System, p: Pair, i: nat) returns (s': System)
    requires Invariant(s) && s.tasks == map[] && Announcing(s.table, p) && HasRoomForTwo(s, i)
    ensures RunFrom(s, Swapped(p, i)) == Some(s')
    ensures i < |s'.watchers| && s'.watchers[i].open && Settled(s', i) && Within(s'.watchers[i].got, |s'.log|)
    ensures UpToDate(s', i) <==> Interchangeable(FirstEvent(s.table, p), SecondEvent(s.table, p))
  {
    QuietUpToDate(s, i);
    s' := SwappedSchedule(s, p, i);
    SwappedAgreement(s, p, i, s');
  }

  lemma QuietUpToDate(s: System, i: nat)
    requires Invariant(s) && s.tasks == map[] && i < |s.watchers| && s.watchers[i].open
    ensures UpToDate(s, i) && ValidTable(s.table)
  {
    assert NothingMissed(s, i) && Settled(s, i);
    SettledAgrees(s, i);
  }

  lemma WithinTwo(got: seq<nat>, n: nat)
    requires Within(got, n)
    ensures Within(got + [n + 1] + [n], n + 2)
  {
  }

  lemma SwappedAgreement(s: System, p: Pair, i: nat, s': System)
    requires ValidTable(s.table) && Announcing(s.table, p) && UpToDate(s, i)
    requires s'.log == s.log + [FirstEvent(s.table, p), SecondEvent(s.table, p)]
    requires s'.table == TableAfterBoth(s.table, p)
    requires s'.watchers == s.watchers[i := s.watchers[i].(got := s.watchers[i].got + [|s.log| + 1] + [|s.log|])]
    ensures Within(s'.watchers[i].got, |s'.log|)
    ensures UpToDate(s', i) <==> Interchangeable(FirstEvent(s.table, p), SecondEvent(s.table, p))
  {
    WithinTwo(s.watchers[i].got, |s.log|);
    SwappedOutcome(s, p, s.watchers[i].base, s.watchers[i].got);
  }

  lemma SwappedOutcome(s: System, p: Pair, base: Mirror, got: seq<nat>)
    requires ValidTable(s.table) && Announcing(s.table, p)
    requires Within(got, |s.log|) && Agrees(Replay(base, EventsAt(s.log, got)), s.table)
    ensures var log' := s.log + [FirstEvent(s.table, p), SecondEvent(s.table, p)];
            var copy := Replay(base, EventsAt(log', got + [|s.log| + 1] + [|s.log|]));
            Agrees(copy, TableAfterBoth(s.table, p)) <==>
              Interchangeable(FirstEvent(s.table, p), SecondEvent(s.table, p))
  {
    SwappedCopy(s.log, base, got, FirstEvent(s.table, p), SecondEvent(s.table, p));
    WrongOrder(s.table, p, Replay(base, EventsAt(s.log, got)));
  }

  /** An update and a delete of one affiliate, whichever commits first, are never interchangeable. */
  lemma TombstonesDiverge(t: Table, p: Pair)
    requires ValidTable(t) && Announcing(t, p)
    requires (p.first.Update? && p.second.Remove?) || (p.first.Remove? && p.second.Update?)
    ensures !Interchangeable(FirstEvent(t, p), SecondEvent(t, p))
  {
    if p.first.Update? {
      UpsertShows(t, p.first.req, p.first.now);
    } else {
      V.TableAfterValid(t, p.first);
      UpsertShows(W.TableAfter(t, p.first), p.second.req, p.second.now);
    }
  }

  /**
   * So a delete that overlaps an update of the same affiliate can leave a watcher with an affiliate the
   * server has deleted, and an update that overlaps a delete can leave it without one the server has.
   */
  lemma DeleteOverlapDiverges(s: System, p: Pair, i: nat) returns (s': System)
    requires Invariant(s) && s.tasks == map[] && Announcing(s.table, p) && HasRoomForTwo(s, i)
    requires (p.first.Update? && p.second.Remove?) || (p.first.Remove? && p.second.Update?)
    ensures RunFrom(s, Swapped(p, i)) == Some(s')
    ensures i < |s'.watchers| && s'.watchers[i].open && Settled(s', i) && Within(s'.watchers[i].got, |s'.log|)
    ensures var copy := Replay(s'.watchers[i].base, EventsAt(s'.log, s'.watchers[i].got));
            var id := EventId(FirstEvent(s.table, p));
            if p.first.Update? then id in copy && id !in s'.table
            else id !in copy && id in s'.table && !Unannounced(s'.table[id])
  {
    QuietUpToDate(s, i);
    s' := SwappedSchedule(s, p, i);
    SwappedAgreement(s, p, i, s');
    SwappedCopy(s.log, s.watchers[i].base, s.watchers[i].got, FirstEvent(s.table, p), SecondEvent(s.table, p));
    DeleteOverlapTables(s.table, p);
  }

  lemma DeleteOverlapTables(t: Table, p: Pair)
    requires ValidTable(t) && Announcing(t, p)
    requires (p.first.Update? && p.second.Remove?) || (p.first.Remove? && p.second.Update?)
    ensures var id := EventId(FirstEvent(t, p));
            if p.first.Update? then FirstEvent(t, p).Upsert? && id !in TableAfterBoth(t, p)
            else FirstEvent(t, p) == Delete(id) && id in TableAfterBoth(t, p) && !Unannounced(TableAfterBoth(t, p)[id])
  {
    var t1 := W.TableAfter(t, p.first);
    V.TableAfterValid(t, p.first);
    if p.first.Update? {
      UpsertShows(t, p.first.req, p.first.now);
    } else {
      UpsertShows(t1, p.second.req, p.second.now);
      AnnouncedStored(t1, p.second.req, p.second.now);
    }
  }

  lemma AnnouncedStored(t: Table, req: UpdateRequest, now: Time)
    requires ValidTable(t) && UpdateLaws.EventOf(t, req, now).Some?
    ensures req.id in UpdateTable(t, req, now)
    ensures !Unannounced(UpdateTable(t, req, now)[req.id])
  {
    UpsertShows(t, req, now);
    var rec := UpdateTable(t, req, now)[req.id];
    assert UpdateLaws.EventOf(t, req, now) == Some(Upsert(InfoOf(rec)));
    assert |Names(rec.endpoints)| == |rec.endpoints|;
  }

  /** A concrete case: one watcher, and one new affiliate that first shows data [1] and then data [2]. */
  lemma TwoDataUpdatesDiverge() returns (s: System, s': System)
    ensures RunFrom(Initial(map[]), [Subscribe]) == Some(s)
    ensures RunFrom(s, Swapped(Pair(W.Update(UpdateRequest([7], [1], [], SECOND), 0),
                                    W.Update(UpdateRequest([7], [2], [], SECOND), 0)), 0)) == Some(s')
    ensures |s'.watchers| == 1 && s'.watchers[0].open && Settled(s', 0) && Within(s'.watchers[0].got, |s'.log|)
    ensures !UpToDate(s', 0)
  {
    var first, second := UpdateRequest([7], [1], [], SECOND), UpdateRequest([7], [2], [], SECOND);
    var p := Pair(W.Update(first, 0), W.Update(second, 0));
    RunSnoc(Initial(map[]), [], Subscribe);
    assert [] + [Subscribe] == [Subscribe];
    s := Do(Initial(map[]), Subscribe);
    assert Invariant(Initial(map[]));
    InvariantStep(Initial(map[]), Subscribe);
    ShowsData(map[], first, 0);
    ShowsData(UpdateTable(map[], first, 0), second, 0);
    s' := OverlapMayDiverge(s, p, 0);
    assert |s'.watchers| == 1 by {
      var t := SwappedSchedule(s, p, 0);
    }
  }

  lemma ShowsData(t: Table, req: UpdateRequest, now: Time)
    requires req.data != [] && req.endpoints == [] && !Refused(t, req)
    ensures var ev := UpdateLaws.EventOf(t, req, now);
            ev.Some? && ev.value.Upsert? && ev.value.info.data == req.data && ev.value.info.id == Target(t, req.id).id
  {
  }
}
